// Retries over whole runs (cmd/cpe-sim/main.go): the engine together with the timers that
// have fired and not asked for their session yet.
module SessionRetries {
  import opened Events
  import opened Options
  import opened Runs
  import opened SessionEngine
  import opened SessionSafety

  /** The engine, and how many retry timers have freed their slot but not made their request. */
  datatype Watched = Watched(engine: Engine, owed: nat)

  /** A retry is requested only by a timer that has fired. */
  ghost predicate Advances(w: Watched, a: Action, v: Watched) {
    && Moves(w.engine, a, v.engine)
    && if a.Fire? then v.owed == w.owed + 1
       else if a.Request? && a.trigger == OnRetry then w.owed > 0 && v.owed == w.owed - 1
       else v.owed == w.owed
  }

  /** A thread that has not finished its session yet. */
  ghost predicate Attended(e: Engine) {
    exists th :: th in e.runner.threads && !e.runner.threads[th].Finished?
  }

  /** After a failure something is left that leads to another session. */
  ghost predicate Pursued(w: Watched) {
    var e := w.engine;
    e.retry > 0 ==> Attended(e) || e.runner.cancelRetry.Some? || e.runner.hasDeferred || w.owed > 0
  }

  lemma PursuedKept(w: Watched, a: Action, v: Watched)
    requires Advances(w, a, v) && Exclusive(w.engine) && Pursued(w)
    ensures Pursued(v)
  {
    var e, f := w.engine, v.engine;
    if a.Request? || a.Prepare? || a.Begin? || a.End? || a.Next? {
      if a.thread in f.runner.threads && !f.runner.threads[a.thread].Finished? {
        assert Attended(f);
      } else if a.Next? {
        assert !Attended(e);
      }
    } else if Attended(e) && !a.Arm? {
      var th :| th in e.runner.threads && !e.runner.threads[th].Finished?;
      assert th in f.runner.threads && !f.runner.threads[th].Finished?;
    }
  }

  lemma {:induction false} PursuedThroughRun(w: Watched, actions: seq<Action>, v: Watched)
    requires Run(Advances, w, actions, v) && Safe(w.engine) && Pursued(w)
    ensures Safe(v.engine) && Pursued(v)
    decreases |actions|
  {
    hide Safe, Pursued, Moves;
    if actions != [] {
      var mid :| Advances(w, actions[0], mid) && Run(Advances, mid, actions[1..], v);
      SafeKept(w.engine, actions[0], mid.engine);
      SafeIsExclusive(w.engine);
      PursuedKept(w, actions[0], mid);
      PursuedThroughRun(mid, actions[1..], v);
    }
  }

  lemma SafeIsExclusive(e: Engine)
    requires Safe(e)
    ensures Exclusive(e) && OneTimer(e)
  {
  }

  /** A failed session is never stranded: while the retry count is positive a retry timer is
      armed, or one has fired and is about to make its request, or a trigger is latched, or
      a session thread is inside. */
  lemma FailedSessionIsPursued(handlers: set<string>, w: Watched)
    requires Reaches(Advances, Watched(Start(handlers), 0), w) && w.engine.retry > 0
    ensures w.engine.runner.armed != {} || w.owed > 0 || w.engine.runner.hasDeferred || w.engine.runner.busy
  {
    hide Safe;
    var from := Watched(Start(handlers), 0);
    SafeAtStart(handlers);
    var actions :| Run(Advances, from, actions, w);
    PursuedThroughRun(from, actions, w);
    SafeIsExclusive(w.engine);
    if Attended(w.engine) {
      var th :| th in w.engine.runner.threads && !w.engine.runner.threads[th].Finished?;
      assert th in w.engine.runner.threads.Keys;
    }
    if w.engine.runner.cancelRetry.Some? {
      assert w.engine.runner.cancelRetry.value in w.engine.runner.armed;
    }
  }
}
