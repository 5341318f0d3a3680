// The session runner's code (cmd/cpe-sim/main.go sessionRunner, RunSession of
// internal/cwmp/runsession.go). Every critical section is shown to take exactly one
// step of the session engine, so a call of request, with whatever other goroutines
// do meanwhile, is a run of the engine and keeps all of its guarantees.
module SessionRunners {
  import opened Events
  import opened EventTrackers
  import opened Options
  import opened RetryStates
  import opened Runs
  import opened SessionEngine
  import opened SessionSafety
  import opened Sessions

  /** What another goroutine does while a session runs. */
  datatype Disturbance =
    | Asks(trigger: Trigger)
    | Queues(name: string, key: string)
    | Transferred(transfer: TransferRecord)
    | Changed(change: DURecord)
    | Writes(path: string)
    | Resets
    | Reboots
    | GoesDark
    | ComesBack

  /** One session's surroundings: whether its Inform builder is built, the server's
      replies, what others do during it and after it, and the retry draw. */
  datatype Episode = Episode(built: bool, acs: seq<Reply>, during: seq<Disturbance>, after: seq<Disturbance>, draw: nat)

  const NO_EPISODE := Episode(false, [], [], [], 0)

  /** The one-shot timers of the scheduler. */
  class OneShots {
    var armed: set<nat>
    var next: nat

    constructor ()
      ensures armed == {} && next == 0
    {
      armed, next := {}, 0;
    }

    method ScheduleOnce(wait: nat) returns (id: nat)
      modifies this
      ensures id == old(next) && next == id + 1 && armed == old(armed) + {id}
    {
      id := next;
      armed, next := armed + {id}, next + 1;
    }

    method Cancel(id: nat)
      modifies this
      ensures armed == old(armed) - {id} && next == old(next)
    {
      armed := armed - {id};
    }
  }

  /** What releasing the device, or taking the latched trigger, changes of the engine. */
  lemma NextFacts(e: Engine, th: nat)
    requires Reachable(e) && th in e.runner.threads && e.runner.threads[th].Finished?
    ensures var f, out := Step(e, Next(th)), !e.runner.hasDeferred || e.runner.offline;
      && f.handlers == e.handlers && f.retry == e.retry && f.tracker == e.tracker && e.runner.busy
      && f.runner == e.runner.(threads := if out then map[] else map[th := Claimed(e.runner.deferred)],
                               busy := !out, hasDeferred := out && e.runner.hasDeferred)
  {
    hide Safe;
    SafeAlways(e);
    SafeIsAlone(e, th);
  }

  class SessionRunner {
    const sched: OneShots
    const tracker: EventTracker
    const session: Session
    const retry: RetryState

    var busy: bool
    var offline: bool
    var deferred: Trigger
    var hasDeferred: bool
    var cancelRetry: Option<nat>

    /** The engine state these fields are the device's part of. */
    ghost var world: Engine

    ghost predicate Valid()
      reads this, sched, tracker, session, retry
    {
      && world.handlers == session.handlers
      && world.runner.busy == busy
      && world.runner.offline == offline
      && world.runner.deferred == deferred
      && world.runner.hasDeferred == hasDeferred
      && world.runner.cancelRetry == cancelRetry
      && world.runner.armed == sched.armed
      && world.runner.timers == sched.next
      && world.retry == retry.count
      && world.tracker == tracker.State()
      && Reachable(world)
    }

    constructor (handlers: set<string>)
      ensures Valid() && world == Start(handlers)
      ensures fresh(sched) && fresh(tracker) && fresh(session) && fresh(retry)
    {
      sched := new OneShots();
      tracker := new EventTracker();
      session := new Session(handlers);
      retry := new RetryState();
      busy, offline, deferred, hasDeferred, cancelRetry := false, false, OnStartup, false, None;
      world := Start(handlers);
      new;
      ReachesItself(Moves, Start(handlers));
    }

    method SetOffline()
      requires Valid()
      modifies this`offline, this`world
      ensures Valid() && Moves(old(world), GoOffline, world)
    {
      offline := true;
      ReachableNext(world, GoOffline);
      world := Step(world, GoOffline);
    }

    method SetOnline()
      requires Valid()
      modifies this`offline, this`world
      ensures Valid() && Moves(old(world), GoOnline, world)
    {
      offline := false;
      ReachableNext(world, GoOnline);
      world := Step(world, GoOnline);
    }

    /** request's first critical section: claims the device or latches the trigger. */
    method ClaimOrLatch(ghost th: nat, trigger: Trigger) returns (claimed: bool)
      requires Valid() && th !in world.runner.threads
      modifies this`busy, this`deferred, this`hasDeferred, this`world, tracker
      ensures Valid() && Moves(old(world), Action.Request(th, trigger), world)
      ensures claimed == !old(busy || offline)
      ensures world.runner.threads ==
        if claimed then old(world.runner.threads)[th := Claimed(trigger)] else old(world.runner.threads)
      ensures busy == (old(busy) || claimed)
      ensures !claimed ==> hasDeferred
      ensures !claimed ==>
        deferred == if old(hasDeferred) && !Outranks(trigger, old(deferred)) then old(deferred) else trigger
    {
      hide Begun, Ended, Outcome, Prepared, Armed, Continued, Reachable, Outranks;
      ghost var act := Action.Request(th, trigger);
      ReachableNext(world, act);
      if busy || offline {
        if hasDeferred {
          var loser := trigger;
          if Priority(trigger) > Priority(deferred) {
            loser := deferred;
          }
          if loser == OnPeriodic {
            tracker.QueuePeriodic();
          }
        }
        if !hasDeferred || Priority(trigger) > Priority(deferred) {
          deferred := trigger;
        }
        hasDeferred := true;
        claimed := false;
      } else {
        busy := true;
        claimed := true;
      }
      ghost var before := world;
      world := Step(world, act);
      if !claimed {
        LatchesTheBetter(before, th, trigger, world);
      }
    }

    /** The loop's critical section: releases the device or takes the latched trigger. */
    method ReleaseOrTake(ghost th: nat) returns (released: bool, next: Trigger)
      requires Valid() && th in world.runner.threads && world.runner.threads[th].Finished?
      modifies this`busy, this`hasDeferred, this`world
      ensures Valid() && Moves(old(world), Next(th), world)
      ensures released == (!old(hasDeferred) || offline)
      ensures released ==> !busy && world.runner.threads == map[]
      ensures !released ==>
        busy && !hasDeferred && th in world.runner.threads && world.runner.threads[th] == Claimed(next)
    {
      hide Acted, Reachable;
      ghost var act := Next(th);
      ReachableNext(world, act);
      NextFacts(world, th);
      next := deferred;
      if !hasDeferred || offline {
        busy := false;
        released := true;
      } else {
        hasDeferred := false;
        released := false;
      }
      world := Step(world, act);
    }

    method CancelPendingRetry()
      modifies this`cancelRetry, sched
      ensures cancelRetry == None && sched.next == old(sched.next)
      ensures sched.armed == if old(cancelRetry.Some?) then old(sched.armed - {cancelRetry.value}) else old(sched.armed)
    {
      if cancelRetry.Some? {
        sched.Cancel(cancelRetry.value);
        cancelRetry := None;
      }
    }

    /** The retry timer's callback: frees the slot, then asks for a retry session. */
    method RetryFires(ghost th: nat, timer: nat, episodes: seq<Episode>) returns (ran: bool, ok: bool)
      requires Valid() && timer in sched.armed && th !in world.runner.threads
      modifies this, sched, tracker, session, retry
      ensures Valid() && Reaches(Moves, old(world), world)
      ensures ran ==> !busy && world.runner.threads == map[] && (!hasDeferred || offline)
    {
      ghost var w, act := world, Fire(timer);
      ReachableNext(world, act);
      ReachesItself(Moves, w);
      sched.Cancel(timer);
      cancelRetry := None;
      world := Step(world, act);
      ReachesNext(Moves, w, w, act, world);
      ghost var w1 := world;
      ran, ok := Request(th, OnRetry, episodes);
      ReachesTransitively(Moves, w, w1, world);
    }

    /** What other goroutines do: each disturbance is one step, and none moves the
        session that is running. */
    method Disturb(ds: seq<Disturbance>)
      requires Valid() && busy
      modifies this, tracker, retry
      ensures Valid() && busy
      ensures world.runner.threads == old(world.runner.threads)
      ensures ds == [] ==> hasDeferred == old(hasDeferred)
      ensures Reaches(Moves, old(world), world)
    {
      ReachesItself(Moves, world);
      for i := 0 to |ds|
        invariant Valid() && busy
        invariant world.runner.threads == old(world.runner.threads)
        invariant i == 0 ==> hasDeferred == old(hasDeferred)
        invariant Reaches(Moves, old(world), world)
      {
        ghost var before := world;
        ghost var act := DisturbOnce(ds[i]);
        ReachesNext(Moves, old(world), before, act, world);
      }
    }

    method DisturbOnce(d: Disturbance) returns (ghost act: Action)
      requires Valid() && busy
      modifies this, tracker, retry
      ensures Valid() && busy
      ensures world.runner.threads == old(world.runner.threads)
      ensures Moves(old(world), act, world)
    {
      match d {
        case Asks(trigger) =>
          ghost var th: nat :| th !in world.runner.threads by { FreshThread(world.runner.threads.Keys); }
          act := Action.Request(th, trigger);
          var _ := ClaimOrLatch(th, trigger);
        case GoesDark =>
          act := GoOffline;
          SetOffline();
        case ComesBack =>
          act := GoOnline;
          SetOnline();
        case Reboots =>
          act := RebootReset;
          ReachableNext(world, act);
          retry.Reset();
          world := Step(world, act);
        case _ =>
          act := Disclose(d);
      }
    }

    /** The disturbances that only reach the tracker. */
    method Disclose(d: Disturbance) returns (ghost act: Action)
      requires Valid() && (d.Queues? || d.Transferred? || d.Changed? || d.Writes? || d.Resets?)
      modifies this`world, tracker
      ensures Valid()
      ensures world.runner == old(world.runner)
      ensures Moves(old(world), act, world)
    {
      hide Begun, Ended, Outcome, Requested, Prepared, Armed, Continued, Reachable;
      match d {
        case Queues(name, key) =>
          act := QueueMethod(name, key);
          tracker.RequeueEvent(Event(Method(name), key));
        case Transferred(r) =>
          act := QueueTransfer(r);
          tracker.QueueTransferComplete(r);
        case Changed(r) =>
          act := QueueDU(r);
          tracker.QueueDUStateChangeComplete(r);
        case Writes(path) =>
          act := RecordChange(path);
          tracker.RecordValueChange(path);
        case Resets =>
          act := FactoryReset;
          tracker.ResetBootstrap();
      }
      ReachableNext(world, act);
      world := Step(world, act);
    }

    /** RunSession: draws, converses while others act, then acknowledges or gives back. */
    method RunSession(ghost th: nat, trigger: Trigger, s: Episode) returns (ok: bool)
      requires Valid() && busy && th in world.runner.threads && world.runner.threads[th] == Ready(trigger)
      modifies this, tracker, session, retry
      ensures Valid() && busy && th in world.runner.threads
      ensures world.runner.threads[th] == if ok then Finished else Phase.Failed
      ensures s.during == [] ==> hasDeferred == old(hasDeferred)
      ensures Reaches(Moves, old(world), world)
    {
      ghost var w := world;
      ReachesItself(Moves, w);
      ghost var d;
      var events, ts, ds;
      events, ts, ds := BeginSession(th, trigger);
      ReachesNext(Moves, w, w, Begin(th), world);
      if |events| == 0 {
        return false;
      }
      session.pendingCPERPCs := Calls(ts, ds);
      session.retryCount := retry.count;
      var log;
      ok := false;
      if s.built {
        ok, log := session.Run(events, s.acs);
      }
      d := world.runner.threads[th].draw;
      assert ok == Outcome(session.handlers, d, s.built, s.acs).ok;
      ghost var w1 := world;
      Disturb(s.during);
      ReachesTransitively(Moves, w, w1, world);
      ghost var w2 := world;
      EndSession(th, ok, events, ts, ds, s.built, s.acs);
      ReachesNext(Moves, w, w2, End(th, s.built, s.acs), world);
    }

    method BeginSession(ghost th: nat, trigger: Trigger)
      returns (events: seq<Event>, ts: seq<TransferRecord>, ds: seq<DURecord>)
      requires Valid() && busy && th in world.runner.threads && world.runner.threads[th] == Ready(trigger)
      modifies this`world, tracker
      ensures Valid() && Moves(old(world), Begin(th), world)
      ensures th in world.runner.threads
      ensures events == [] ==> world.runner.threads[th] == Phase.Failed
      ensures events != [] ==> world.runner.threads[th].InSession?
      ensures events != [] ==>
        var d := world.runner.threads[th].draw;
        d.events == events && d.transfers == ts && d.duChanges == ds && d.retryCount == retry.count
    {
      ghost var act := Begin(th);
      ReachableNext(world, act);
      EmptyDraw(world.tracker, trigger);
      events := tracker.NextSessionEvents(trigger);
      if |events| == 0 {
        ts, ds := [], [];
      } else {
        ts := tracker.DrainTransferCompletes();
        ds := tracker.DrainDUStateChangeCompletes();
      }
      world := Step(world, act);
    }

    method EndSession(ghost th: nat, ok: bool, events: seq<Event>, ts: seq<TransferRecord>, ds: seq<DURecord>,
                      ghost built: bool, ghost acs: seq<Reply>)
      requires Valid() && th in world.runner.threads && world.runner.threads[th].InSession?
      requires var d := world.runner.threads[th].draw;
        && d.events == events && d.transfers == ts && d.duChanges == ds
        && ok == Outcome(world.handlers, d, built, acs).ok
      modifies this`world, tracker, retry
      ensures Valid() && Moves(old(world), End(th, built, acs), world)
      ensures world.runner == At(old(world), th, if ok then Finished else Phase.Failed)
    {
      ghost var act := End(th, built, acs);
      ReachableNext(world, act);
      if ok {
        tracker.Acknowledge();
        retry.Reset();
      } else {
        tracker.RequeueAll(events, ts, ds);
      }
      world := Step(world, act);
    }

    /** Counts the failed session and arms the next retry, within its wait band. */
    method ArmRetry(ghost th: nat, draw: nat) returns (wait: nat)
      requires Valid() && th in world.runner.threads && world.runner.threads[th].Failed?
      modifies this`cancelRetry, this`world, sched, retry
      ensures Valid() && Moves(old(world), Arm(th), world)
      ensures world.runner.threads == old(world.runner.threads)[th := Finished]
      ensures BandStart(retry.count) <= wait < BandEnd(retry.count)
      ensures retry.count == old(retry.count) + 1
    {
      ghost var act := Arm(th);
      ReachableNext(world, act);
      var count;
      count, wait := retry.OnFailure(draw);
      var id := sched.ScheduleOnce(wait);
      cancelRetry := Some(id);
      world := Step(world, act);
    }

    method PrepareSession(ghost th: nat, trigger: Trigger) returns (needed: bool)
      requires Valid() && th in world.runner.threads && world.runner.threads[th] == Claimed(trigger)
      modifies this`cancelRetry, this`world, sched
      ensures Valid() && Moves(old(world), Prepare(th), world)
      ensures world.runner.threads == old(world.runner.threads)[th := if needed then Ready(trigger) else Finished]
      ensures needed <==> trigger != OnRetry || retry.count != 0
    {
      ghost var act := Prepare(th);
      ReachableNext(world, act);
      needed := trigger != OnRetry || retry.count != 0;
      if needed {
        CancelPendingRetry();
      }
      world := Step(world, act);
    }

    /** runOne: one session with its retry accounting. */
    method RunOne(ghost th: nat, trigger: Trigger, s: Episode) returns (ok: bool)
      requires Valid() && busy && th in world.runner.threads && world.runner.threads[th] == Claimed(trigger)
      modifies this, sched, tracker, session, retry
      ensures Valid() && busy && th in world.runner.threads && world.runner.threads[th] == Finished
      ensures s.during == [] && s.after == [] ==> hasDeferred == old(hasDeferred)
      ensures Reaches(Moves, old(world), world)
    {
      ghost var w := world;
      ReachesItself(Moves, w);
      var needed := PrepareSession(th, trigger);
      ReachesNext(Moves, w, w, Prepare(th), world);
      if !needed {
        return true;
      }
      ghost var w1 := world;
      ok := RunSession(th, trigger, s);
      ReachesTransitively(Moves, w, w1, world);
      if !ok {
        ghost var w2 := world;
        Disturb(s.after);
        ReachesTransitively(Moves, w, w2, world);
        ghost var w3 := world;
        var wait := ArmRetry(th, s.draw);
        ReachesNext(Moves, w, w3, Arm(th), world);
      }
    }

    /** request: runs the session inline and drains the latch, or leaves the trigger
        latched. Episodes give the surroundings of the sessions in turn. */
    method Request(ghost th: nat, trigger: Trigger, episodes: seq<Episode>) returns (ran: bool, ok: bool)
      requires Valid() && th !in world.runner.threads
      modifies this, sched, tracker, session, retry
      ensures Valid() && Reaches(Moves, old(world), world)
      ensures ran == !old(busy || offline)
      ensures ran ==> !busy && world.runner.threads == map[] && (!hasDeferred || offline)
      ensures !ran ==> world.runner.threads == old(world.runner.threads) && hasDeferred
      ensures !ran ==>
        deferred == if old(hasDeferred) && !Outranks(trigger, old(deferred)) then old(deferred) else trigger
    {
      ghost var w := world;
      ReachesItself(Moves, w);
      ran := ClaimOrLatch(th, trigger);
      ReachesNext(Moves, w, w, Action.Request(th, trigger), world);
      if !ran {
        return false, true;
      }
      ghost var w1 := world;
      ok := RunOne(th, trigger, if episodes == [] then NO_EPISODE else episodes[0]);
      ReachesTransitively(Moves, w, w1, world);
      DrainLatch(th, if episodes == [] then [] else episodes[1..], w);
    }

    method DrainLatch(ghost th: nat, episodes: seq<Episode>, ghost w: Engine)
      requires Valid() && busy && th in world.runner.threads && world.runner.threads[th] == Finished
      requires Reaches(Moves, w, world)
      modifies this, sched, tracker, session, retry
      ensures Valid() && Reaches(Moves, w, world)
      ensures !busy && world.runner.threads == map[] && (!hasDeferred || offline)
    {
      var left := episodes;
      while true
        invariant Valid() && busy && th in world.runner.threads && world.runner.threads[th] == Finished
        invariant Reaches(Moves, w, world)
        decreases |left|, hasDeferred
      {
        ghost var w1 := world;
        var released, next := ReleaseOrTake(th);
        ReachesNext(Moves, w, w1, Next(th), world);
        if released {
          return;
        }
        ghost var w2 := world;
        var _ := RunOne(th, next, if left == [] then NO_EPISODE else left[0]);
        ReachesTransitively(Moves, w, w2, world);
        if left != [] {
          left := left[1..];
        }
      }
    }
  }

  lemma ReachableNext(e: Engine, a: Action)
    requires Reachable(e) && Enabled(e, a)
    ensures Reachable(Step(e, a))
  {
    ReachesNext(Moves, Start(e.handlers), e, a, Step(e, a));
    StepKeepsHandlers(e, a);
  }

  lemma StepKeepsHandlers(e: Engine, a: Action)
    requires Enabled(e, a)
    ensures Step(e, a).handlers == e.handlers
  {
  }

  lemma FreshThread(used: set<nat>)
    ensures exists th: nat :: th !in used
  {
    if used != {} {
      var top := Largest(used);
      assert top + 1 !in used;
    } else {
      assert 0 !in used;
    }
  }

  ghost function Largest(s: set<nat>): (m: nat)
    requires s != {}
    ensures m in s && forall x | x in s :: x <= m
  {
    var x :| x in s;
    if s == {x} then x
    else
      var y := Largest(s - {x});
      assert forall z | z in s :: z == x || z in s - {x};
      if x > y then x else y
  }
}
