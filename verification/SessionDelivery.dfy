// Delivery is always within reach (cmd/cpe-sim/main.go, internal/cwmp/runsession.go): from any
// state of the engine, a device that comes online before a willing server delivers all it owes.
module SessionDelivery {
  import opened Events
  import opened EventTrackers
  import opened Options
  import opened Runs
  import opened SessionEngine
  import opened SessionGuarantees
  import opened SessionSafety
  import opened Sessions

  lemma Take(e: Engine, a: Action) returns (f: Engine)
    requires Safe(e) && Enabled(e, a)
    ensures Moves(e, a, f) && Safe(f) && Reaches(Moves, e, f)
    ensures f.handlers == e.handlers && e.history.arrivals <= f.history.arrivals
  {
    hide Safe;
    f := Step(e, a);
    SafeKept(e, a, f);
    ReachesItself(Moves, e);
    ReachesNext(Moves, e, e, a, f);
    ArrivalsAreRecorded(e, a, f);
  }

  /** f comes after e, with nothing struck off what is owed. */
  ghost predicate Later(e: Engine, f: Engine) {
    Safe(f) && Reaches(Moves, e, f) && f.handlers == e.handlers && e.history.arrivals <= f.history.arrivals
  }

  lemma LaterStill(e: Engine, f: Engine, g: Engine)
    requires Later(e, f) && Later(f, g)
    ensures Later(e, g)
  {
    ReachesTransitively(Moves, e, f, g);
  }

  lemma LaterItself(e: Engine)
    requires Safe(e)
    ensures Later(e, e)
  {
    ReachesItself(Moves, e);
  }

  function Rank(p: Phase): nat {
    match p
    case Claimed(_) => 4
    case Ready(_) => 3
    case InSession(_) => 2
    case Failed => 1
    case Finished => 0
  }

  predicate Empty(t: Tracker) {
    t.events == [] && t.transfers == [] && t.duChanges == []
  }

  /** The thread is about to draw everything, or has. */
  predicate Empties(e: Engine, p: Phase) {
    match p
    case Claimed(trigger) => trigger == OnStartup
    case Ready(trigger) => trigger == OnStartup
    case _ => !p.Failed? && Empty(e.tracker)
  }

  /** What the next step of a thread inside is. */
  ghost function Following(e: Engine, th: nat): Action
    requires th in e.runner.threads && !e.runner.threads[th].Finished?
  {
    match e.runner.threads[th]
    case Claimed(_) => Prepare(th)
    case Ready(_) => Begin(th)
    case InSession(d) => End(th, true, Willing(Calls(d.transfers, d.duChanges)))
    case Failed => Arm(th)
  }

  lemma OneStepOn(e: Engine, th: nat, f: Engine)
    requires Safe(e) && th in e.runner.threads && !e.runner.threads[th].Finished? && Moves(e, Following(e, th), f)
    ensures th in f.runner.threads && Rank(f.runner.threads[th]) < Rank(e.runner.threads[th])
    ensures f.runner.offline == e.runner.offline && f.runner.hasDeferred == e.runner.hasDeferred
    ensures Empties(e, e.runner.threads[th]) ==> Empties(f, f.runner.threads[th])
  {
    hide Safe, Ended, Outcome, Willing;
    match e.runner.threads[th] {
      case Claimed(_) =>
      case Ready(trigger) =>
        EmptyDraw(e.tracker, trigger);
      case InSession(_) =>
        WillingEnds(e, th, f);
      case Failed =>
    }
  }

  lemma WillingEnds(e: Engine, th: nat, f: Engine)
    requires Safe(e) && th in e.runner.threads && e.runner.threads[th].InSession? && Moves(e, Following(e, th), f)
    ensures th in f.runner.threads && f.runner.threads[th].Finished? && f.tracker == e.tracker.Acknowledged()
    ensures f.runner.offline == e.runner.offline && f.runner.hasDeferred == e.runner.hasDeferred
  {
    hide Safe, Conversation;
    WillingServerDelivers(e, th, f);
  }

  /** The thread inside finishes. */
  lemma {:induction false} Finish(e: Engine, th: nat) returns (f: Engine)
    requires Safe(e) && th in e.runner.threads
    ensures Later(e, f) && th in f.runner.threads && f.runner.threads[th].Finished?
    ensures f.runner.offline == e.runner.offline && f.runner.hasDeferred == e.runner.hasDeferred
    ensures Empties(e, e.runner.threads[th]) ==> Empty(f.tracker)
    decreases Rank(e.runner.threads[th])
  {
    hide Safe, Moves;
    if e.runner.threads[th].Finished? {
      LaterItself(e);
      f := e;
    } else {
      FollowingIsEnabled(e, th);
      var mid := Take(e, Following(e, th));
      OneStepOn(e, th, mid);
      f := Finish(mid, th);
      LaterStill(e, mid, f);
    }
  }

  lemma FollowingIsEnabled(e: Engine, th: nat)
    requires th in e.runner.threads && !e.runner.threads[th].Finished?
    ensures Enabled(e, Following(e, th))
  {
  }

  ghost predicate Idle(e: Engine) {
    e.runner.threads == map[] && !e.runner.hasDeferred && !e.runner.offline
  }

  /** A finished thread takes what is latched, finishes that too, and releases the device. */
  lemma {:induction false} Release(e: Engine, th: nat) returns (f: Engine)
    requires Safe(e) && th in e.runner.threads && e.runner.threads[th].Finished? && !e.runner.offline
    ensures Later(e, f) && Idle(f)
    ensures !e.runner.hasDeferred && Empty(e.tracker) ==> Empty(f.tracker)
    decreases e.runner.hasDeferred
  {
    hide Safe;
    var mid := Take(e, Next(th));
    if e.runner.hasDeferred {
      var done := Finish(mid, th);
      f := Release(done, th);
      LaterStill(e, mid, done);
      LaterStill(e, done, f);
    } else {
      SafeIsAlone(e, th);
      f := mid;
    }
  }

  lemma SafeIsFree(e: Engine)
    requires Safe(e) && e.runner.threads == map[]
    ensures !e.runner.busy
  {
    assert e.runner.threads.Keys == {};
  }

  /** A free device starts a session. */
  lemma Claim(e: Engine) returns (f: Engine)
    requires Safe(e) && e.runner.threads == map[] && !e.runner.offline
    ensures Later(e, f) && f.runner.threads == map[0 := Claimed(OnStartup)]
    ensures !f.runner.offline && f.runner.hasDeferred == e.runner.hasDeferred
  {
    hide Safe;
    SafeIsFree(e);
    f := Take(e, Request(0, OnStartup));
  }

  lemma BecomeIdle(e: Engine) returns (f: Engine)
    requires Safe(e)
    ensures Later(e, f) && Idle(f)
  {
    hide Safe;
    var online := Take(e, GoOnline);
    var busy, th := online, 0;
    if online.runner.threads == map[] {
      busy := Claim(online);
    } else {
      assert online.runner.threads.Keys != {};
      th :| th in online.runner.threads;
      LaterItself(online);
    }
    var done := Finish(busy, th);
    f := Release(done, th);
    LaterStill(e, online, busy);
    LaterStill(e, busy, done);
    LaterStill(e, done, f);
  }

  /** The device is idle, every arrival has been delivered, and so has every record. */
  ghost predicate AllDelivered(f: Engine) {
    && Idle(f) && (forall x :: x in f.history.arrivals ==> Delivered(f, x))
    && f.history.transfersQueued == TransfersIn(f.history.acks) && f.history.duQueued == DUChangesIn(f.history.acks)
  }

  lemma IdleAndEmptyIsDelivered(e: Engine, f: Engine)
    requires Reachable(e) && Later(e, f) && Idle(f) && Empty(f.tracker)
    ensures AllDelivered(f)
  {
    hide Safe, Moves, Delivered;
    ReachesTransitively(Moves, Start(e.handlers), e, f);
    SafeIsFree(f);
    IdleMeansDelivered(f);
    RecordsAreConserved(f);
    NobodyInSession(f);
  }

  /** From every reachable state some run leads to one in which all that is owed, then and
      now, has been delivered. */
  lemma DeliveryIsWithinReach(e: Engine)
    requires Reachable(e)
    ensures exists f :: Reaches(Moves, e, f) && e.history.arrivals <= f.history.arrivals && AllDelivered(f)
  {
    hide Safe, Moves, AllDelivered, Reachable, Idle;
    SafeAlways(e);
    var idle := BecomeIdle(e);
    IdleIsFree(idle);
    var claimed := Claim(idle);
    var done := Finish(claimed, 0);
    var f := Release(done, 0);
    LaterStill(e, idle, claimed);
    LaterStill(e, claimed, done);
    LaterStill(e, done, f);
    IdleAndEmptyIsDelivered(e, f);
  }

  lemma IdleIsFree(e: Engine)
    requires Idle(e)
    ensures e.runner.threads == map[] && !e.runner.hasDeferred && !e.runner.offline
  {
  }

  lemma NobodyInSession(e: Engine)
    requires e.runner.threads == map[]
    ensures NoneInSession(e)
  {
  }
}
