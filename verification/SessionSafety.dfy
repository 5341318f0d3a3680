// What every step of the session engine keeps. Each invariant has one lemma saying
// that a step preserves it; SessionGuarantees.dfy draws the conclusions.
module SessionSafety {
  import opened Events
  import opened Runs
  import opened EventTrackers
  import opened Options
  import opened Sessions
  import opened SessionEngine

  // ---------- One session at a time ----------

  /** At most one thread is inside runOne, and busy says whether one is. */
  ghost predicate Exclusive(e: Engine) {
    && (e.runner.busy <==> e.runner.threads.Keys != {})
    && forall a, b :: a in e.runner.threads && b in e.runner.threads ==> a == b
  }

  lemma ExclusiveKept(e: Engine, a: Action, f: Engine)
    requires Moves(e, a, f) && Exclusive(e)
    ensures Exclusive(f)
  {
    match a {
      case Request(th, trigger) =>
        if !e.runner.busy && !e.runner.offline {
          assert th in f.runner.threads.Keys;
        }
      case Next(th) =>
        assert e.runner.threads.Keys == {th};
        assert th in f.runner.threads.Keys || f.runner.threads.Keys == {};
      case _ =>
        assert f.runner.threads.Keys == e.runner.threads.Keys;
    }
  }

  // ---------- One retry timer ----------

  /** The runner's slot names the one armed timer, and it is empty from the moment a
      session is prepared until its failure is accounted for. */
  ghost predicate OneTimer(e: Engine) {
    && e.runner.armed == (if e.runner.cancelRetry.Some? then {e.runner.cancelRetry.value} else {})
    && forall th | th in e.runner.threads ::
      e.runner.threads[th].Ready? || e.runner.threads[th].InSession? || e.runner.threads[th].Failed? ==>
        e.runner.cancelRetry.None?
  }

  lemma OneTimerKept(e: Engine, a: Action, f: Engine)
    requires Moves(e, a, f) && Exclusive(e) && OneTimer(e)
    ensures OneTimer(f)
  {
  }

  // ---------- The latch ----------

  /** x is the earliest of the highest-ranked triggers in s. */
  ghost predicate Best(s: seq<Trigger>, x: Trigger) {
    exists i | 0 <= i < |s| :: IsBestAt(s, x, i)
  }

  ghost predicate IsBestAt(s: seq<Trigger>, x: Trigger, i: nat)
    requires i < |s|
  {
    && s[i] == x
    && (forall j | 0 <= j < i :: Priority(s[j]) < Priority(x))
    && (forall j | i < j < |s| :: Priority(s[j]) <= Priority(x))
  }

  /** Which trigger displaces which in the latch: a startup any other, a connection request
      all but a startup, and so on down to a tick; the two others displace none. */
  ghost predicate Outranks(x: Trigger, y: Trigger) {
    match x
    case OnStartup => y != OnStartup
    case OnConnectionRequest => y !in {OnStartup, OnConnectionRequest}
    case OnTransferComplete => y !in {OnStartup, OnConnectionRequest, OnTransferComplete}
    case OnRetry => y in {OnPeriodic, OnValueChange, OnDUStateChangeComplete}
    case OnPeriodic => y in {OnValueChange, OnDUStateChangeComplete}
    case _ => false
  }

  /** The latch and the event queue after a request that found the device busy or offline. */
  lemma LatchesTheBetter(e: Engine, th: nat, trigger: Trigger, f: Engine)
    requires Moves(e, Request(th, trigger), f) && (e.runner.busy || e.runner.offline)
    ensures var full, held := e.runner.hasDeferred, e.runner.deferred;
      && f.runner.hasDeferred
      && f.runner.deferred == (if full && !Outranks(trigger, held) then held else trigger)
      && f.tracker.events == e.tracker.events +
         (if full && (if Outranks(trigger, held) then held else trigger) == OnPeriodic
          then [Event(Periodic, "")] else [])
  {
    assert Outranks(trigger, e.runner.deferred) <==> Priority(trigger) > Priority(e.runner.deferred);
  }

  ghost predicate LatchHoldsBest(e: Engine) {
    && (e.runner.hasDeferred <==> e.history.latched != [])
    && (e.runner.hasDeferred ==> Best(e.history.latched, e.runner.deferred))
  }

  lemma BestExtends(s: seq<Trigger>, x: Trigger, t: Trigger)
    requires s != [] ==> Best(s, x)
    ensures Best(s + [t], if s == [] || Priority(t) > Priority(x) then t else x)
  {
    if s == [] || Priority(t) > Priority(x) {
      if s != [] {
        var i :| 0 <= i < |s| && IsBestAt(s, x, i);
        forall j | 0 <= j < |s|
          ensures Priority(s[j]) <= Priority(x)
        {
          assert j < i || j == i || i < j;
        }
      }
      assert IsBestAt(s + [t], t, |s|);
    } else {
      var i :| 0 <= i < |s| && IsBestAt(s, x, i);
      assert IsBestAt(s + [t], x, i);
    }
  }

  lemma LatchHoldsBestKept(e: Engine, a: Action, f: Engine)
    requires Moves(e, a, f) && LatchHoldsBest(e)
    ensures LatchHoldsBest(f)
  {
    if a.Request? && (e.runner.busy || e.runner.offline) {
      BestExtends(e.history.latched, e.runner.deferred, a.trigger);
    }
  }

  // ---------- The queue and the drawn arrays ----------

  /** The queue holds only events a failed session may put back. */
  ghost predicate QueuePersists(e: Engine) {
    AllPersist(e.tracker.events)
  }

  lemma QueuePersistsKept(e: Engine, a: Action, f: Engine)
    requires Moves(e, a, f) && QueuePersists(e)
    ensures QueuePersists(f)
  {
    if a.End? {
      PersistingFacts(e.runner.threads[a.thread].draw.events);
    }
  }

  /** What the array of a begun session always looks like. */
  ghost predicate WellDrawn(d: Draw) {
    && d.events != []
    && Distinct(d.events)
    && (d.transfers != [] ==> Unkeyed(TransferComplete) in d.events)
    && (d.trigger != OnRetry ==> d.events[0] == Primary(d.trigger)[0])
  }

  ghost predicate DrawsOk(e: Engine) {
    && (forall th | th in e.runner.threads && e.runner.threads[th].InSession? ::
      WellDrawn(e.runner.threads[th].draw) && e.runner.threads[th].draw.at < e.history.clock)
    && (forall k | 0 <= k < |e.history.acks| ::
      WellDrawn(e.history.acks[k].draw) && e.history.acks[k].draw.at < e.history.clock)
  }

  lemma BegunIsWellDrawn(e: Engine, th: nat)
    requires Enabled(e, Begin(th)) && QueuePersists(e)
    requires Begun(e, th, e.runner.threads[th].trigger).runner.threads[th].InSession?
    ensures WellDrawn(Begun(e, th, e.runner.threads[th].trigger).runner.threads[th].draw)
  {
    var trigger := e.runner.threads[th].trigger;
    AnnouncedSet(e.tracker, trigger);
    if trigger != OnRetry {
      PrimaryLeads(e.tracker, trigger);
    }
  }

  lemma DrawsOkKept(e: Engine, a: Action, f: Engine)
    requires Moves(e, a, f) && QueuePersists(e) && DrawsOk(e)
    ensures DrawsOk(f)
  {
    if a.Begin? && Begun(e, a.thread, e.runner.threads[a.thread].trigger).runner.threads[a.thread].InSession? {
      BegunIsWellDrawn(e, a.thread);
    }
    forall th | th in f.runner.threads && f.runner.threads[th].InSession?
      ensures WellDrawn(f.runner.threads[th].draw) && f.runner.threads[th].draw.at < f.history.clock
    {
      assert (a.Begin? && th == a.thread) || (th in e.runner.threads && f.runner.threads[th] == e.runner.threads[th]);
    }
    forall k | 0 <= k < |f.history.acks|
      ensures WellDrawn(f.history.acks[k].draw) && f.history.acks[k].draw.at < f.history.clock
    {
      if k == |e.history.acks| {
        assert f.history.acks[k].draw == e.runner.threads[a.thread].draw;
      } else {
        assert f.history.acks[k] == e.history.acks[k];
      }
    }
  }

  // ---------- BOOTSTRAP ----------

  ghost predicate CarriesBootstrapSince(d: Draw, t: nat) {
    d.at > t && Unkeyed(Bootstrap) in d.events
  }

  /** The latch is set only when a session that drew after the last reset delivered
      BOOTSTRAP; a pending announcement in flight was drawn after the last reset. */
  ghost predicate BootstrapOk(e: Engine) {
    && e.history.lastReset < e.history.clock
    && !(e.tracker.bootstrapDone && e.tracker.bootstrapPending)
    && (e.tracker.bootstrapDone ==>
      exists k | 0 <= k < |e.history.acks| :: CarriesBootstrapSince(e.history.acks[k].draw, e.history.lastReset))
    && (e.tracker.bootstrapPending ==>
      forall th | th in e.runner.threads && e.runner.threads[th].InSession? ::
        CarriesBootstrapSince(e.runner.threads[th].draw, e.history.lastReset))
  }

  lemma BootstrapOkEnded(e: Engine, a: Action, f: Engine)
    requires Moves(e, a, f) && a.End? && Exclusive(e) && BootstrapOk(e)
    ensures BootstrapOk(f)
  {
    var acks := f.history.acks;
    if e.tracker.bootstrapDone {
      var k :| 0 <= k < |e.history.acks| && CarriesBootstrapSince(e.history.acks[k].draw, e.history.lastReset);
      assert CarriesBootstrapSince(acks[k].draw, f.history.lastReset);
    } else if f.tracker.bootstrapDone {
      assert CarriesBootstrapSince(acks[|acks| - 1].draw, f.history.lastReset);
    }
  }

  lemma BootstrapOkBegun(e: Engine, a: Action, f: Engine)
    requires Moves(e, a, f) && a.Begin? && Exclusive(e) && QueuePersists(e) && BootstrapOk(e)
    ensures BootstrapOk(f)
  {
    BootstrapAnnounced(e.tracker, e.runner.threads[a.thread].trigger);
    EmptyDraw(e.tracker, e.runner.threads[a.thread].trigger);
  }

  lemma BootstrapOkKept(e: Engine, a: Action, f: Engine)
    requires Moves(e, a, f) && Exclusive(e) && QueuePersists(e) && DrawsOk(e) && BootstrapOk(e)
    ensures BootstrapOk(f)
  {
    if a.End? {
      BootstrapOkEnded(e, a, f);
    } else if a.Begin? {
      BootstrapOkBegun(e, a, f);
    }
  }

  // ---------- Events are never lost ----------

  ghost predicate Carries(d: Draw, x: Arrival) {
    d.at >= x.at && x.event in d.events
  }

  ghost predicate InFlight(e: Engine, x: Arrival) {
    exists th :: th in e.runner.threads && e.runner.threads[th].InSession? && Carries(e.runner.threads[th].draw, x)
  }

  ghost predicate Delivered(e: Engine, x: Arrival) {
    exists k | 0 <= k < |e.history.acks| :: Carries(e.history.acks[k].draw, x)
  }

  predicate AboutToTick(p: Phase) {
    p == Claimed(OnPeriodic) || p == Ready(OnPeriodic)
  }

  /** A tick still waiting to be announced: in the latch, or claimed and about to draw. */
  ghost predicate Latched(e: Engine, x: Arrival) {
    x.tick && (
      || (e.runner.hasDeferred && e.runner.deferred == OnPeriodic)
      || exists th :: th in e.runner.threads && AboutToTick(e.runner.threads[th]))
  }

  ghost predicate Kept(e: Engine, x: Arrival) {
    || x.event in e.tracker.events
    || InFlight(e, x)
    || Latched(e, x)
    || Delivered(e, x)
  }

  ghost predicate ArrivalOk(x: Arrival, clock: nat) {
    x.at < clock && Persists(x.event.code) && (x.tick ==> x.event == Unkeyed(Periodic))
  }

  ghost predicate Conserved(e: Engine) {
    forall i | 0 <= i < |e.history.arrivals| ::
      ArrivalOk(e.history.arrivals[i], e.history.clock) && Kept(e, e.history.arrivals[i])
  }

  lemma DeliveredStays(e: Engine, a: Action, f: Engine, x: Arrival)
    requires Moves(e, a, f) && Delivered(e, x)
    ensures Delivered(f, x)
  {
    var k :| 0 <= k < |e.history.acks| && Carries(e.history.acks[k].draw, x);
    assert e.history.acks <= f.history.acks;
    assert Carries(f.history.acks[k].draw, x);
  }

  /** Beginning a session moves the queue, and a claimed tick, into its array. */
  lemma KeptWhenBegun(e: Engine, a: Action, f: Engine, x: Arrival)
    requires Moves(e, a, f) && a.Begin? && Exclusive(e) && QueuePersists(e)
    requires ArrivalOk(x, e.history.clock) && Kept(e, x)
    ensures Kept(f, x)
  {
    var trigger := e.runner.threads[a.thread].trigger;
    AnnouncedSet(e.tracker, trigger);
    EmptyDraw(e.tracker, trigger);
    if x.event in e.tracker.events || (x.tick && trigger == OnPeriodic) {
      assert x.event in e.tracker.Announced(trigger);
      assert Carries(f.runner.threads[a.thread].draw, x);
      assert InFlight(f, x);
    } else if Delivered(e, x) {
      DeliveredStays(e, a, f, x);
    }
  }

  /** Ending a session delivers its array or puts it back. */
  lemma KeptWhenEnded(e: Engine, a: Action, f: Engine, x: Arrival)
    requires Moves(e, a, f) && a.End? && Exclusive(e)
    requires ArrivalOk(x, e.history.clock) && Kept(e, x)
    ensures Kept(f, x)
  {
    if InFlight(e, x) {
      var d := e.runner.threads[a.thread].draw;
      assert Carries(d, x);
      PersistingFacts(d.events);
      if f.runner.threads[a.thread].Finished? {
        assert f.history.acks[|e.history.acks|].draw == d;
        assert Delivered(f, x);
      }
    } else if Delivered(e, x) {
      DeliveredStays(e, a, f, x);
    }
  }

  /** A request either claims, or competes for the latch without losing a tick. */
  lemma KeptWhenRequested(e: Engine, a: Action, f: Engine, x: Arrival)
    requires Moves(e, a, f) && a.Request? && Exclusive(e)
    requires ArrivalOk(x, e.history.clock) && Kept(e, x)
    ensures Kept(f, x)
  {
    assert e.tracker.events <= f.tracker.events;
    assert forall th | th in e.runner.threads :: th in f.runner.threads && f.runner.threads[th] == e.runner.threads[th];
    if Delivered(e, x) {
      DeliveredStays(e, a, f, x);
    }
  }

  lemma KeptOtherwise(e: Engine, a: Action, f: Engine, x: Arrival)
    requires Moves(e, a, f) && !a.Begin? && !a.End? && !a.Request? && Exclusive(e)
    requires ArrivalOk(x, e.history.clock) && Kept(e, x)
    ensures Kept(f, x)
  {
    assert e.tracker.events <= f.tracker.events;
    if InFlight(e, x) {
      var th :| th in e.runner.threads && e.runner.threads[th].InSession? && Carries(e.runner.threads[th].draw, x);
      assert f.runner.threads[th] == e.runner.threads[th];
    } else if Delivered(e, x) {
      DeliveredStays(e, a, f, x);
    } else if Latched(e, x) && !(e.runner.hasDeferred && e.runner.deferred == OnPeriodic) {
      var th :| th in e.runner.threads && AboutToTick(e.runner.threads[th]);
      assert f.runner.threads[th] == Claimed(OnPeriodic) || f.runner.threads[th] == Ready(OnPeriodic);
    } else if a.Next? && Latched(e, x) && !e.runner.offline {
      assert f.runner.threads[a.thread] == Claimed(OnPeriodic);
    }
  }

  lemma KeptOn(e: Engine, a: Action, f: Engine, x: Arrival)
    requires Moves(e, a, f) && Exclusive(e) && QueuePersists(e)
    requires ArrivalOk(x, e.history.clock) && Kept(e, x)
    ensures Kept(f, x)
  {
    match a {
      case Begin(_) => KeptWhenBegun(e, a, f, x);
      case End(_, _, _) => KeptWhenEnded(e, a, f, x);
      case Request(_, _) => KeptWhenRequested(e, a, f, x);
      case _ => KeptOtherwise(e, a, f, x);
    }
  }

  /** The arrival a step itself adds, if any, is kept from the start. */
  lemma NewArrivalKept(e: Engine, a: Action, f: Engine)
    requires Moves(e, a, f) && QueuePersists(e)
    ensures e.history.arrivals <= f.history.arrivals
    ensures forall i | |e.history.arrivals| <= i < |f.history.arrivals| ::
      ArrivalOk(f.history.arrivals[i], f.history.clock) && Kept(f, f.history.arrivals[i])
  {
    match a {
      case Begin(th) =>
        var trigger := e.runner.threads[th].trigger;
        if trigger != OnRetry {
          PrimaryLeads(e.tracker, trigger);
          assert f.runner.threads[th].InSession?;
          assert forall x :: x in Owed(e.history.clock, trigger) ==> Carries(f.runner.threads[th].draw, x);
        }
      case Request(th, trigger) =>
        if !(e.runner.busy || e.runner.offline) {
          assert f.runner.threads[th] == Claimed(trigger);
        }
      case QueueMethod(name, key) =>
        assert f.tracker.events[|e.tracker.events|] == Event(Method(name), key);
      case _ =>
    }
  }

  lemma ConservedKept(e: Engine, a: Action, f: Engine)
    requires Moves(e, a, f) && Exclusive(e) && QueuePersists(e) && Conserved(e)
    ensures Conserved(f)
  {
    NewArrivalKept(e, a, f);
    forall i | 0 <= i < |e.history.arrivals|
      ensures Kept(f, f.history.arrivals[i])
    {
      KeptOn(e, a, f, e.history.arrivals[i]);
    }
  }

  // ---------- Records are conserved as multisets ----------

  function TransfersIn(acks: seq<Ack>): multiset<TransferRecord> {
    if acks == [] then multiset{}
    else TransfersIn(acks[..|acks| - 1]) + multiset(acks[|acks| - 1].draw.transfers)
  }

  function DUChangesIn(acks: seq<Ack>): multiset<DURecord> {
    if acks == [] then multiset{}
    else DUChangesIn(acks[..|acks| - 1]) + multiset(acks[|acks| - 1].draw.duChanges)
  }

  ghost predicate NoneInSession(e: Engine) {
    forall th | th in e.runner.threads :: !e.runner.threads[th].InSession?
  }

  /** Every transfer record ever queued is pending, in flight, or was in a session
      that ended well; counted with multiplicity. */
  ghost predicate TransfersConserved(e: Engine) {
    var settled := multiset(e.tracker.transfers) + TransfersIn(e.history.acks);
    && (NoneInSession(e) ==> e.history.transfersQueued == settled)
    && (forall th | th in e.runner.threads && e.runner.threads[th].InSession? ::
      e.history.transfersQueued == settled + multiset(e.runner.threads[th].draw.transfers))
  }

  ghost predicate DUChangesConserved(e: Engine) {
    var settled := multiset(e.tracker.duChanges) + DUChangesIn(e.history.acks);
    && (NoneInSession(e) ==> e.history.duQueued == settled)
    && (forall th | th in e.runner.threads && e.runner.threads[th].InSession? ::
      e.history.duQueued == settled + multiset(e.runner.threads[th].draw.duChanges))
  }

  /** The session an ack records made each of its calls once, in order. */
  ghost predicate AckOk(handlers: set<string>, ack: Ack) {
    var d := ack.draw;
    && Clean(handlers, d.events, d.retryCount, Calls(d.transfers, d.duChanges), ack.log)
    && CallsIn(ack.log) == Calls(d.transfers, d.duChanges)
  }

  ghost predicate AcksOk(e: Engine) {
    forall k | 0 <= k < |e.history.acks| :: AckOk(e.handlers, e.history.acks[k])
  }

  /** The begun session holds what was pending; nothing was in flight before it. */
  lemma RecordsWhenBegun(e: Engine, th: nat)
    requires Enabled(e, Begin(th)) && Exclusive(e)
    ensures NoneInSession(e)
    ensures var f := Begun(e, th, e.runner.threads[th].trigger);
      if f.runner.threads[th].InSession? then
        && f.runner.threads[th].draw.transfers == e.tracker.transfers
        && f.runner.threads[th].draw.duChanges == e.tracker.duChanges
        && f.tracker.transfers == [] && f.tracker.duChanges == []
      else NoneInSession(f) && f.tracker == e.tracker
  {
  }

  /** The ended session's records are delivered or pending again. */
  lemma RecordsWhenEnded(e: Engine, a: Action, f: Engine)
    requires Moves(e, a, f) && a.End? && Exclusive(e)
    ensures NoneInSession(f)
    ensures var d := e.runner.threads[a.thread].draw;
      || (f.tracker.transfers == e.tracker.transfers && f.tracker.duChanges == e.tracker.duChanges
          && |f.history.acks| == |e.history.acks| + 1
          && f.history.acks[..|f.history.acks| - 1] == e.history.acks && f.history.acks[|e.history.acks|].draw == d)
      || (f.tracker.transfers == e.tracker.transfers + d.transfers
          && f.tracker.duChanges == e.tracker.duChanges + d.duChanges
          && f.history.acks == e.history.acks)
  {
  }

  lemma SessionsElsewhere(e: Engine, a: Action, f: Engine)
    requires Moves(e, a, f) && !a.Begin? && !a.End?
    ensures forall th :: th in f.runner.threads && f.runner.threads[th].InSession? <==>
      th in e.runner.threads && e.runner.threads[th].InSession?
    ensures forall th | th in e.runner.threads && e.runner.threads[th].InSession? ::
      f.runner.threads[th] == e.runner.threads[th]
    ensures NoneInSession(f) <==> NoneInSession(e)
    ensures f.history.acks == e.history.acks
  {
    assert forall th :: th in f.runner.threads && f.runner.threads[th].InSession? <==>
      th in e.runner.threads && e.runner.threads[th].InSession?;
  }

  /** Outside sessions, records only arrive. */
  lemma RecordsElsewhere(e: Engine, a: Action, f: Engine)
    requires Moves(e, a, f) && !a.Begin? && !a.End?
    ensures var news := if a.QueueTransfer? then multiset{a.transfer} else multiset{};
      && multiset(f.tracker.transfers) == multiset(e.tracker.transfers) + news
      && f.history.transfersQueued == e.history.transfersQueued + news
    ensures var news := if a.QueueDU? then multiset{a.change} else multiset{};
      && multiset(f.tracker.duChanges) == multiset(e.tracker.duChanges) + news
      && f.history.duQueued == e.history.duQueued + news
  {
    hide Begun, Ended, Outcome;
    if a.QueueTransfer? {
      assert f.tracker.transfers == e.tracker.transfers + [a.transfer];
    } else {
      assert f.tracker.transfers == e.tracker.transfers;
    }
    if a.QueueDU? {
      assert f.tracker.duChanges == e.tracker.duChanges + [a.change];
    } else {
      assert f.tracker.duChanges == e.tracker.duChanges;
    }
  }

  lemma TransfersConservedWhenEnded(e: Engine, a: Action, f: Engine)
    requires Moves(e, a, f) && a.End? && Exclusive(e) && TransfersConserved(e)
    ensures TransfersConserved(f)
  {
    var d := e.runner.threads[a.thread].draw;
    RecordsWhenEnded(e, a, f);
    assert multiset(e.tracker.transfers + d.transfers) == multiset(e.tracker.transfers) + multiset(d.transfers);
    assert f.history.transfersQueued == e.history.transfersQueued;
    if |f.history.acks| > |e.history.acks| {
      assert TransfersIn(f.history.acks) == TransfersIn(e.history.acks) + multiset(d.transfers);
    }
  }

  lemma TransfersConservedOtherwise(e: Engine, a: Action, f: Engine)
    requires Moves(e, a, f) && !a.Begin? && !a.End? && TransfersConserved(e)
    ensures TransfersConserved(f)
  {
    hide Moves;
    SessionsElsewhere(e, a, f);
    RecordsElsewhere(e, a, f);
  }

  lemma TransfersConservedKept(e: Engine, a: Action, f: Engine)
    requires Moves(e, a, f) && Exclusive(e) && TransfersConserved(e)
    ensures TransfersConserved(f)
  {
    if a.Begin? {
      RecordsWhenBegun(e, a.thread);
    } else if a.End? {
      TransfersConservedWhenEnded(e, a, f);
    } else {
      TransfersConservedOtherwise(e, a, f);
    }
  }

  lemma DUChangesConservedWhenEnded(e: Engine, a: Action, f: Engine)
    requires Moves(e, a, f) && a.End? && Exclusive(e) && DUChangesConserved(e)
    ensures DUChangesConserved(f)
  {
    var d := e.runner.threads[a.thread].draw;
    RecordsWhenEnded(e, a, f);
    assert multiset(e.tracker.duChanges + d.duChanges) == multiset(e.tracker.duChanges) + multiset(d.duChanges);
    assert f.history.duQueued == e.history.duQueued;
    if |f.history.acks| > |e.history.acks| {
      assert DUChangesIn(f.history.acks) == DUChangesIn(e.history.acks) + multiset(d.duChanges);
    }
  }

  lemma DUChangesConservedOtherwise(e: Engine, a: Action, f: Engine)
    requires Moves(e, a, f) && !a.Begin? && !a.End? && DUChangesConserved(e)
    ensures DUChangesConserved(f)
  {
    hide Moves;
    SessionsElsewhere(e, a, f);
    RecordsElsewhere(e, a, f);
  }

  lemma DUChangesConservedKept(e: Engine, a: Action, f: Engine)
    requires Moves(e, a, f) && Exclusive(e) && DUChangesConserved(e)
    ensures DUChangesConserved(f)
  {
    if a.Begin? {
      RecordsWhenBegun(e, a.thread);
    } else if a.End? {
      DUChangesConservedWhenEnded(e, a, f);
    } else {
      DUChangesConservedOtherwise(e, a, f);
    }
  }

  lemma AcksOkKept(e: Engine, a: Action, f: Engine)
    requires Moves(e, a, f) && AcksOk(e)
    ensures AcksOk(f)
  {
    if a.End? && a.built {
      var d := e.runner.threads[a.thread].draw;
      var rpcs := Calls(d.transfers, d.duChanges);
      if Conversation(e.handlers, d.events, d.retryCount, rpcs, a.acs).ok {
        SuccessIsClean(e.handlers, d.events, d.retryCount, rpcs, a.acs);
        CallsMade(e.handlers, d.events, d.retryCount, rpcs, a.acs);
      }
    }
  }

  // ---------- The retry count ----------

  function Streak(s: seq<Account>): nat {
    if s == [] || !s[|s| - 1].FailedCall? then 0 else 1 + Streak(s[..|s| - 1])
  }

  function FailedCalls(s: seq<Account>): nat {
    if s == [] then 0 else FailedCalls(s[..|s| - 1]) + if s[|s| - 1].FailedCall? then 1 else 0
  }

  /** The count a session stamped is the streak of failed calls accounted for when it
      began, and no failed call was still unaccounted for then. */
  ghost predicate Stamped(d: Draw, accounts: seq<Account>) {
    && d.stamp <= |accounts|
    && d.retryCount == Streak(accounts[..d.stamp])
    && d.failures == FailedCalls(accounts[..d.stamp])
  }

  /** The tally, in terms of the parts it depends on. */
  ghost predicate TallyOk(threads: map<nat, Phase>, retry: nat, accounts: seq<Account>, failures: nat) {
    && retry == Streak(accounts)
    && ((forall th | th in threads :: !threads[th].Failed?) ==> failures == FailedCalls(accounts))
    && (forall th | th in threads && threads[th].Failed? :: failures == FailedCalls(accounts) + 1)
  }

  ghost predicate Tallied(e: Engine) {
    TallyOk(e.runner.threads, e.retry, e.history.accounts, e.history.failures)
  }

  ghost predicate AllStamped(e: Engine) {
    && (forall th | th in e.runner.threads && e.runner.threads[th].InSession? ::
      Stamped(e.runner.threads[th].draw, e.history.accounts))
    && (forall k | 0 <= k < |e.history.acks| :: Stamped(e.history.acks[k].draw, e.history.accounts))
  }

  lemma StampedStays(d: Draw, s: seq<Account>, t: seq<Account>)
    requires Stamped(d, s) && s <= t
    ensures Stamped(d, t)
  {
    assert t[..d.stamp] == s[..d.stamp];
  }

  lemma AllStampedKept(e: Engine, a: Action, f: Engine)
    requires Moves(e, a, f) && Exclusive(e) && Tallied(e) && AllStamped(e)
    ensures AllStamped(f)
  {
    var s, t := e.history.accounts, f.history.accounts;
    assert s <= t;
    forall th | th in f.runner.threads && f.runner.threads[th].InSession?
      ensures Stamped(f.runner.threads[th].draw, t)
    {
      if a.Begin? && th == a.thread {
        assert e.runner.threads[th].Ready? && t[..|s|] == s;
        OneThread(e, th);
        assert e.history.failures == FailedCalls(s);
      } else {
        StampedStays(e.runner.threads[th].draw, s, t);
      }
    }
    forall k | 0 <= k < |f.history.acks|
      ensures Stamped(f.history.acks[k].draw, t)
    {
      if k == |e.history.acks| {
        StampedStays(e.runner.threads[a.thread].draw, s, t);
      } else {
        StampedStays(e.history.acks[k].draw, s, t);
      }
    }
  }

  lemma Appended(s: seq<Account>, x: Account)
    ensures Streak(s + [x]) == if x.FailedCall? then Streak(s) + 1 else 0
    ensures FailedCalls(s + [x]) == FailedCalls(s) + if x.FailedCall? then 1 else 0
  {
    assert (s + [x])[..|s|] == s;
  }

  lemma OneThread(e: Engine, th: nat)
    requires Exclusive(e) && th in e.runner.threads
    ensures e.runner.threads == map[th := e.runner.threads[th]]
  {
    assert forall x :: x in e.runner.threads ==> x == th;
  }

  lemma LoneTally(th: nat, phase: Phase, retry: nat, accounts: seq<Account>, failures: nat)
    ensures TallyOk(map[th := phase], retry, accounts, failures) <==>
      retry == Streak(accounts) && failures == FailedCalls(accounts) + if phase.Failed? then 1 else 0
  {
    var threads := map[th := phase];
    assert th in threads && threads[th] == phase;
  }

  lemma TalliedWhenBegun(e: Engine, a: Action, f: Engine)
    requires Moves(e, a, f) && a.Begin? && Exclusive(e) && Tallied(e)
    ensures Tallied(f)
  {
    OneThread(e, a.thread);
    assert f.runner.threads == map[a.thread := f.runner.threads[a.thread]];
    LoneTally(a.thread, e.runner.threads[a.thread], e.retry, e.history.accounts, e.history.failures);
    LoneTally(a.thread, f.runner.threads[a.thread], f.retry, f.history.accounts, f.history.failures);
  }

  lemma TalliedWhenEnded(e: Engine, a: Action, f: Engine)
    requires Moves(e, a, f) && a.End? && Exclusive(e) && Tallied(e)
    ensures Tallied(f)
  {
    OneThread(e, a.thread);
    assert f.runner.threads == map[a.thread := f.runner.threads[a.thread]];
    LoneTally(a.thread, e.runner.threads[a.thread], e.retry, e.history.accounts, e.history.failures);
    LoneTally(a.thread, f.runner.threads[a.thread], f.retry, f.history.accounts, f.history.failures);
    Appended(e.history.accounts, CleanCall);
  }

  lemma TalliedWhenArmed(e: Engine, a: Action, f: Engine)
    requires Moves(e, a, f) && a.Arm? && Exclusive(e) && Tallied(e)
    ensures Tallied(f)
  {
    OneThread(e, a.thread);
    assert f.runner.threads == map[a.thread := f.runner.threads[a.thread]];
    LoneTally(a.thread, e.runner.threads[a.thread], e.retry, e.history.accounts, e.history.failures);
    LoneTally(a.thread, f.runner.threads[a.thread], f.retry, f.history.accounts, f.history.failures);
    Appended(e.history.accounts, FailedCall);
  }

  lemma TalliedOtherwise(e: Engine, a: Action, f: Engine)
    requires Moves(e, a, f) && !a.Begin? && !a.End? && !a.Arm? && Exclusive(e) && Tallied(e)
    ensures Tallied(f)
  {
    Appended(e.history.accounts, Reboot);
    assert f.history.failures == e.history.failures;
    assert f.history.accounts == e.history.accounts || f.history.accounts == e.history.accounts + [Reboot];
    forall th | th in f.runner.threads && f.runner.threads[th].Failed?
      ensures th in e.runner.threads && e.runner.threads[th].Failed?
    {
    }
    forall th | th in e.runner.threads && e.runner.threads[th].Failed?
      ensures th in f.runner.threads && f.runner.threads[th].Failed?
    {
    }
  }

  lemma TalliedKept(e: Engine, a: Action, f: Engine)
    requires Moves(e, a, f) && Exclusive(e) && Tallied(e)
    ensures Tallied(f)
  {
    match a {
      case Begin(_) => TalliedWhenBegun(e, a, f);
      case End(_, _, _) => TalliedWhenEnded(e, a, f);
      case Arm(_) => TalliedWhenArmed(e, a, f);
      case _ => TalliedOtherwise(e, a, f);
    }
  }

  // ---------- All of it, over whole runs ----------

  ghost predicate Safe(e: Engine) {
    && Exclusive(e)
    && OneTimer(e)
    && LatchHoldsBest(e)
    && QueuePersists(e)
    && DrawsOk(e)
    && BootstrapOk(e)
    && Conserved(e)
    && TransfersConserved(e)
    && DUChangesConserved(e)
    && AcksOk(e)
    && Tallied(e)
    && AllStamped(e)
  }

  lemma SafeIsAlone(e: Engine, th: nat)
    requires Safe(e) && th in e.runner.threads
    ensures e.runner.busy && e.runner.threads.Keys == {th} && e.runner.threads - {th} == map[]
  {
  }

  lemma SafeAtStart(handlers: set<string>)
    ensures Safe(Start(handlers))
  {
  }

  lemma SafeKept(e: Engine, a: Action, f: Engine)
    requires Moves(e, a, f) && Safe(e)
    ensures Safe(f)
  {
    ExclusiveKept(e, a, f);
    OneTimerKept(e, a, f);
    LatchHoldsBestKept(e, a, f);
    QueuePersistsKept(e, a, f);
    DrawsOkKept(e, a, f);
    BootstrapOkKept(e, a, f);
    ConservedKept(e, a, f);
    TransfersConservedKept(e, a, f);
    DUChangesConservedKept(e, a, f);
    AcksOkKept(e, a, f);
    TalliedKept(e, a, f);
    AllStampedKept(e, a, f);
  }

  lemma {:induction false} SafeThroughRun(e: Engine, actions: seq<Action>, f: Engine)
    requires Safe(e) && Run(Moves, e, actions, f)
    ensures Safe(f)
    decreases |actions|
  {
    if actions != [] {
      var mid :| Moves(e, actions[0], mid) && Run(Moves, mid, actions[1..], f);
      SafeKept(e, actions[0], mid);
      SafeThroughRun(mid, actions[1..], f);
    }
  }

  /** Everything above holds in every state any run reaches. */
  lemma SafeAlways(e: Engine)
    requires Reachable(e)
    ensures Safe(e)
  {
    SafeAtStart(e.handlers);
    var actions :| Run(Moves, Start(e.handlers), actions, e);
    SafeThroughRun(Start(e.handlers), actions, e);
  }
}
