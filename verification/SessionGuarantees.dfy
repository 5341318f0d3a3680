// What the session engine promises over whole runs, whatever the server answers and
// however requests, queueings, resets and the offline window interleave.
module SessionGuarantees {
  import opened Events
  import opened EventTrackers
  import opened Options
  import opened Runs
  import opened SessionEngine
  import opened SessionSafety
  import opened Sessions

  // ---------- Event conservation ----------

  /** At every moment of every run, everything owed to the server (queued events, the
      new event of each begun session, periodic ticks) is latched, pending, in flight
      in a session drawn no earlier, or was carried by such a session that ended well. */
  lemma NothingIsLost(e: Engine)
    requires Reachable(e)
    ensures forall x :: x in e.history.arrivals ==>
      || x.event in e.tracker.events
      || InFlight(e, x)
      || Latched(e, x)
      || Delivered(e, x)
  {
    SafeAlways(e);
    assert forall x :: x in e.history.arrivals ==> Kept(e, x);
  }

  /** What a step adds to that account: each tick requested, each "M ..." event
      queued. Nothing is ever struck off it. */
  lemma ArrivalsAreRecorded(e: Engine, a: Action, f: Engine)
    requires Moves(e, a, f)
    ensures e.history.arrivals <= f.history.arrivals
    ensures a.Request? && a.trigger == OnPeriodic ==>
      Arrival(e.history.clock, Unkeyed(Periodic), true) in f.history.arrivals
    ensures a.QueueMethod? ==> Arrival(e.history.clock, Event(Method(a.name), a.key), false) in f.history.arrivals
  {
  }

  /** And the new event each session begins with, unless Table 7 excludes its code. */
  lemma NewEventsAreRecorded(e: Engine, th: nat, f: Engine)
    requires Moves(e, Begin(th), f) && th in f.runner.threads && f.runner.threads[th].InSession?
    ensures var d := f.runner.threads[th].draw;
      d.trigger != OnRetry ==>
        && d.events != [] && Announcing(d.trigger, d.events[0])
        && (d.trigger !in {OnConnectionRequest, OnTransferComplete} ==>
          Arrival(d.at, d.events[0], false) in f.history.arrivals)
  {
    hide Moves, Step, Acted;
    var d := f.runner.threads[th].draw;
    BegunWith(e, th, f);
    if d.trigger != OnRetry {
      OpensWith(e.tracker, d.trigger);
      if d.trigger !in {OnConnectionRequest, OnTransferComplete} {
        assert Owed(d.at, d.trigger) == [Arrival(d.at, d.events[0], false)];
        assert f.history.arrivals[|e.history.arrivals|..][0] == Arrival(d.at, d.events[0], false);
      }
    }
  }

  lemma BegunWith(e: Engine, th: nat, f: Engine)
    requires Moves(e, Begin(th), f) && th in f.runner.threads && f.runner.threads[th].InSession?
    ensures var d := f.runner.threads[th].draw;
      && d.events == e.tracker.Announced(d.trigger)
      && |e.history.arrivals| <= |f.history.arrivals|
      && Owed(d.at, d.trigger) == f.history.arrivals[|e.history.arrivals|..]
  {
    hide Owed;
    assert Owed(e.history.clock, e.runner.threads[th].trigger) == f.history.arrivals[|e.history.arrivals|..];
  }

  /** So once the device is idle with an empty queue and latch, all of it was delivered. */
  lemma IdleMeansDelivered(e: Engine)
    requires Reachable(e)
    requires !e.runner.busy && !e.runner.hasDeferred && e.tracker.events == []
    ensures forall x :: x in e.history.arrivals ==> Delivered(e, x)
  {
    SafeAlways(e);
    NothingIsLost(e);
  }

  /** A periodic tick that loses the latch, on either side, is queued as 2 PERIODIC. */
  lemma DisplacedTickIsQueued(e: Engine, th: nat, trigger: Trigger, f: Engine)
    requires Moves(e, Request(th, trigger), f)
    requires (e.runner.busy || e.runner.offline) && e.runner.hasDeferred
    requires trigger == OnPeriodic || e.runner.deferred == OnPeriodic
    ensures f.runner.deferred == OnPeriodic || Unkeyed(Periodic) in f.tracker.events
    ensures trigger == OnPeriodic && e.runner.deferred == OnPeriodic ==> Unkeyed(Periodic) in f.tracker.events
  {
  }

  // ---------- Delivery is always within reach ----------

  /** The replies of a server that answers the Inform and every call, then closes. */
  function Willing(rpcs: seq<Rpc>): seq<Reply> {
    [Message("InformResponse", Handled)]
    + seq(|rpcs|, i requires 0 <= i < |rpcs| => Message(MethodOf(rpcs[i]) + "Response", Handled))
    + [Close]
  }

  lemma WillingCooperates(rpcs: seq<Rpc>)
    ensures Cooperates(rpcs, Willing(rpcs), |rpcs| + 2)
  {
    var acs := Willing(rpcs);
    assert acs[0] == Message("InformResponse", Handled);
    forall i | 0 <= i < |rpcs|
      ensures Acknowledges(acs[i + 1], rpcs[i])
    {
      assert acs[i + 1] == Message(MethodOf(rpcs[i]) + "Response", Handled);
      AnswersByName(acs[i + 1], rpcs[i]);
    }
  }

  /** The session in flight delivers everything it holds if the server is willing. */
  lemma WillingServerDelivers(e: Engine, th: nat, f: Engine)
    requires Safe(e) && th in e.runner.threads && e.runner.threads[th].InSession?
    requires var d := e.runner.threads[th].draw;
      Moves(e, End(th, true, Willing(Calls(d.transfers, d.duChanges))), f)
    ensures f.runner.threads[th].Finished? && f.retry == 0
    ensures forall x :: InFlight(e, x) ==> Delivered(f, x)
    ensures f.tracker.events == e.tracker.events && f.tracker.transfers == e.tracker.transfers
  {
    var d := e.runner.threads[th].draw;
    var rpcs := Calls(d.transfers, d.duChanges);
    WillingCooperates(rpcs);
    SucceedsExactly(e.handlers, d.events, d.retryCount, rpcs, Willing(rpcs));
    assert f.history.acks[|e.history.acks|].draw == d;
    forall x | InFlight(e, x)
      ensures Delivered(f, x)
    {
      assert Carries(d, x);
    }
  }

  // ---------- Record conservation ----------

  /** Counted with multiplicity, every record queued is pending, held by the session
      in flight, or belongs to exactly one session that ended well. */
  lemma RecordsAreConserved(e: Engine)
    requires Reachable(e)
    ensures NoneInSession(e) ==>
      && e.history.transfersQueued == multiset(e.tracker.transfers) + TransfersIn(e.history.acks)
      && e.history.duQueued == multiset(e.tracker.duChanges) + DUChangesIn(e.history.acks)
    ensures forall th | th in e.runner.threads && e.runner.threads[th].InSession? ::
      var d := e.runner.threads[th].draw;
      && e.history.transfersQueued ==
         multiset(e.tracker.transfers) + multiset(d.transfers) + TransfersIn(e.history.acks)
      && e.history.duQueued == multiset(e.tracker.duChanges) + multiset(d.duChanges) + DUChangesIn(e.history.acks)
  {
    SafeAlways(e);
  }

  /** A session that ended well sent each of its records once, transfers before state
      changes in drained order, and each was answered by its own response. */
  lemma DeliveredRecordsWereAnswered(e: Engine, k: nat)
    requires Reachable(e) && k < |e.history.acks|
    ensures AnsweredInOrder(e.history.acks[k].draw, e.history.acks[k].log)
    ensures CallsIn(e.history.acks[k].log) == Calls(e.history.acks[k].draw.transfers, e.history.acks[k].draw.duChanges)
  {
    SafeAlways(e);
    assert AckOk(e.handlers, e.history.acks[k]);
    CleanAnswersInOrder(e.handlers, e.history.acks[k]);
  }

  ghost predicate AnsweredInOrder(d: Draw, log: seq<Exchange>) {
    && |log| > |d.transfers| + |d.duChanges| + 1
    && (forall i | 0 <= i < |d.transfers| ::
      log[i + 1].sent == Call(TransferRpc(d.transfers[i])) && Answers(log[i + 1].reply, "TransferComplete"))
    && (forall i | 0 <= i < |d.duChanges| ::
      && log[|d.transfers| + i + 1].sent == Call(DURpc(d.duChanges[i]))
      && Answers(log[|d.transfers| + i + 1].reply, "DUStateChangeComplete"))
    && log[|log| - 1].reply == Close
  }

  lemma CallAnswered(d: Draw, rpcs: seq<Rpc>, log: seq<Exchange>, i: nat)
    requires Called(d.events, d.retryCount, rpcs, log, |rpcs|) && i < |rpcs|
    ensures i + 1 < |log| && log[i + 1].sent == Call(rpcs[i])
    ensures rpcs[i].TransferRpc? ==> Answers(log[i + 1].reply, "TransferComplete")
    ensures rpcs[i].DURpc? ==> Answers(log[i + 1].reply, "DUStateChangeComplete")
  {
    assert Answers(log[i + 1].reply, MethodOf(rpcs[i]));
  }

  lemma CleanAnswersInOrder(handlers: set<string>, ack: Ack)
    requires AckOk(handlers, ack)
    ensures AnsweredInOrder(ack.draw, ack.log)
  {
    var rpcs := Calls(ack.draw.transfers, ack.draw.duChanges);
    assert Called(ack.draw.events, ack.draw.retryCount, rpcs, ack.log, |rpcs|);
    CalledInOrder(ack.draw, rpcs, ack.log);
  }

  lemma CalledInOrder(d: Draw, rpcs: seq<Rpc>, log: seq<Exchange>)
    requires rpcs == Calls(d.transfers, d.duChanges)
    requires Called(d.events, d.retryCount, rpcs, log, |rpcs|)
    requires |log| > |rpcs| + 1 && log[|log| - 1].reply == Close
    ensures AnsweredInOrder(d, log)
  {
    forall i | 0 <= i < |d.transfers|
      ensures log[i + 1].sent == Call(TransferRpc(d.transfers[i])) && Answers(log[i + 1].reply, "TransferComplete")
    {
      CallAnswered(d, rpcs, log, i);
    }
    forall i | 0 <= i < |d.duChanges|
      ensures log[|d.transfers| + i + 1].sent == Call(DURpc(d.duChanges[i]))
      ensures Answers(log[|d.transfers| + i + 1].reply, "DUStateChangeComplete")
    {
      CallAnswered(d, rpcs, log, |d.transfers| + i);
    }
  }

  /** Any session that holds a transfer record announces 7 TRANSFER COMPLETE. */
  lemma HeldTransferIsAnnounced(e: Engine, th: nat)
    requires Reachable(e) && th in e.runner.threads && e.runner.threads[th].InSession?
    requires e.runner.threads[th].draw.transfers != []
    ensures Unkeyed(TransferComplete) in e.runner.threads[th].draw.events
  {
    SafeAlways(e);
  }

  // ---------- The runner ----------

  /** At most one thread is between claiming the device and releasing it, and at most
      one retry timer is armed: the one the runner can cancel. */
  lemma OneSessionOneTimer(e: Engine)
    requires Reachable(e)
    ensures forall a, b :: a in e.runner.threads && b in e.runner.threads ==> a == b
    ensures e.runner.busy <==> e.runner.threads != map[]
    ensures |e.runner.armed| <= 1
    ensures forall timer :: timer in e.runner.armed ==> e.runner.cancelRetry == Some(timer)
  {
    SafeAlways(e);
    if e.runner.threads != map[] {
      assert e.runner.threads.Keys != {};
    }
  }

  /** An inline claim is made only online, with no other thread inside the runner. */
  lemma InlineClaimsOnlyOnline(e: Engine, th: nat, trigger: Trigger, f: Engine)
    requires Moves(e, Request(th, trigger), f) && Exclusive(e)
    requires th in f.runner.threads
    ensures !e.runner.offline && e.runner.threads == map[]
    ensures f.runner.threads == map[th := Claimed(trigger)]
  {
    assert e.runner.threads.Keys == {};
  }

  /** A latched trigger is claimed only online, by the one thread that was running. */
  lemma DeferredClaimsOnlyOnline(e: Engine, th: nat, f: Engine)
    requires Moves(e, Next(th), f) && Exclusive(e)
    requires th in f.runner.threads
    ensures !e.runner.offline && f.runner.threads[th] == Claimed(e.runner.deferred)
    ensures e.runner.threads.Keys == {th} == f.runner.threads.Keys
  {
    assert e.runner.threads.Keys == {th};
  }

  /** No other step claims. */
  lemma NothingElseClaims(e: Engine, a: Action, f: Engine, th: nat)
    requires Moves(e, a, f) && !a.Request? && !a.Next?
    requires th in f.runner.threads && f.runner.threads[th].Claimed?
    ensures th in e.runner.threads && e.runner.threads[th] == f.runner.threads[th]
  {
  }

  /** The device is released only with the latch empty or while offline. */
  lemma ReleasesOnlyWhenDrained(e: Engine, a: Action, f: Engine)
    requires Moves(e, a, f)
    requires e.runner.busy && !f.runner.busy
    ensures !f.runner.hasDeferred || f.runner.offline
  {
  }

  /** While the latch is full it holds a highest-ranked trigger of those latched since
      it was last empty, the earliest of them on ties. */
  lemma LatchKeepsTheBest(e: Engine)
    requires Reachable(e) && e.runner.hasDeferred
    ensures exists i | 0 <= i < |e.history.latched| ::
      && e.history.latched[i] == e.runner.deferred
      && (forall j | 0 <= j < i :: Priority(e.history.latched[j]) < Priority(e.runner.deferred))
      && (forall j | i < j < |e.history.latched| :: Priority(e.history.latched[j]) <= Priority(e.runner.deferred))
  {
    SafeAlways(e);
    var i :| 0 <= i < |e.history.latched| && IsBestAt(e.history.latched, e.runner.deferred, i);
  }

  /** The ranking spelled out: a full latch holds a startup if one was latched since it was
      last empty, or else a connection request, a finished transfer, a retry, a tick; with
      none of these it holds the first trigger that was latched. */
  lemma LatchRanks(e: Engine)
    requires Reachable(e) && e.runner.hasDeferred
    ensures var latched := e.history.latched;
      && latched != []
      && e.runner.deferred ==
         if OnStartup in latched then OnStartup
         else if OnConnectionRequest in latched then OnConnectionRequest
         else if OnTransferComplete in latched then OnTransferComplete
         else if OnRetry in latched then OnRetry
         else if OnPeriodic in latched then OnPeriodic
         else latched[0]
  {
    hide Reachable;
    LatchKeepsTheBest(e);
    var latched, held := e.history.latched, e.runner.deferred;
    forall t | t in latched
      ensures Priority(t) <= Priority(held)
    {
      var j :| 0 <= j < |latched| && latched[j] == t;
    }
    if Priority(held) == 0 {
      assert latched[0] in latched;
    }
  }

  /** A request is latched exactly when the device is busy or offline, and the record of
      what was latched starts afresh exactly when the loop takes the latched trigger. */
  lemma LatchedSince(e: Engine, a: Action, f: Engine)
    requires Moves(e, a, f)
    ensures f.history.latched ==
      if a.Request? && (e.runner.busy || e.runner.offline) then e.history.latched + [a.trigger]
      else if a.Next? && e.runner.hasDeferred && !e.runner.offline then []
      else e.history.latched
    ensures a.Request? && (e.runner.busy || e.runner.offline) ==>
      f.runner.hasDeferred && f.runner.threads == e.runner.threads
  {
  }

  /** Once dark, the device stays dark until it is brought back. */
  lemma DarkUntilOnline(e: Engine, a: Action, f: Engine)
    requires Moves(e, a, f)
    ensures f.runner.offline <==> a.GoOffline? || (e.runner.offline && !a.GoOnline?)
  {
  }

  /** A retry whose count was brought back to zero before its turn starts no session;
      every other claim goes on to begin one, with no retry timer left armed. */
  lemma SatisfiedRetryIsDropped(e: Engine, th: nat, f: Engine)
    requires Reachable(e) && Moves(e, Prepare(th), f)
    ensures var trigger := e.runner.threads[th].trigger;
      if trigger == OnRetry && e.retry == 0 then
        f.runner.threads[th].Finished? && f.runner.armed == e.runner.armed
      else f.runner.threads[th] == Ready(trigger) && f.runner.armed == {}
  {
    SafeAlways(e);
  }

  // ---------- Changed values ----------

  /** A path that changed is listed once and waits for a session that ends well, which
      clears every listed path, also one recorded after that session began. */
  lemma ChangesWait(e: Engine, a: Action, f: Engine)
    requires Moves(e, a, f) && Distinct(e.tracker.valueChanges)
    ensures Distinct(f.tracker.valueChanges)
    ensures a.RecordChange? && a.path != "" ==> a.path in f.tracker.valueChanges
    ensures a.End? && f.runner.threads[a.thread].Finished? ==> f.tracker.valueChanges == []
    ensures !(a.End? && f.runner.threads[a.thread].Finished?) ==> e.tracker.valueChanges <= f.tracker.valueChanges
    ensures forall p :: p in f.tracker.valueChanges && p !in e.tracker.valueChanges ==> a == RecordChange(p) && p != ""
  {
    hide Conversation;
  }

  // ---------- BOOTSTRAP ----------

  ghost predicate ExactlyOnce(s: seq<Event>, e: Event) {
    exists i | 0 <= i < |s| :: s[i] == e && forall j | 0 <= j < |s| && j != i :: s[j].code != e.code
  }

  /** Every session begun while BOOTSTRAP is undelivered carries it exactly once, and
      none begun after carries it. */
  lemma BootstrapRidesAlong(e: Engine, th: nat, f: Engine)
    requires Safe(e) && Moves(e, Begin(th), f) && f.runner.threads[th].InSession?
    ensures !e.tracker.bootstrapDone ==> ExactlyOnce(f.runner.threads[th].draw.events, Unkeyed(Bootstrap))
    ensures e.tracker.bootstrapDone ==> forall x :: x in f.runner.threads[th].draw.events ==> x.code != Bootstrap
  {
    var trigger := e.runner.threads[th].trigger;
    var s := e.tracker.Announced(trigger);
    AnnouncedSet(e.tracker, trigger);
    BootstrapAnnounced(e.tracker, trigger);
    assert f.runner.threads[th].draw.events == s;
    if !e.tracker.bootstrapDone {
      var i :| 0 <= i < |s| && s[i] == Unkeyed(Bootstrap);
      forall j | 0 <= j < |s| && j != i
        ensures s[j].code != Bootstrap
      {
        assert s[j] in s;
      }
    }
  }

  /** The latch is set only by the end of a session that carried BOOTSTRAP and drew
      its events after the last factory reset. */
  lemma BootstrapLatchedByFreshSession(e: Engine, a: Action, f: Engine)
    requires Safe(e) && Moves(e, a, f)
    requires !e.tracker.bootstrapDone && f.tracker.bootstrapDone
    ensures a.End?
    ensures e.runner.threads[a.thread].draw.at > e.history.lastReset
    ensures Unkeyed(Bootstrap) in e.runner.threads[a.thread].draw.events
  {
    hide Safe, Conversation;
    SafeBootstrap(e);
    LatchedAtEnd(e, a, f);
  }

  lemma SafeBootstrap(e: Engine)
    requires Safe(e)
    ensures BootstrapOk(e)
  {
  }

  lemma LatchedAtEnd(e: Engine, a: Action, f: Engine)
    requires Moves(e, a, f) && !e.tracker.bootstrapDone && f.tracker.bootstrapDone
    ensures a.End? && e.tracker.bootstrapPending
  {
    hide Conversation;
  }

  /** So a factory reset handled inside a bootstrapping session is not swallowed: with
      the session still in flight, its end leaves BOOTSTRAP undelivered. */
  lemma ResetInsideSessionSurvives(e: Engine, a: Action, f: Engine)
    requires Safe(e) && Moves(e, a, f) && a.End?
    requires e.runner.threads[a.thread].draw.at <= e.history.lastReset
    ensures !e.tracker.bootstrapDone ==> !f.tracker.bootstrapDone
  {
    if !e.tracker.bootstrapDone && f.tracker.bootstrapDone {
      BootstrapLatchedByFreshSession(e, a, f);
    }
  }

  /** It takes the runner's mutual exclusion: with two sessions in flight, the reset
      that came after the first one's draw is lost when that first session ends well. */
  lemma OverlapWouldSwallowReset()
    ensures var drawnByFirst := FRESH.Drawn();
            var reset := drawnByFirst.Reset();
            var drawnBySecond := reset.Drawn();
            && !reset.bootstrapDone
            && Unkeyed(Bootstrap) in reset.Announced(OnPeriodic)
            && drawnBySecond.Acknowledged().bootstrapDone
            && Unkeyed(Bootstrap) !in drawnBySecond.Acknowledged().Announced(OnPeriodic)
  {
    var reset := FRESH.Drawn().Reset();
    BootstrapAnnounced(reset, OnPeriodic);
    BootstrapAnnounced(reset.Drawn().Acknowledged(), OnPeriodic);
  }

  // ---------- The retry count ----------

  /** Every Inform carries the number of consecutive failed sessions accounted for
      since the last success or reboot, and none was left unaccounted when it began. */
  lemma RetryCountIsTheStreak(e: Engine, th: nat)
    requires Reachable(e) && th in e.runner.threads && e.runner.threads[th].InSession?
    ensures var d := e.runner.threads[th].draw;
      && d.stamp <= |e.history.accounts|
      && d.retryCount == Streak(e.history.accounts[..d.stamp])
      && d.failures == FailedCalls(e.history.accounts[..d.stamp])
  {
    SafeAlways(e);
  }

  /** The count itself follows the account at every moment. */
  lemma RetryStateFollowsAccount(e: Engine)
    requires Reachable(e)
    ensures e.retry == Streak(e.history.accounts)
    ensures (forall th | th in e.runner.threads :: !e.runner.threads[th].Failed?) ==>
      e.history.failures == FailedCalls(e.history.accounts)
  {
    SafeAlways(e);
  }
}
