// The event tracker: what the next session announces and what a failed one
// gives back (internal/cwmp/eventtracker.go, and the re-queue helpers of
// internal/cwmp/runsession.go).
module EventTrackers {
  import opened Events
  import opened Runs

  /** The tracker's fields as a value; the class below holds them. */
  datatype Tracker = Tracker(
    bootstrapDone: bool,
    bootstrapPending: bool,
    events: seq<Event>,
    valueChanges: seq<string>,
    transfers: seq<TransferRecord>,
    duChanges: seq<DURecord>)
  {
    /** The queue, in order: primary event, BOOTSTRAP while undelivered, queued
        events, TRANSFER COMPLETE while a record waits. A retry leads with the queue. */
    function Lineup(trigger: Trigger): seq<Event> {
      var boot := if bootstrapDone then [] else [Unkeyed(Bootstrap)];
      var moved := if transfers == [] then [] else [Unkeyed(TransferComplete)];
      if trigger == OnRetry then events + boot + moved
      else Primary(trigger) + boot + events + moved
    }

    function Announced(trigger: Trigger): seq<Event> {
      Dedupe(Lineup(trigger))
    }

    /** The tracker once a session has drawn its events and drained both record queues. */
    function Drawn(): Tracker {
      this.(events := [], bootstrapPending := bootstrapPending || !bootstrapDone, transfers := [], duChanges := [])
    }

    function Acknowledged(): Tracker {
      this.(valueChanges := [], bootstrapDone := bootstrapDone || bootstrapPending, bootstrapPending := false)
    }

    function Reset(): Tracker {
      this.(bootstrapDone := false, bootstrapPending := false)
    }

    function Queue(e: Event): Tracker {
      this.(events := events + [e])
    }

    function QueueTransfer(r: TransferRecord): Tracker {
      this.(transfers := transfers + [r])
    }

    function QueueDU(r: DURecord): Tracker {
      this.(duChanges := duChanges + [r])
    }

    function Record(path: string): Tracker {
      if path == "" || path in valueChanges then this else this.(valueChanges := valueChanges + [path])
    }

    /** A failed session's events and records, put back behind what arrived meanwhile. */
    function Requeued(drawn: seq<Event>, ts: seq<TransferRecord>, ds: seq<DURecord>): Tracker {
      this.(events := events + Persisting(drawn), transfers := transfers + ts, duChanges := duChanges + ds)
    }
  }

  const FRESH := Tracker(false, false, [], [], [], [])

  // ---------- What an announced array always contains ----------

  /** Everything queued is announced, BOOTSTRAP exactly while it is undelivered,
      TRANSFER COMPLETE whenever a record waits, and the trigger's own event. */
  predicate ToAnnounce(t: Tracker, trigger: Trigger, e: Event) {
    || e in Primary(trigger)
    || e in t.events
    || (!t.bootstrapDone && e == Unkeyed(Bootstrap))
    || (t.transfers != [] && e == Unkeyed(TransferComplete))
  }

  lemma LineupHolds(t: Tracker, trigger: Trigger, e: Event)
    ensures e in t.Lineup(trigger) <==> ToAnnounce(t, trigger, e)
  {
  }

  lemma Announces(t: Tracker, trigger: Trigger, e: Event)
    ensures e in t.Announced(trigger) <==> ToAnnounce(t, trigger, e)
  {
    DedupeFacts(t.Lineup(trigger));
    LineupHolds(t, trigger, e);
  }

  /** The array as a set without duplicates: nothing to announce is left out. */
  lemma AnnouncedSet(t: Tracker, trigger: Trigger)
    ensures Distinct(t.Announced(trigger))
    ensures forall e :: e in t.Announced(trigger) <==> ToAnnounce(t, trigger, e)
  {
    DedupeFacts(t.Lineup(trigger));
    forall e
      ensures e in t.Announced(trigger) <==> ToAnnounce(t, trigger, e)
    {
      Announces(t, trigger, e);
    }
  }

  /** BOOTSTRAP is announced exactly while it is undelivered, and then once. */
  lemma BootstrapAnnounced(t: Tracker, trigger: Trigger)
    requires AllPersist(t.events)
    ensures Unkeyed(Bootstrap) in t.Announced(trigger) <==> !t.bootstrapDone
    ensures forall e :: e in t.Announced(trigger) && e.code == Bootstrap ==> e == Unkeyed(Bootstrap)
  {
    AnnouncedSet(t, trigger);
  }

  /** The primary event leads, so the Inform's ParameterList is chosen by it. */
  lemma PrimaryLeads(t: Tracker, trigger: Trigger)
    requires trigger != OnRetry
    ensures t.Announced(trigger) != [] && t.Announced(trigger)[0] == Primary(trigger)[0]
  {
    assert t.Lineup(trigger)[0] == Primary(trigger)[0];
    DedupeFacts(t.Lineup(trigger));
  }

  /** The event each trigger stands for: 1 BOOT, 2 PERIODIC, 6 CONNECTION REQUEST,
      4 VALUE CHANGE, 7 TRANSFER COMPLETE, 11 DU STATE CHANGE COMPLETE. */
  ghost predicate Announcing(trigger: Trigger, e: Event) {
    || (trigger == OnStartup && e == Event(Boot, ""))
    || (trigger == OnPeriodic && e == Event(Periodic, ""))
    || (trigger == OnConnectionRequest && e == Event(ConnectionRequest, ""))
    || (trigger == OnValueChange && e == Event(ValueChange, ""))
    || (trigger == OnTransferComplete && e == Event(TransferComplete, ""))
    || (trigger == OnDUStateChangeComplete && e == Event(DUStateChange, ""))
  }

  /** A session opens with its trigger's event, and a retry with the head of the queue. */
  lemma OpensWith(t: Tracker, trigger: Trigger)
    ensures trigger != OnRetry ==> t.Announced(trigger) != [] && Announcing(trigger, t.Announced(trigger)[0])
    ensures t.events != [] ==> t.Announced(OnRetry) != [] && t.Announced(OnRetry)[0] == t.events[0]
  {
    DedupeFacts(t.Lineup(OnRetry));
    if trigger != OnRetry {
      PrimaryLeads(t, trigger);
    }
    if t.events != [] {
      assert t.Lineup(OnRetry)[0] == t.events[0];
    }
  }

  /** Exactly the trigger's event, everything queued, BOOTSTRAP while it is undelivered
      and TRANSFER COMPLETE while a record waits. */
  lemma AnnouncesExactly(t: Tracker, trigger: Trigger, e: Event)
    ensures e in t.Announced(trigger) <==>
      || Announcing(trigger, e)
      || e in t.events
      || (!t.bootstrapDone && e == Event(Bootstrap, ""))
      || (t.transfers != [] && e == Event(TransferComplete, ""))
  {
    Announces(t, trigger, e);
  }

  /** Their order: the trigger's event, BOOTSTRAP, the queue as it stands, TRANSFER COMPLETE,
      each kept where it comes first. A retry puts the queue before BOOTSTRAP. */
  lemma AnnouncedInOrder(t: Tracker, trigger: Trigger, own: Event)
    ensures var boot := if t.bootstrapDone then [] else [Event(Bootstrap, "")];
            var moved := if t.transfers == [] then [] else [Event(TransferComplete, "")];
            && (Announcing(trigger, own) ==> ByFirstPlace([own] + boot + t.events + moved, t.Announced(trigger)))
            && ByFirstPlace(t.events + boot + moved, t.Announced(OnRetry))
  {
    DedupeByFirstPlace(t.Lineup(OnRetry));
    DedupeByFirstPlace(t.Lineup(trigger));
    if Announcing(trigger, own) {
      assert Primary(trigger) == [own];
    }
  }

  /** An empty array means nothing was there to lose: only a retry can draw one. */
  lemma EmptyDraw(t: Tracker, trigger: Trigger)
    ensures t.Announced(trigger) == [] <==> trigger == OnRetry && t.events == [] && t.bootstrapDone && t.transfers == []
  {
    DedupeFacts(t.Lineup(trigger));
    assert t.Announced(trigger) == [] <==> t.Lineup(trigger) == [];
  }

  // ---------- Redelivery is a fixpoint ----------

  /** The tracker after a session for the trigger failed with nothing queued or
      reset in between. */
  function AfterFailure(t: Tracker, trigger: Trigger): Tracker {
    t.Drawn().Requeued(t.Announced(trigger), t.transfers, t.duChanges)
  }

  function AfterFailedRetry(t: Tracker): Tracker {
    AfterFailure(t, OnRetry)
  }

  /** The failures the fixpoint speaks about: a connection request is never retried,
      and a transfer trigger announces its code again only through a held record. */
  predicate Redeliverable(t: Tracker, trigger: Trigger) {
    && trigger != OnConnectionRequest
    && (trigger == OnTransferComplete ==> t.transfers != [])
  }

  lemma FailureKeeps(t: Tracker, trigger: Trigger)
    ensures AfterFailure(t, trigger).bootstrapDone == t.bootstrapDone
    ensures AfterFailure(t, trigger).bootstrapPending == (t.bootstrapPending || !t.bootstrapDone)
    ensures AfterFailure(t, trigger).transfers == t.transfers
    ensures AfterFailure(t, trigger).duChanges == t.duChanges
    ensures AfterFailure(t, trigger).valueChanges == t.valueChanges
    ensures AfterFailure(t, trigger).events == Persisting(t.Announced(trigger))
  {
  }

  /** A tracker as some failed session left it. */
  ghost predicate Settled(t: Tracker) {
    && AllPersist(t.events)
    && Distinct(t.events)
    && (!t.bootstrapDone ==> t.bootstrapPending)
  }

  lemma FailureSettles(t: Tracker, trigger: Trigger)
    ensures Settled(AfterFailure(t, trigger))
  {
    FailureKeeps(t, trigger);
    DedupeFacts(t.Lineup(trigger));
    PersistingFacts(t.Announced(trigger));
  }

  /** What a failed session puts back on the queue. */
  lemma FailureQueues(t: Tracker, trigger: Trigger, e: Event)
    ensures e in AfterFailure(t, trigger).events <==> ToAnnounce(t, trigger, e) && Persists(e.code)
  {
    Announces(t, trigger, e);
    PersistingFacts(t.Announced(trigger));
  }

  /** A failed session puts back behind the queue what it announced, except 6 CONNECTION
      REQUEST, 0 BOOTSTRAP and 7 TRANSFER COMPLETE, and both kinds of record. */
  lemma GivesBackExactly(t: Tracker, drawn: seq<Event>, ts: seq<TransferRecord>, ds: seq<DURecord>, e: Event)
    ensures var u := t.Requeued(drawn, ts, ds);
      && t.events <= u.events && u.transfers == t.transfers + ts && u.duChanges == t.duChanges + ds
      && (e in u.events[|t.events|..] <==>
          e in drawn && e.code !in {ConnectionRequest, Bootstrap, TransferComplete})
      && u.valueChanges == t.valueChanges && u.bootstrapDone == t.bootstrapDone
      && u.bootstrapPending == t.bootstrapPending
  {
    PersistingFacts(drawn);
    assert t.Requeued(drawn, ts, ds).events[|t.events|..] == Persisting(drawn);
  }

  /** And in the order in which it was announced. */
  lemma GivesBackInOrder(t: Tracker, drawn: seq<Event>, i: nat, j: nat)
    requires i < j < |drawn|
    requires drawn[i].code !in {ConnectionRequest, Bootstrap, TransferComplete}
    requires drawn[j].code !in {ConnectionRequest, Bootstrap, TransferComplete}
    ensures var back := t.Requeued(drawn, [], []).events[|t.events|..];
      exists k, l | 0 <= k < l < |back| :: back[k] == drawn[i] && back[l] == drawn[j]
  {
    hide Persisting;
    var back := Persisting(drawn);
    assert t.Requeued(drawn, [], []).events[|t.events|..] == back;
    PersistingKeepsOrder(drawn, i, j);
  }

  lemma RetryChoice(t: Tracker, trigger: Trigger, u: Tracker, e: Event)
    requires u.bootstrapDone == t.bootstrapDone && u.transfers == t.transfers
    requires e in u.events <==> ToAnnounce(t, trigger, e) && Persists(e.code)
    ensures ToAnnounce(u, OnRetry, e) <==>
      || (ToAnnounce(t, trigger, e) && Persists(e.code))
      || (!t.bootstrapDone && e == Unkeyed(Bootstrap))
      || (t.transfers != [] && e == Unkeyed(TransferComplete))
  {
    assert e !in Primary(OnRetry);
  }

  /** What the retry after a failure announces. */
  lemma RetryAnnounces(t: Tracker, trigger: Trigger, e: Event)
    ensures e in AfterFailure(t, trigger).Announced(OnRetry) <==>
      || (ToAnnounce(t, trigger, e) && Persists(e.code))
      || (!t.bootstrapDone && e == Unkeyed(Bootstrap))
      || (t.transfers != [] && e == Unkeyed(TransferComplete))
  {
    FailureKeeps(t, trigger);
    FailureQueues(t, trigger, e);
    RetryChoice(t, trigger, AfterFailure(t, trigger), e);
    Announces(AfterFailure(t, trigger), OnRetry, e);
  }

  /** The retry announces exactly the failed array's events, without duplicates. */
  lemma RetryAnnouncesSameSet(t: Tracker, trigger: Trigger)
    requires AllPersist(t.events)
    requires Redeliverable(t, trigger)
    ensures forall e :: e in AfterFailure(t, trigger).Announced(OnRetry) <==> e in t.Announced(trigger)
    ensures Distinct(AfterFailure(t, trigger).Announced(OnRetry))
  {
    AnnouncedSet(AfterFailure(t, trigger), OnRetry);
    forall e
      ensures e in AfterFailure(t, trigger).Announced(OnRetry) <==> e in t.Announced(trigger)
    {
      RetryAnnounces(t, trigger, e);
      SameChoice(t, trigger, e);
      Announces(t, trigger, e);
    }
  }

  lemma SameChoice(t: Tracker, trigger: Trigger, e: Event)
    requires AllPersist(t.events)
    requires Redeliverable(t, trigger)
    ensures ToAnnounce(t, trigger, e) <==>
      || (ToAnnounce(t, trigger, e) && Persists(e.code))
      || (!t.bootstrapDone && e == Unkeyed(Bootstrap))
      || (t.transfers != [] && e == Unkeyed(TransferComplete))
  {
  }

  lemma PersistingHead(s: seq<Event>)
    requires s != [] && Persists(s[0].code)
    ensures Persisting(s) != [] && Persisting(s)[0] == s[0]
  {
    PersistingSplits(s[..1], s[1..]);
    assert s == s[..1] + s[1..];
    assert Persisting(s[..1]) == [s[0]];
  }

  /** When the failed session's primary event is re-queued, the retry leads with it. */
  lemma RetryLeadsWithPrimary(t: Tracker, trigger: Trigger)
    requires trigger != OnRetry && Persists(Primary(trigger)[0].code)
    ensures AfterFailure(t, trigger).Announced(OnRetry) != []
    ensures AfterFailure(t, trigger).Announced(OnRetry)[0] == Primary(trigger)[0]
  {
    PrimaryLeads(t, trigger);
    PersistingHead(t.Announced(trigger));
    FailureKeeps(t, trigger);
    var u := AfterFailure(t, trigger);
    assert u.Lineup(OnRetry)[0] == u.events[0];
    DedupeFacts(u.Lineup(OnRetry));
  }

  lemma RetryLineup(t: Tracker)
    requires AllPersist(t.events) && Distinct(t.events)
    ensures Distinct(t.Lineup(OnRetry))
    ensures Persisting(t.Lineup(OnRetry)) == t.events
  {
    var boot := if t.bootstrapDone then [] else [Unkeyed(Bootstrap)];
    var moved := if t.transfers == [] then [] else [Unkeyed(TransferComplete)];
    PersistingAll(t.events);
    PersistingSplits(t.events + boot, moved);
    PersistingSplits(t.events, boot);
    assert Persisting(boot) == [] && Persisting(moved) == [];
    assert t.Lineup(OnRetry) == t.events + boot + moved;
  }

  /** A failed retry finds the tracker as a failed session left it, and leaves it so. */
  lemma FailedRetryChangesNothing(t: Tracker)
    requires Settled(t)
    ensures AfterFailedRetry(t) == t
  {
    RetryLineup(t);
    DedupeFixpoint(t.Lineup(OnRetry));
    FailureKeeps(t, OnRetry);
  }

  /** However many retries fail, the tracker stays as the first failure left it, so
      each retry announces the same sequence and the queue never grows. */
  lemma RedeliveryFixpoint(t: Tracker, trigger: Trigger, n: nat)
    ensures Iterate(AfterFailedRetry, AfterFailure(t, trigger), n) == AfterFailure(t, trigger)
  {
    var u := AfterFailure(t, trigger);
    FailureSettles(t, trigger);
    FailedRetryChangesNothing(u);
    FixpointsIterate(AfterFailedRetry, u, n);
  }

  /** The exclusions are exact: a session's failure loses an announced event for
      the retry precisely when the trigger was a connection request, or a transfer
      trigger with no record behind it. */
  lemma RedeliverableExactly(t: Tracker, trigger: Trigger)
    requires AllPersist(t.events)
    ensures Redeliverable(t, trigger) <==>
      forall e :: e in t.Announced(trigger) ==> e in AfterFailure(t, trigger).Announced(OnRetry)
  {
    if Redeliverable(t, trigger) {
      RetryAnnouncesSameSet(t, trigger);
    } else {
      PrimaryLeads(t, trigger);
      RetryAnnounces(t, trigger, Primary(trigger)[0]);
      assert Primary(trigger)[0] in t.Announced(trigger);
    }
  }

  /** So a lone connection request that fails leaves its retry nothing to announce. */
  lemma LoneConnectionRequest(t: Tracker)
    requires t.bootstrapDone && t.transfers == [] && t.events == []
    ensures AfterFailure(t, OnConnectionRequest).Announced(OnRetry) == []
  {
    var u := AfterFailure(t, OnConnectionRequest);
    FailureKeeps(t, OnConnectionRequest);
    if u.events != [] {
      FailureQueues(t, OnConnectionRequest, u.events[0]);
      assert false;
    }
    EmptyDraw(u, OnRetry);
  }

  // ---------- The tracker object ----------

  class EventTracker {
    var bootstrapDone: bool
    var bootstrapPending: bool
    var pendingEvents: seq<Event>
    var pendingValueChanges: seq<string>
    var pendingTransferCompletes: seq<TransferRecord>
    var pendingDUStateCompletes: seq<DURecord>

    constructor ()
      ensures State() == FRESH
    {
      bootstrapDone, bootstrapPending := false, false;
      pendingEvents, pendingValueChanges := [], [];
      pendingTransferCompletes, pendingDUStateCompletes := [], [];
    }

    ghost function State(): Tracker
      reads this
    {
      Tracker(bootstrapDone, bootstrapPending, pendingEvents, pendingValueChanges,
              pendingTransferCompletes, pendingDUStateCompletes)
    }

    /** The events of the next session; the record queues are drained separately. */
    method NextSessionEvents(trigger: Trigger) returns (events: seq<Event>)
      modifies this
      ensures events == old(State()).Announced(trigger)
      ensures State() == old(State()).(events := [], bootstrapPending := old(bootstrapPending || !bootstrapDone))
    {
      events := TakeLeading(trigger);
      ghost var lead := events;
      if !bootstrapDone {
        events := events + [Unkeyed(Bootstrap)];
        bootstrapPending := true;
      }
      ghost var boot := if bootstrapDone then [] else [Unkeyed(Bootstrap)];
      assert events == lead + boot;
      ghost var queued := pendingEvents;
      if trigger != OnRetry && |pendingEvents| > 0 {
        events := events + pendingEvents;
        pendingEvents := [];
      }
      assert events == lead + boot + queued;
      if |pendingTransferCompletes| > 0 {
        events := events + [Unkeyed(TransferComplete)];
      }
      assert events == old(State()).Lineup(trigger);
      events := DedupeEvents(events);
    }

    /** What leads the array: the trigger's own event, or the queue on a retry. */
    method TakeLeading(trigger: Trigger) returns (events: seq<Event>)
      modifies this
      ensures trigger == OnRetry ==> events == old(pendingEvents) && State() == old(State()).(events := [])
      ensures trigger != OnRetry ==> events == Primary(trigger) && State() == old(State())
    {
      match trigger {
        case OnStartup => events := [Unkeyed(Boot)];
        case OnPeriodic => events := [Unkeyed(Periodic)];
        case OnConnectionRequest => events := [Unkeyed(ConnectionRequest)];
        case OnValueChange => events := [Unkeyed(ValueChange)];
        case OnTransferComplete => events := [Unkeyed(TransferComplete)];
        case OnDUStateChangeComplete => events := [Unkeyed(DUStateChange)];
        case OnRetry =>
          events := pendingEvents;
          pendingEvents := [];
      }
    }

    /** One pass that keeps the first occurrence of each entry. */
    static method DedupeEvents(events: seq<Event>) returns (out: seq<Event>)
      ensures out == Dedupe(events)
    {
      if |events| < 2 {
        if |events| == 1 {
          DedupeFixpoint(events);
        }
        return events;
      }
      var seen: set<Event> := {};
      out := [];
      for i := 0 to |events|
        invariant out == Dedupe(events[..i])
        invariant forall e :: e in seen <==> e in events[..i]
      {
        assert events[..i + 1] == events[..i] + [events[i]];
        assert events[..i + 1][..i] == events[..i];
        if events[i] !in seen {
          seen := seen + {events[i]};
          out := out + [events[i]];
        }
      }
      assert events[..|events|] == events;
    }

    method Acknowledge()
      modifies this
      ensures State() == old(State()).Acknowledged()
    {
      pendingValueChanges := [];
      if bootstrapPending {
        bootstrapDone := true;
        bootstrapPending := false;
      }
    }

    method ResetBootstrap()
      modifies this
      ensures State() == old(State()).Reset()
    {
      bootstrapDone := false;
      bootstrapPending := false;
    }

    /** Queues an event, whether an "M ..." event or one a failed session gives back. */
    method RequeueEvent(e: Event)
      modifies this
      ensures State() == old(State()).Queue(e)
    {
      pendingEvents := pendingEvents + [e];
    }

    method QueuePeriodic()
      modifies this
      ensures State() == old(State()).Queue(Unkeyed(Periodic))
    {
      RequeueEvent(Unkeyed(Periodic));
    }

    method RecordValueChange(path: string)
      modifies this
      ensures State() == old(State()).Record(path)
    {
      if path == "" {
        return;
      }
      for i := 0 to |pendingValueChanges|
        invariant path !in pendingValueChanges[..i]
      {
        if pendingValueChanges[i] == path {
          return;
        }
      }
      pendingValueChanges := pendingValueChanges + [path];
    }

    method QueueTransferComplete(r: TransferRecord)
      modifies this
      ensures State() == old(State()).QueueTransfer(r)
    {
      pendingTransferCompletes := pendingTransferCompletes + [r];
    }

    method DrainTransferCompletes() returns (out: seq<TransferRecord>)
      modifies this
      ensures out == old(pendingTransferCompletes)
      ensures State() == old(State()).(transfers := [])
    {
      out := pendingTransferCompletes;
      pendingTransferCompletes := [];
    }

    method QueueDUStateChangeComplete(r: DURecord)
      modifies this
      ensures State() == old(State()).QueueDU(r)
    {
      pendingDUStateCompletes := pendingDUStateCompletes + [r];
    }

    method DrainDUStateChangeCompletes() returns (out: seq<DURecord>)
      modifies this
      ensures out == old(pendingDUStateCompletes)
      ensures State() == old(State()).(duChanges := [])
    {
      out := pendingDUStateCompletes;
      pendingDUStateCompletes := [];
    }

    /** Gives back what a failed session drew, event by event and record by record. */
    method RequeueAll(events: seq<Event>, ts: seq<TransferRecord>, ds: seq<DURecord>)
      modifies this
      ensures State() == old(State()).Requeued(events, ts, ds)
    {
      for i := 0 to |events|
        invariant State() == old(State()).Requeued(events[..i], [], [])
      {
        assert events[..i + 1][..i] == events[..i];
        if Persists(events[i].code) {
          RequeueEvent(events[i]);
        }
      }
      assert events[..|events|] == events;
      for i := 0 to |ts|
        invariant State() == old(State()).Requeued(events, ts[..i], [])
      {
        QueueTransferComplete(ts[i]);
      }
      for i := 0 to |ds|
        invariant State() == old(State()).Requeued(events, ts, ds[..i])
      {
        QueueDUStateChangeComplete(ds[i]);
      }
    }
  }
}
