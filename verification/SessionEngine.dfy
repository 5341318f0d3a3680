// The session engine of one device as a transition system: threads that request
// sessions, the one-slot latch, the offline gate, the retry timer and the tracker
// (cmd/cpe-sim/main.go sessionRunner, internal/cwmp/runsession.go). The server and
// the schedule are adversaries: any enabled action may come next.
module SessionEngine {
  import opened Events
  import opened EventTrackers
  import opened Options
  import opened Runs
  import opened Sessions

  /** What a session took with it when it began, at which tick of the run. stamp and
      failures are the lengths of the retry account at that moment. */
  datatype Draw = Draw(
    at: nat,
    trigger: Trigger,
    events: seq<Event>,
    transfers: seq<TransferRecord>,
    duChanges: seq<DURecord>,
    retryCount: nat,
    stamp: nat,
    failures: nat)

  /** Where one requesting thread stands inside request and runOne. */
  datatype Phase =
    | Claimed(trigger: Trigger)
    | Ready(trigger: Trigger)
    | InSession(draw: Draw)
    | Failed
    | Finished

  /** Something the device owes the server: a queued or announced event, or a tick. */
  datatype Arrival = Arrival(at: nat, event: Event, tick: bool)

  /** A session that ended well, with its transcript. */
  datatype Ack = Ack(draw: Draw, log: seq<Exchange>)

  /** The calls made on the retry state, in order. */
  datatype Account = FailedCall | CleanCall | Reboot

  /** Ghost record of the run. latched lists the triggers latched since the latch was
      last empty; failures counts sessions that returned an error. */
  datatype History = History(
    clock: nat,
    arrivals: seq<Arrival>,
    acks: seq<Ack>,
    latched: seq<Trigger>,
    lastReset: nat,
    transfersQueued: multiset<TransferRecord>,
    duQueued: multiset<DURecord>,
    accounts: seq<Account>,
    failures: nat)

  /** The fields of one device's session runner, and the timers armed in the scheduler. */
  datatype Runner = Runner(
    threads: map<nat, Phase>,
    busy: bool,
    offline: bool,
    deferred: Trigger,
    hasDeferred: bool,
    cancelRetry: Option<nat>,
    armed: set<nat>,
    timers: nat)

  datatype Engine = Engine(
    handlers: set<string>,
    runner: Runner,
    retry: nat,
    tracker: Tracker,
    history: History)

  datatype Action =
    | Request(thread: nat, trigger: Trigger)
    | Prepare(thread: nat)
    | Begin(thread: nat)
    | End(thread: nat, built: bool, acs: seq<Reply>)
    | Arm(thread: nat)
    | Next(thread: nat)
    | QueueMethod(name: string, key: string)
    | QueueTransfer(transfer: TransferRecord)
    | QueueDU(change: DURecord)
    | RecordChange(path: string)
    | FactoryReset
    | RebootReset
    | Fire(timer: nat)
    | GoOffline
    | GoOnline

  function Start(handlers: set<string>): Engine {
    Engine(handlers, Runner(map[], false, false, OnStartup, false, None, {}, 0), 0, FRESH,
           History(1, [], [], [], 0, multiset{}, multiset{}, [], 0))
  }

  /** Ranking of triggers competing for the latch. */
  function Priority(t: Trigger): nat {
    match t
    case OnStartup => 5
    case OnConnectionRequest => 4
    case OnTransferComplete => 3
    case OnRetry => 2
    case OnPeriodic => 1
    case _ => 0
  }

  // ---------- The steps ----------

  predicate Enabled(e: Engine, a: Action) {
    var threads := e.runner.threads;
    match a
    case Request(th, _) => th !in threads
    case Prepare(th) => th in threads && threads[th].Claimed?
    case Begin(th) => th in threads && threads[th].Ready?
    case End(th, _, _) => th in threads && threads[th].InSession?
    case Arm(th) => th in threads && threads[th].Failed?
    case Next(th) => th in threads && threads[th].Finished?
    case Fire(timer) => timer in e.runner.armed
    case _ => true
  }

  function At(e: Engine, th: nat, phase: Phase): Runner {
    e.runner.(threads := e.runner.threads[th := phase])
  }

  /** request's first critical section: claim the device, or compete for the latch.
      A periodic tick that loses queues its event. */
  function Requested(e: Engine, th: nat, trigger: Trigger): Engine {
    var h := if trigger != OnPeriodic then e.history
             else e.history.(arrivals := e.history.arrivals + [Arrival(e.history.clock, Unkeyed(Periodic), true)]);
    var r := e.runner;
    if r.busy || r.offline then
      var outranks := Priority(trigger) > Priority(r.deferred);
      var loser := if outranks then r.deferred else trigger;
      e.(runner := r.(deferred := if !r.hasDeferred || outranks then trigger else r.deferred, hasDeferred := true),
         tracker := if r.hasDeferred && loser == OnPeriodic then e.tracker.Queue(Unkeyed(Periodic)) else e.tracker,
         history := h.(latched := h.latched + [trigger]))
    else
      e.(runner := At(e, th, Claimed(trigger)).(busy := true), history := h)
  }

  /** runOne up to RunSession: drop a satisfied retry, cancel the pending timer. */
  function Prepared(e: Engine, th: nat, trigger: Trigger): Engine {
    if trigger == OnRetry && e.retry == 0 then e.(runner := At(e, th, Finished))
    else
      var r := e.runner;
      e.(runner := At(e, th, Ready(trigger)).(
         armed := if r.cancelRetry.Some? then r.armed - {r.cancelRetry.value} else r.armed,
         cancelRetry := None))
  }

  /** RunSession up to Session.Run: draw the events and both record queues. */
  function Begun(e: Engine, th: nat, trigger: Trigger): Engine {
    var events := e.tracker.Announced(trigger);
    var h := e.history;
    if events == [] then
      e.(runner := At(e, th, Failed), history := h.(failures := h.failures + 1))
    else
      var d := Draw(h.clock, trigger, events, e.tracker.transfers, e.tracker.duChanges, e.retry, |h.accounts|,
                    h.failures);
      e.(runner := At(e, th, InSession(d)),
         tracker := e.tracker.Drawn(),
         history := h.(arrivals := h.arrivals + Owed(h.clock, trigger)))
  }

  /** The new event a session places in its array, when it has to be delivered. */
  function Owed(clock: nat, trigger: Trigger): seq<Arrival> {
    if trigger == OnRetry || !Persists(Primary(trigger)[0].code) then []
    else [Arrival(clock, Primary(trigger)[0], false)]
  }

  function Outcome(handlers: set<string>, d: Draw, built: bool, acs: seq<Reply>): Talk {
    if built then Conversation(handlers, d.events, d.retryCount, Calls(d.transfers, d.duChanges), acs)
    else Talk(false, [])
  }

  /** The rest of RunSession: acknowledge, or give everything back. */
  function Ended(e: Engine, th: nat, d: Draw, talk: Talk): Engine {
    var h := e.history;
    if talk.ok then
      e.(runner := At(e, th, Finished),
         tracker := e.tracker.Acknowledged(),
         retry := 0,
         history := h.(acks := h.acks + [Ack(d, talk.log)], accounts := h.accounts + [CleanCall]))
    else
      e.(runner := At(e, th, Failed),
         tracker := e.tracker.Requeued(d.events, d.transfers, d.duChanges),
         history := h.(failures := h.failures + 1))
  }

  /** runOne after a failed session: count it and arm the next retry. */
  function Armed(e: Engine, th: nat): Engine {
    var r := e.runner;
    e.(runner := At(e, th, Finished).(
         cancelRetry := Some(r.timers), armed := r.armed + {r.timers}, timers := r.timers + 1),
       retry := e.retry + 1,
       history := e.history.(accounts := e.history.accounts + [FailedCall]))
  }

  /** request's loop: release the device, or take the latched trigger. */
  function Continued(e: Engine, th: nat): Engine {
    var r := e.runner;
    if !r.hasDeferred || r.offline then
      e.(runner := r.(busy := false, threads := r.threads - {th}))
    else
      e.(runner := At(e, th, Claimed(r.deferred)).(hasDeferred := false),
         history := e.history.(latched := []))
  }

  function Acted(e: Engine, a: Action): Engine
    requires Enabled(e, a)
  {
    var h, r := e.history, e.runner;
    match a
    case Request(th, trigger) => Requested(e, th, trigger)
    case Prepare(th) => Prepared(e, th, r.threads[th].trigger)
    case Begin(th) => Begun(e, th, r.threads[th].trigger)
    case End(th, built, acs) => Ended(e, th, r.threads[th].draw, Outcome(e.handlers, r.threads[th].draw, built, acs))
    case Arm(th) => Armed(e, th)
    case Next(th) => Continued(e, th)
    case QueueMethod(name, key) =>
      e.(tracker := e.tracker.Queue(Event(Method(name), key)),
         history := h.(arrivals := h.arrivals + [Arrival(h.clock, Event(Method(name), key), false)]))
    case QueueTransfer(t) =>
      e.(tracker := e.tracker.QueueTransfer(t), history := h.(transfersQueued := h.transfersQueued + multiset{t}))
    case QueueDU(d) =>
      e.(tracker := e.tracker.QueueDU(d), history := h.(duQueued := h.duQueued + multiset{d}))
    case RecordChange(path) => e.(tracker := e.tracker.Record(path))
    case FactoryReset => e.(tracker := e.tracker.Reset(), history := h.(lastReset := h.clock))
    case RebootReset => e.(retry := 0, history := h.(accounts := h.accounts + [Reboot]))
    case Fire(timer) => e.(runner := r.(armed := r.armed - {timer}, cancelRetry := None))
    case GoOffline => e.(runner := r.(offline := true))
    case GoOnline => e.(runner := r.(offline := false))
  }

  function Step(e: Engine, a: Action): Engine
    requires Enabled(e, a)
  {
    var f := Acted(e, a);
    f.(history := f.history.(clock := e.history.clock + 1))
  }

  ghost predicate Moves(e: Engine, a: Action, f: Engine) {
    Enabled(e, a) && f == Step(e, a)
  }

  // ---------- Runs ----------

  ghost predicate Reachable(e: Engine) {
    Reaches(Moves, Start(e.handlers), e)
  }
}
