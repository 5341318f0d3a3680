// Bulk data collection (internal/usp/agent/bulkdata.go): when a profile's report is due
// and which undelivered reports go out with the next (TR-157 sections A.2.2 and A.2.3).
module BulkData {
  import opened Options

  type Report = string

  const MAX_RETAINED := 100

  datatype Spec = Spec(interval: int, retain: int, timeRef: Option<int>)

  /** A profile row as a tick reads it: off, not deliverable as configured, or usable. */
  datatype Reading = Off | Unusable | Usable(spec: Spec)

  /** What became of a push; a report that cannot be encoded is never sent. */
  datatype Delivery = Delivered | Failed | NotEncodable

  /** A row with the report it would collect now and what would become of it. */
  datatype Row = Row(inst: string, reading: Reading, entry: Report, delivery: Delivery)

  datatype Push = Push(inst: string, reports: seq<Report>)

  // ---------- Due times ----------

  predicate Sound(reading: Reading) {
    reading.Usable? ==> reading.spec.interval > 0
  }

  function FirstDue(now: int, spec: Spec): int
    requires spec.interval > 0
  {
    match spec.timeRef
    case None => now + spec.interval
    case Some(ref) => if now < ref then ref else ref + ((now - ref) / spec.interval + 1) * spec.interval
  }

  /** The due time moved on by intervals until it is after now. */
  function StepPast(due: int, interval: int, now: int): (r: int)
    requires interval > 0
    ensures r > now && r >= due
    decreases now - due
  {
    if due > now then due else StepPast(due + interval, interval, now)
  }

  ghost predicate OnGrid(origin: int, interval: int, t: int) {
    exists k: nat :: t == origin + k * interval
  }

  /** t is the first point of the grid after now. */
  ghost predicate LeastAfter(origin: int, interval: int, now: int, t: int) {
    OnGrid(origin, interval, t) && t > now && (t == origin || t - interval <= now)
  }

  lemma {:induction false} StepPastIsLeast(due: int, interval: int, now: int)
    requires interval > 0
    ensures LeastAfter(due, interval, now, StepPast(due, interval, now))
    decreases now - due
  {
    if due > now {
      assert due == due + 0 * interval;
    } else {
      StepPastIsLeast(due + interval, interval, now);
      var t := StepPast(due + interval, interval, now);
      var k: nat :| t == due + interval + k * interval;
      assert t == due + (k + 1) * interval;
    }
  }

  /** Stepping past one time and then a later one is stepping past the later. */
  lemma {:induction false} StepPastTwice(due: int, interval: int, now: int, later: int)
    requires interval > 0 && now <= later
    ensures StepPast(StepPast(due, interval, now), interval, later) == StepPast(due, interval, later)
    decreases now - due
  {
    if due <= now {
      StepPastTwice(due + interval, interval, now, later);
    }
  }

  /** The first report falls on the reference's grid: at the reference itself when that is
      still to come, otherwise at the first boundary after now. */
  lemma FirstDueOnReference(now: int, spec: Spec, ref: int)
    requires spec.interval > 0 && spec.timeRef == Some(ref)
    ensures LeastAfter(ref, spec.interval, now, FirstDue(now, spec))
  {
    var i := spec.interval;
    if now < ref {
      assert ref == ref + 0 * i;
    } else {
      var q: nat := (now - ref) / i;
      assert FirstDue(now, spec) == ref + (q + 1) * i;
      assert (q + 1) * i == q * i + i;
      assert now - ref == q * i + (now - ref) % i;
    }
  }

  /** Without a reference it is an interval away. */
  lemma FirstDueOffReference(now: int, spec: Spec)
    requires spec.interval > 0 && spec.timeRef == None
    ensures FirstDue(now, spec) == now + spec.interval
  {
  }

  // ---------- Retention ----------

  function Limit(retain: int): nat {
    if retain < 0 || retain > MAX_RETAINED then MAX_RETAINED else retain
  }

  function LastOf<T>(s: seq<T>, n: nat): seq<T> {
    if |s| > n then s[|s| - n..] else s
  }

  function RetainedAfter(retained: seq<Report>, retain: int, entry: Report, delivery: Delivery): seq<Report> {
    match delivery
    case NotEncodable => retained
    case Delivered => []
    case Failed => if retain == 0 then retained else LastOf(retained + [entry], Limit(retain))
  }

  // ---------- One profile, one tick ----------

  datatype Memory = Memory(interval: int, nextDue: int, retained: seq<Report>, skipped: bool)

  /** The state a usable profile ticks with: its own, or a new one on a new cadence. */
  function Current(m: Option<Memory>, now: int, spec: Spec): Memory
    requires spec.interval > 0
  {
    if m.Some? && !m.value.skipped && m.value.interval == spec.interval then m.value
    else Memory(spec.interval, FirstDue(now, spec), if m.Some? then m.value.retained else [], false)
  }

  function RowMemory(m: Option<Memory>, now: int, row: Row): Option<Memory>
    requires Sound(row.reading)
  {
    match row.reading
    case Off => None
    case Unusable => if m.None? || !m.value.skipped then Some(Memory(0, 0, [], true)) else m
    case Usable(spec) =>
      var c := Current(m, now, spec);
      if now < c.nextDue then Some(c)
      else Some(c.(retained := RetainedAfter(c.retained, spec.retain, row.entry, row.delivery),
                   nextDue := StepPast(c.nextDue, spec.interval, now)))
  }

  /** What the tick sends for the row: nothing, or what is retained and the new report. */
  function RowPush(m: Option<Memory>, now: int, row: Row): Option<Push>
    requires Sound(row.reading)
  {
    match row.reading
    case Usable(spec) =>
      var c := Current(m, now, spec);
      if now < c.nextDue || row.delivery.NotEncodable? then None
      else Some(Push(row.inst, c.retained + [row.entry]))
    case _ => None
  }

  /** A profile that is switched off is forgotten, one that cannot be delivered is remembered
      as skipped, and neither pushes anything. */
  lemma OffAndUnusable(m: Option<Memory>, now: int, row: Row)
    requires !row.reading.Usable?
    ensures RowPush(m, now, row) == None
    ensures row.reading.Off? ==> RowMemory(m, now, row) == None
    ensures row.reading.Unusable? ==> RowMemory(m, now, row).Some? && RowMemory(m, now, row).value.skipped
  {
  }

  /** A usable profile keeps its due time while its interval stays, and starts a new cadence
      otherwise; what it has retained it keeps in both cases. Before the due time nothing
      happens. From then on it pushes what is retained and the new report, and is due at the
      first point of its cadence after now. */
  lemma CadenceExactly(m: Option<Memory>, now: int, row: Row)
    requires row.reading.Usable? && row.reading.spec.interval > 0
    ensures var spec, held := row.reading.spec, if m.Some? then m.value.retained else [];
      var goesOn := m.Some? && !m.value.skipped && m.value.interval == spec.interval;
      var due := if goesOn then m.value.nextDue else FirstDue(now, spec);
      var e := RowMemory(m, now, row);
      && e.Some? && !e.value.skipped && e.value.interval == spec.interval
      && (now < due ==> e.value.nextDue == due && e.value.retained == held && RowPush(m, now, row) == None)
      && (now >= due ==> LeastAfter(due, spec.interval, now, e.value.nextDue))
      && (now >= due && row.delivery.NotEncodable? ==> RowPush(m, now, row) == None && e.value.retained == held)
      && (now >= due && !row.delivery.NotEncodable? ==>
        RowPush(m, now, row) == Some(Push(row.inst, held + [row.entry])))
  {
    hide FirstDue, StepPast, LeastAfter, Limit, LastOf;
    var due := Current(m, now, row.reading.spec).nextDue;
    if now >= due {
      StepPastIsLeast(due, row.reading.spec.interval, now);
    }
  }

  /** A delivered push leaves nothing to retain. A failed one is retained unless the profile
      retains none; of all that is retained the newest stay, as many as the profile says, or
      100 where it says a negative number or more than 100. */
  lemma RetainsExactly(m: Memory, now: int, row: Row)
    requires row.reading.Usable? && row.reading.spec.interval > 0
    requires !m.skipped && m.interval == row.reading.spec.interval && now >= m.nextDue
    ensures var n, all := row.reading.spec.retain, m.retained + [row.entry];
      var left := RowMemory(Some(m), now, row).value.retained;
      && (row.delivery.Delivered? ==> left == [])
      && (row.delivery.Failed? && n == 0 ==> left == m.retained)
      && (row.delivery.Failed? && 1 <= n <= 100 ==> left == all[if |all| > n then |all| - n else 0..])
      && (row.delivery.Failed? && (n < 0 || n > 100) ==> left == all[if |all| > 100 then |all| - 100 else 0..])
  {
    hide FirstDue, StepPast;
  }

  // ---------- One profile over many ticks ----------

  datatype Tick = Tick(now: int, entry: Report, delivery: Delivery)

  ghost predicate InOrder(start: int, ticks: seq<Tick>) {
    && (forall i | 0 <= i < |ticks| :: start <= ticks[i].now)
    && (forall i, j | 0 <= i < j < |ticks| :: ticks[i].now <= ticks[j].now)
  }

  function RowOf(inst: string, spec: Spec, t: Tick): Row {
    Row(inst, Usable(spec), t.entry, t.delivery)
  }

  /** The profile's memory after the ticks, its row staying as it is. */
  function AfterTicks(m: Memory, inst: string, spec: Spec, ticks: seq<Tick>): Memory
    requires spec.interval > 0
  {
    if ticks == [] then m
    else RowMemory(Some(AfterTicks(m, inst, spec, ticks[..|ticks| - 1])), ticks[|ticks| - 1].now,
                   RowOf(inst, spec, ticks[|ticks| - 1])).value
  }

  /** The reports that failed since the last delivery, oldest first. */
  function Undelivered(m: Memory, inst: string, spec: Spec, ticks: seq<Tick>): seq<Report>
    requires spec.interval > 0
  {
    if ticks == [] then []
    else
      var n := |ticks| - 1;
      var t := ticks[n];
      var before := Undelivered(m, inst, spec, ticks[..n]);
      if t.now < AfterTicks(m, inst, spec, ticks[..n]).nextDue then before
      else
        match t.delivery
        case Delivered => []
        case Failed => before + [t.entry]
        case NotEncodable => before
  }

  lemma InOrderPrefix(start: int, ticks: seq<Tick>, n: nat)
    requires InOrder(start, ticks) && n <= |ticks|
    ensures InOrder(start, ticks[..n])
  {
  }

  /** However late the ticks come, the next report is due at the first point after the last
      of them on the grid fixed at the start. */
  lemma {:induction false} GridIsKept(m: Memory, inst: string, spec: Spec, start: int, ticks: seq<Tick>)
    requires spec.interval > 0 && m.interval == spec.interval && !m.skipped && InOrder(start, ticks)
    ensures var e := AfterTicks(m, inst, spec, ticks);
      && e.interval == spec.interval && !e.skipped
      && (ticks != [] ==> e.nextDue == StepPast(m.nextDue, spec.interval, ticks[|ticks| - 1].now))
    ensures ticks != [] ==>
      LeastAfter(m.nextDue, spec.interval, ticks[|ticks| - 1].now, AfterTicks(m, inst, spec, ticks).nextDue)
  {
    if ticks != [] {
      var n := |ticks| - 1;
      InOrderPrefix(start, ticks, n);
      GridIsKept(m, inst, spec, start, ticks[..n]);
      if n > 0 {
        assert ticks[..n][n - 1] == ticks[n - 1];
        StepPastTwice(m.nextDue, spec.interval, ticks[n - 1].now, ticks[n].now);
      }
      StepPastIsLeast(m.nextDue, spec.interval, ticks[n].now);
    }
  }

  lemma LastOfGrows<T>(s: seq<T>, x: T, n: nat)
    ensures LastOf(LastOf(s, n) + [x], n) == LastOf(s + [x], n)
  {
  }

  /** What is retained is exactly the newest undelivered reports, oldest first. */
  lemma {:induction false} RetainsTheNewest(m: Memory, inst: string, spec: Spec, start: int, ticks: seq<Tick>)
    requires spec.interval > 0 && m.interval == spec.interval && !m.skipped && InOrder(start, ticks)
    requires spec.retain != 0 && m.retained == []
    ensures AfterTicks(m, inst, spec, ticks).retained == LastOf(Undelivered(m, inst, spec, ticks), Limit(spec.retain))
  {
    hide StepPast, LastOf, Limit;
    if ticks == [] {
      NothingLast(Limit(spec.retain));
    } else {
      var n := |ticks| - 1;
      InOrderPrefix(start, ticks, n);
      RetainsTheNewest(m, inst, spec, start, ticks[..n]);
      GridIsKept(m, inst, spec, start, ticks[..n]);
      LastOfGrows(Undelivered(m, inst, spec, ticks[..n]), ticks[n].entry, Limit(spec.retain));
      NothingLast(Limit(spec.retain));
    }
  }

  lemma NothingLast(n: nat)
    ensures LastOf<Report>([], n) == []
  {
  }

  /** The next push sends the retained reports before its own. */
  lemma PushSendsRetainedFirst(m: Memory, inst: string, spec: Spec, start: int, ticks: seq<Tick>, t: Tick)
    requires spec.interval > 0 && m.interval == spec.interval && !m.skipped && InOrder(start, ticks + [t])
    requires spec.retain != 0 && m.retained == []
    ensures var p := RowPush(Some(AfterTicks(m, inst, spec, ticks)), t.now, RowOf(inst, spec, t));
      && (p.Some? <==> t.now >= AfterTicks(m, inst, spec, ticks).nextDue && !t.delivery.NotEncodable?)
      && (p.Some? ==> p.value.reports == LastOf(Undelivered(m, inst, spec, ticks), Limit(spec.retain)) + [t.entry])
  {
    hide StepPast, LastOf, Limit;
    InOrderPrefix(start, ticks + [t], |ticks|);
    assert (ticks + [t])[..|ticks|] == ticks;
    RetainsTheNewest(m, inst, spec, start, ticks);
    GridIsKept(m, inst, spec, start, ticks);
  }

  // ---------- The collector ----------

  class ProfileState {
    var interval: int
    var nextDue: int
    var retained: seq<Report>
    var skipped: bool

    constructor (interval: int, nextDue: int, retained: seq<Report>, skipped: bool)
      ensures View() == Memory(interval, nextDue, retained, skipped)
    {
      this.interval, this.nextDue, this.retained, this.skipped := interval, nextDue, retained, skipped;
    }

    function View(): Memory
      reads this
    {
      Memory(interval, nextDue, retained, skipped)
    }

    /** One report: the retained ones first, then the new one. */
    method Send(inst: string, spec: Spec, entry: Report, delivery: Delivery) returns (pushed: Option<Push>)
      modifies this`retained
      ensures retained == RetainedAfter(old(retained), spec.retain, entry, delivery)
      ensures pushed == if delivery.NotEncodable? then None else Some(Push(inst, old(retained) + [entry]))
    {
      var reports := retained + [entry];
      if delivery.NotEncodable? {
        return None;
      }
      pushed := Some(Push(inst, reports));
      if delivery.Delivered? {
        retained := [];
        return;
      }
      if spec.retain == 0 {
        return;
      }
      retained := retained + [entry];
      var limit := spec.retain;
      if limit < 0 || limit > MAX_RETAINED {
        limit := MAX_RETAINED;
      }
      if |retained| > limit {
        var lost := |retained| - limit;
        retained := retained[lost..];
      }
    }
  }

  class Collector {
    var profiles: map<string, ProfileState>

    /** No two profiles share a state. */
    ghost predicate Valid()
      reads this
    {
      forall a, b | a in profiles && b in profiles && profiles[a] == profiles[b] :: a == b
    }

    ghost function Recall(inst: string): Option<Memory>
      reads this, profiles.Values
    {
      if inst in profiles then Some(profiles[inst].View()) else None
    }

    constructor ()
      ensures Valid() && profiles == map[]
    {
      profiles := map[];
    }

    /** The body of a tick for one row. */
    method TickRow(now: int, row: Row) returns (pushed: Option<Push>, live: bool)
      requires Valid() && Sound(row.reading)
      modifies this, profiles.Values
      ensures Valid() && fresh(profiles.Values - old(profiles.Values))
      ensures Recall(row.inst) == RowMemory(old(Recall(row.inst)), now, row)
      ensures forall other | other != row.inst :: Recall(other) == old(Recall(other))
      ensures pushed == RowPush(old(Recall(row.inst)), now, row)
      ensures live == row.reading.Usable?
    {
      hide StepPast, RetainedAfter, FirstDue;
      pushed, live := None, row.reading.Usable?;
      var known := row.inst in profiles;
      match row.reading {
        case Off =>
          profiles := profiles - {row.inst};
        case Unusable =>
          if !known || !profiles[row.inst].skipped {
            Remember(row.inst, 0, 0, [], true);
          }
        case Usable(spec) =>
          if !known || profiles[row.inst].skipped || profiles[row.inst].interval != spec.interval {
            var kept := if known then profiles[row.inst].retained else [];
            Remember(row.inst, spec.interval, FirstDue(now, spec), kept, false);
          }
          assert Recall(row.inst) == Some(Current(old(Recall(row.inst)), now, spec));
          var st := profiles[row.inst];
          assert forall other | other in profiles && other != row.inst :: profiles[other] != st;
          if now < st.nextDue {
            return;
          }
          pushed := st.Send(row.inst, spec, row.entry, row.delivery);
          CatchUp(st, spec.interval, now);
      }
    }

    /** Files a new state under the name. */
    method Remember(inst: string, interval: int, nextDue: int, retained: seq<Report>, skipped: bool)
      requires Valid()
      modifies this
      ensures Valid() && inst in profiles && fresh(profiles[inst])
      ensures profiles == old(profiles)[inst := profiles[inst]]
      ensures profiles[inst].View() == Memory(interval, nextDue, retained, skipped)
    {
      var st := new ProfileState(interval, nextDue, retained, skipped);
      profiles := profiles[inst := st];
    }

    /** Steps past the present, so a stalled process does not burst a backlog. */
    method CatchUp(st: ProfileState, interval: int, now: int)
      requires interval > 0
      modifies st`nextDue
      ensures st.nextDue == StepPast(old(st.nextDue), interval, now)
    {
      while st.nextDue <= now
        invariant StepPast(st.nextDue, interval, now) == StepPast(old(st.nextDue), interval, now)
        decreases now - st.nextDue
      {
        st.nextDue := st.nextDue + interval;
      }
    }

    ghost function RecallAll(): map<string, Memory>
      reads this, profiles.Values
    {
      map inst | inst in profiles :: profiles[inst].View()
    }

    /** Reads every row of the profile table, pushes what is due, and forgets the profiles
        whose rows are gone. */
    method Tick(now: int, rows: seq<Row>) returns (pushes: seq<Push>)
      requires Valid() && (forall i | 0 <= i < |rows| :: Sound(rows[i].reading)) && DistinctRows(rows)
      modifies this, profiles.Values
      ensures Valid()
      ensures forall i | 0 <= i < |rows| ::
        Recall(rows[i].inst) == RowMemory(old(Recall(rows[i].inst)), now, rows[i])
      ensures forall inst | !Named(rows, inst) ::
        Recall(inst) == var m := old(Recall(inst)); if m.Some? && m.value.skipped then m else None
      ensures pushes == PushesUpTo(old(RecallAll()), now, rows, |rows|)
    {
      hide RowMemory, RowPush, Named, DistinctRows, Sound;
      pushes := [];
      var live: set<string> := {};
      ghost var was, all := profiles.Values, RecallAll();
      for i := 0 to |rows|
        invariant Valid() && fresh(profiles.Values - was)
        invariant forall k | 0 <= k < i :: Recall(rows[k].inst) == RowMemory(Known(all, rows[k].inst), now, rows[k])
        invariant forall inst | !Named(rows[..i], inst) :: Recall(inst) == Known(all, inst)
        invariant pushes == PushesUpTo(all, now, rows, i)
        invariant live == set k | 0 <= k < i && rows[k].reading.Usable? :: rows[k].inst
      {
        StillUnread(rows, i);
        var pushed, usable := TickRow(now, rows[i]);
        if pushed.Some? {
          pushes := pushes + [pushed.value];
        }
        if usable {
          live := live + {rows[i].inst};
        }
      }
      assert rows[..|rows|] == rows;
      Forget(live, now, all, rows);
    }

    /** Deletes the profiles no row keeps alive, unless they are remembered as skipped. */
    method Forget(live: set<string>, now: int, ghost all: map<string, Memory>, ghost rows: seq<Row>)
      requires Valid() && (forall i | 0 <= i < |rows| :: Sound(rows[i].reading)) && DistinctRows(rows)
      requires forall i | 0 <= i < |rows| :: Recall(rows[i].inst) == RowMemory(Known(all, rows[i].inst), now, rows[i])
      requires forall inst | !Named(rows, inst) :: Recall(inst) == Known(all, inst)
      requires live == set k | 0 <= k < |rows| && rows[k].reading.Usable? :: rows[k].inst
      modifies this
      ensures Valid()
      ensures forall i | 0 <= i < |rows| :: Recall(rows[i].inst) == RowMemory(Known(all, rows[i].inst), now, rows[i])
      ensures forall inst | !Named(rows, inst) ::
        Recall(inst) == var m := Known(all, inst); if m.Some? && m.value.skipped then m else None
    {
      profiles := map inst | inst in profiles && (inst in live || profiles[inst].skipped) :: profiles[inst];
      forall i | 0 <= i < |rows|
        ensures Recall(rows[i].inst) == RowMemory(Known(all, rows[i].inst), now, rows[i])
      {
        KeptByItsRow(old(Recall(rows[i].inst)), Known(all, rows[i].inst), now, rows[i]);
        assert rows[i].reading.Usable? ==> rows[i].inst in live;
      }
      assert forall inst | !Named(rows, inst) :: inst !in live;
    }
  }

  ghost predicate DistinctRows(rows: seq<Row>) {
    forall i, j | 0 <= i < j < |rows| :: rows[i].inst != rows[j].inst
  }

  ghost predicate Named(rows: seq<Row>, inst: string) {
    exists i :: 0 <= i < |rows| && rows[i].inst == inst
  }

  function Known(all: map<string, Memory>, inst: string): Option<Memory> {
    if inst in all then Some(all[inst]) else None
  }

  /** The pushes for the first n rows, at most one for each. */
  function PushesUpTo(all: map<string, Memory>, now: int, rows: seq<Row>, n: nat): seq<Push>
    requires n <= |rows| && forall i | 0 <= i < |rows| :: Sound(rows[i].reading)
  {
    if n == 0 then []
    else
      var p := RowPush(Known(all, rows[n - 1].inst), now, rows[n - 1]);
      PushesUpTo(all, now, rows, n - 1) + (if p.Some? then [p.value] else [])
  }

  lemma StillUnread(rows: seq<Row>, i: nat)
    requires DistinctRows(rows) && i < |rows|
    ensures !Named(rows[..i], rows[i].inst) && forall k | 0 <= k < i :: rows[k].inst != rows[i].inst
    ensures forall inst :: Named(rows[..i + 1], inst) <==> Named(rows[..i], inst) || inst == rows[i].inst
  {
    forall inst
      ensures Named(rows[..i + 1], inst) <==> Named(rows[..i], inst) || inst == rows[i].inst
    {
      if Named(rows[..i], inst) {
        var k :| 0 <= k < i && rows[..i][k].inst == inst;
        assert rows[..i + 1][k].inst == inst;
      }
      assert rows[..i + 1][i] == rows[i];
    }
  }

  /** What a row leaves is either usable, or nothing, or remembered as skipped. */
  lemma KeptByItsRow(left: Option<Memory>, was: Option<Memory>, now: int, row: Row)
    requires Sound(row.reading) && left == RowMemory(was, now, row)
    ensures left.None? || row.reading.Usable? || left.value.skipped
  {
    hide StepPast, RetainedAfter, FirstDue;
  }
}
