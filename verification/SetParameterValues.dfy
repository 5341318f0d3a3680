// SetParameterValues (internal/cwmp/handlers/setparametervalues.go) and the work it may
// put off until the session has ended (internal/cwmp/aftersession.go). TR-069 section
// A.3.2.1: Status 0 has applied every value, Status 1 has checked them and will.
module SpvHandlers {
  import opened Options
  import opened Paths
  import opened ParamStores
  import opened ParamBatches
  import opened ParamNodes
  import opened ParamTrees

  datatype Entry = Entry(name: string, raw: string)

  datatype ParamFault = ParamFault(name: string, code: int)

  /** A fault's own code is always 9003; it names every parameter at fault. */
  datatype Answer = Status(status: int) | Fault(code: int, faults: seq<ParamFault>)

  type Batch = seq<Setter>

  function WireCode(code: Code): int {
    match code
    case MissingLeaf => 9005
    case NotWritable => 9008
    case TypeMismatch => 9006
    case InvalidValue => 9007
    case DuplicatePath => 9003
  }

  function Rendered(faults: seq<EntryFault>): Answer {
    Fault(9003, seq(|faults|, i requires 0 <= i < |faults| => ParamFault(faults[i].path, WireCode(faults[i].code))))
  }

  // ---------- Preparing a request ----------

  ghost predicate Known(s: Store, e: Entry) {
    Readable(s, e.name).Ok?
  }

  /** The entry as a setter that keeps the leaf's own type and writability. */
  function Typed(cur: Value, e: Entry): Setter {
    Setter(e.name, Value(cur.vtype, e.raw, cur.writable))
  }

  /** The setters of the first n entries, when the tree knows them all. */
  ghost function Prepared(s: Store, entries: seq<Entry>, n: nat): Batch
    requires n <= |entries|
  {
    if n == 0 then []
    else
      var cur := Readable(s, entries[n - 1].name);
      Prepared(s, entries, n - 1) + (if cur.Ok? then [Typed(cur.value, entries[n - 1])] else [])
  }

  ghost function Unknown(s: Store, entries: seq<Entry>, n: nat): seq<ParamFault>
    requires n <= |entries|
  {
    if n == 0 then []
    else Unknown(s, entries, n - 1) + (if Known(s, entries[n - 1]) then [] else [ParamFault(entries[n - 1].name, 9005)])
  }

  /** Every setter keeps the type and writability of the leaf it names. */
  ghost predicate KeepsKinds(s: Store, batch: Batch) {
    forall e | e in batch :: KeepsKind(s, e)
  }

  ghost predicate KeepsKind(s: Store, e: Setter) {
    Readable(s, e.path).Ok?
    && Readable(s, e.path).value.vtype == e.value.vtype && Readable(s, e.path).value.writable == e.value.writable
  }

  lemma {:induction false} PreparedKeepsKinds(s: Store, entries: seq<Entry>, n: nat)
    requires n <= |entries|
    ensures KeepsKinds(s, Prepared(s, entries, n))
  {
    hide ParsePath;
    if n > 0 {
      PreparedKeepsKinds(s, entries, n - 1);
    }
  }

  lemma {:induction false} PreparedMatchesEntries(s: Store, entries: seq<Entry>, n: nat)
    requires n <= |entries| && Unknown(s, entries, n) == []
    ensures |Prepared(s, entries, n)| == n
    ensures forall i | 0 <= i < n :: Prepared(s, entries, n)[i].path == entries[i].name
    ensures forall i | 0 <= i < n :: Prepared(s, entries, n)[i].value.raw == entries[i].raw
  {
    hide Readable;
    if n > 0 {
      PreparedMatchesEntries(s, entries, n - 1);
    }
  }

  // ---------- Batches that keep kinds ----------

  lemma KindSurvives(s: Store, t: Store, e: Setter)
    requires SameLeaves(s, t) && KeepsKind(s, e)
    ensures KeepsKind(t, e)
  {
    hide ParsePath;
    var p := ParsePath(e.path).value;
    assert LeafKind(s[p]) == LeafKind(t[p]);
  }

  lemma {:induction false} AppliedKeepsLeaves(s: Store, batch: Batch, n: nat)
    requires n <= |batch| && KeepsKinds(s, batch)
    requires forall i | 0 <= i < n :: Lands(s, batch[i])
    ensures SameLeaves(s, AppliedUpTo(s, batch, n))
  {
    hide ParsePath;
    if n > 0 {
      AppliedKeepsLeaves(s, batch, n - 1);
      var e, t := batch[n - 1], AppliedUpTo(s, batch, n - 1);
      assert KeepsKind(s, e) && Lands(s, e);
      KindSurvives(s, t, e);
    }
  }

  lemma SameLeavesThrough(s: Store, t: Store, u: Store)
    requires SameLeaves(s, t) && SameLeaves(t, u)
    ensures SameLeaves(s, u)
  {
    forall p | p in s
      ensures LeafKind(s[p]) == LeafKind(u[p])
    {
      assert p in t;
    }
  }

  lemma {:induction false} FaultlessLands(s: Store, rule: Rule, batch: Batch)
    requires Faults(s, rule, batch) == []
    ensures forall i | 0 <= i < |batch| :: Lands(s, batch[i])
  {
    hide ParsePath;
    PassesExactly(s, rule, batch);
    forall i | 0 <= i < |batch|
      ensures Lands(s, batch[i])
    {
      assert Acceptable(s, rule, batch[i]);
    }
  }

  /** What SetBatch leaves: all of the batch, or the tree as it was. */
  ghost function AfterBatch(s: Store, rule: Rule, batch: Batch): Store {
    if Faults(s, rule, batch) == [] then
      FaultlessLands(s, rule, batch);
      AppliedUpTo(s, batch, |batch|)
    else s
  }

  lemma AfterBatchKeepsLeaves(s: Store, rule: Rule, batch: Batch)
    requires KeepsKinds(s, batch)
    ensures SameLeaves(s, AfterBatch(s, rule, batch))
  {
    if Faults(s, rule, batch) == [] {
      FaultlessLands(s, rule, batch);
      AppliedKeepsLeaves(s, batch, |batch|);
    }
  }

  // ---------- One request ----------

  predicate Touches(deferred: set<string>, batch: Batch) {
    exists i | 0 <= i < |batch| :: batch[i].path in deferred
  }

  /** The tree, what waits for the session's end, and the answers so far. */
  datatype Desk = Desk(store: Store, waiting: seq<Batch>)

  datatype Policy = Policy(rule: Rule, deferred: set<string>, hasAfter: bool)

  ghost function Handled(d: Desk, pol: Policy, entries: seq<Entry>): (Desk, Answer) {
    var unknown, batch := Unknown(d.store, entries, |entries|), Prepared(d.store, entries, |entries|);
    var faults := Faults(d.store, pol.rule, batch);
    if unknown != [] then (d, Fault(9003, unknown))
    else if faults != [] then (d, Rendered(faults))
    else if pol.hasAfter && Touches(pol.deferred, batch) then (d.(waiting := d.waiting + [batch]), Status(1))
    else (d.(store := AfterBatch(d.store, pol.rule, batch)), Status(0))
  }

  /** The waiting batches in acceptance order, each applied if it still passes. */
  ghost function Settled(s: Store, rule: Rule, waiting: seq<Batch>): Store {
    if waiting == [] then s
    else AfterBatch(Settled(s, rule, waiting[..|waiting| - 1]), rule, waiting[|waiting| - 1])
  }

  // ---------- One session ----------

  /** What can happen to the tree while batches wait: requests, and other value writes. */
  datatype Deed = Request(entries: seq<Entry>) | Write(to: Store)

  ghost function Done(d: Desk, pol: Policy, deed: Deed): Desk {
    match deed
    case Request(entries) => Handled(d, pol, entries).0
    case Write(to) => d.(store := to)
  }

  ghost function Through(d: Desk, pol: Policy, deeds: seq<Deed>): Desk {
    if deeds == [] then d else Done(Through(d, pol, deeds[..|deeds| - 1]), pol, deeds[|deeds| - 1])
  }

  /** Every write that is not a request's keeps each leaf's type and writability. */
  ghost predicate Gentle(d: Desk, pol: Policy, deeds: seq<Deed>) {
    forall i | 0 <= i < |deeds| && deeds[i].Write? :: SameLeaves(Through(d, pol, deeds[..i]).store, deeds[i].to)
  }

  /** The requests answered with Status 1, in order, as the setters they asked for. */
  ghost function Accepted(d: Desk, pol: Policy, deeds: seq<Deed>): seq<Batch> {
    if deeds == [] then []
    else
      var n := |deeds| - 1;
      var before := Through(d, pol, deeds[..n]);
      var rest := Accepted(d, pol, deeds[..n]);
      match deeds[n]
      case Request(entries) =>
        if Handled(before, pol, entries).1 != Status(1) then rest
        else rest + [Prepared(before.store, entries, |entries|)]
      case Write(_) => rest
  }

  /** A waiting batch that would still pass, and keeps kinds. */
  ghost predicate Standing(s: Store, rule: Rule, batch: Batch) {
    Faults(s, rule, batch) == [] && KeepsKinds(s, batch)
  }

  ghost predicate AllStanding(s: Store, rule: Rule, waiting: seq<Batch>) {
    forall b | b in waiting :: Standing(s, rule, b)
  }

  lemma StandingSurvives(s: Store, t: Store, rule: Rule, waiting: seq<Batch>)
    requires SameLeaves(s, t) && AllStanding(s, rule, waiting)
    ensures AllStanding(t, rule, waiting)
  {
    hide ParsePath, SameLeaves, KeepsKind;
    forall b | b in waiting
      ensures Standing(t, rule, b)
    {
      assert Standing(s, rule, b);
      VerdictSurvives(s, t, rule, b, |b|);
      forall e | e in b
        ensures KeepsKind(t, e)
      {
        KindSurvives(s, t, e);
      }
    }
  }

  lemma RequestKeepsStanding(d: Desk, pol: Policy, entries: seq<Entry>)
    requires AllStanding(d.store, pol.rule, d.waiting)
    ensures var e := Handled(d, pol, entries).0; AllStanding(e.store, pol.rule, e.waiting)
  {
    hide SameLeaves, KeepsKinds, Faults, AfterBatch, Touches;
    var batch := Prepared(d.store, entries, |entries|);
    PreparedKeepsKinds(d.store, entries, |entries|);
    AfterBatchKeepsLeaves(d.store, pol.rule, batch);
    StandingSurvives(d.store, AfterBatch(d.store, pol.rule, batch), pol.rule, d.waiting);
  }

  lemma {:induction false} BatchesStand(d: Desk, pol: Policy, deeds: seq<Deed>)
    requires Gentle(d, pol, deeds) && AllStanding(d.store, pol.rule, d.waiting)
    ensures var e := Through(d, pol, deeds);
      AllStanding(e.store, pol.rule, e.waiting) && e.waiting == d.waiting + Accepted(d, pol, deeds)
  {
    hide SameLeaves, AllStanding, Prepared, Unknown, Faults, AfterBatch;
    if deeds != [] {
      var n := |deeds| - 1;
      var mid := Through(d, pol, deeds[..n]);
      assert Gentle(d, pol, deeds[..n]) by {
        assert forall i | 0 <= i < n :: deeds[..n][..i] == deeds[..i];
      }
      BatchesStand(d, pol, deeds[..n]);
      match deeds[n] {
        case Request(entries) => RequestKeepsStanding(mid, pol, entries);
        case Write(to) => StandingSurvives(mid.store, to, pol.rule, mid.waiting);
      }
    }
  }

  /** Each batch passes when its turn comes. */
  ghost predicate InFull(s: Store, rule: Rule, waiting: seq<Batch>) {
    forall i | 0 <= i < |waiting| :: Faults(Settled(s, rule, waiting[..i]), rule, waiting[i]) == []
  }

  lemma {:induction false} StandingSettles(s: Store, rule: Rule, waiting: seq<Batch>)
    requires AllStanding(s, rule, waiting)
    ensures InFull(s, rule, waiting) && SameLeaves(s, Settled(s, rule, waiting))
  {
    hide SameLeaves, Faults, AfterBatch, KeepsKinds, Standing, InFull;
    if waiting == [] {
      EachIsItself(s);
      NoneInFull(s, rule, waiting);
    } else {
      var n := |waiting| - 1;
      var t, b := Settled(s, rule, waiting[..n]), waiting[n];
      StandingSettles(s, rule, waiting[..n]);
      StandingSurvives(s, t, rule, waiting);
      assert b in waiting;
      StandingPasses(t, rule, b);
      SameLeavesThrough(s, t, AfterBatch(t, rule, b));
      OneMoreInFull(s, rule, waiting, n);
    }
  }

  lemma NoneInFull(s: Store, rule: Rule, waiting: seq<Batch>)
    requires waiting == []
    ensures InFull(s, rule, waiting)
  {
  }

  lemma OneMoreInFull(s: Store, rule: Rule, waiting: seq<Batch>, n: nat)
    requires n + 1 == |waiting| && InFull(s, rule, waiting[..n])
    requires Faults(Settled(s, rule, waiting[..n]), rule, waiting[n]) == []
    ensures InFull(s, rule, waiting)
  {
    hide Faults, Settled;
    forall i | 0 <= i < |waiting|
      ensures Faults(Settled(s, rule, waiting[..i]), rule, waiting[i]) == []
    {
      if i < n {
        assert waiting[..n][..i] == waiting[..i] && waiting[..n][i] == waiting[i];
      }
    }
  }

  lemma StandingPasses(t: Store, rule: Rule, b: Batch)
    requires Standing(t, rule, b)
    ensures Faults(t, rule, b) == [] && SameLeaves(t, AfterBatch(t, rule, b))
  {
    hide SameLeaves, Faults, AfterBatch, KeepsKinds;
    AfterBatchKeepsLeaves(t, rule, b);
  }

  lemma EachIsItself(s: Store)
    ensures SameLeaves(s, s)
  {
  }

  /** Over any session whose other writes keep types and writability, every request
      answered with Status 1 is applied in full, once and in acceptance order. */
  lemma StatusOneIsKept(d: Desk, pol: Policy, deeds: seq<Deed>)
    requires d.waiting == [] && Gentle(d, pol, deeds)
    ensures var e := Through(d, pol, deeds);
      e.waiting == Accepted(d, pol, deeds) && InFull(e.store, pol.rule, e.waiting)
  {
    BatchesStand(d, pol, deeds);
    var e := Through(d, pol, deeds);
    StandingSettles(e.store, pol.rule, e.waiting);
  }

  /** Where a batch that passes names a leaf, its value is what stays, until the next. */
  lemma BatchPutsValues(s: Store, rule: Rule, batch: Batch, q: Path)
    requires Faults(s, rule, batch) == [] && q in s
    ensures var t := AfterBatch(s, rule, batch);
      && q in t
      && (forall i | 0 <= i < |batch| && ParsePath(batch[i].path) == Some(q) :: t[q].leaf == Some(batch[i].value))
      && ((forall i | 0 <= i < |batch| :: ParsePath(batch[i].path) != Some(q)) ==> t[q] == s[q])
  {
    hide ParsePath;
    PassesExactly(s, rule, batch);
    AppliedOverwrites(s, rule, batch, |batch|);
    assert batch[..|batch|] == batch;
    assert OverwrittenAt(s, AfterBatch(s, rule, batch), batch, q);
  }

  /** The last waiting batch to name a leaf decides its value. */
  lemma {:induction false} LastBatchDecides(s: Store, rule: Rule, waiting: seq<Batch>, i: nat, j: nat, q: Path)
    requires AllStanding(s, rule, waiting) && q in s
    requires i < |waiting| && j < |waiting[i]| && ParsePath(waiting[i][j].path) == Some(q)
    requires forall k, l | i < k < |waiting| && 0 <= l < |waiting[k]| :: ParsePath(waiting[k][l].path) != Some(q)
    ensures q in Settled(s, rule, waiting)
    ensures Settled(s, rule, waiting)[q].leaf == Some(waiting[i][j].value)
  {
    hide ParsePath, Faults, AfterBatch;
    var n := |waiting| - 1;
    StandingSettles(s, rule, waiting);
    StandingSettles(s, rule, waiting[..n]);
    BatchPutsValues(Settled(s, rule, waiting[..n]), rule, waiting[n], q);
    if i < n {
      LastBatchDecides(s, rule, waiting[..n], i, j, q);
    }
  }

  // ---------- What an answer means ----------

  ghost predicate AllKnown(s: Store, entries: seq<Entry>) {
    forall e | e in entries :: Readable(s, e.name).Ok?
  }

  /** What is wrong with an entry, as the wire has it; 0 when nothing is. While some name
      leads to no leaf, only such names are complained of. */
  ghost function EntryCode(s: Store, rule: Rule, entries: seq<Entry>, i: nat): int
    requires i < |entries|
  {
    var cur := Readable(s, entries[i].name);
    if cur.Err? then 9005
    else if !AllKnown(s, entries) then 0
    else if NamedBefore(entries, i) then 9003
    else if !cur.value.writable then 9008
    else if !rule(cur.value.vtype, entries[i].raw) then 9007
    else 0
  }

  ghost predicate NamedBefore(entries: seq<Entry>, i: nat)
    requires i < |entries|
  {
    exists j | 0 <= j < i :: ParsePath(entries[j].name) == ParsePath(entries[i].name)
  }

  /** The complaints about the first n entries, in request order. */
  ghost function Complaints(s: Store, rule: Rule, entries: seq<Entry>, n: nat): seq<ParamFault>
    requires n <= |entries|
  {
    if n == 0 then []
    else
      var code := EntryCode(s, rule, entries, n - 1);
      Complaints(s, rule, entries, n - 1) + (if code == 0 then [] else [ParamFault(entries[n - 1].name, code)])
  }

  /** Each entry's leaf reads as the entry's text, with the type and the writability it had,
      and every other cell is as before. */
  ghost predicate Carried(s: Store, t: Store, entries: seq<Entry>) {
    && (forall e | e in entries :: ReadsAnew(s, t, e))
    && t.Keys == s.Keys
    && (forall q | q in s && !(exists e :: e in entries && ParsePath(e.name) == Some(q)) :: t[q] == s[q])
  }

  ghost predicate ReadsAnew(s: Store, t: Store, e: Entry) {
    Readable(s, e.name).Ok? && Readable(t, e.name) == Ok(Readable(s, e.name).value.(raw := e.raw))
  }

  /** The batch asks for the entries' texts, in order, under the types the leaves have. */
  ghost predicate AsksFor(s: Store, entries: seq<Entry>, batch: Batch) {
    && |batch| == |entries|
    && forall i | 0 <= i < |entries| ::
      && Readable(s, entries[i].name).Ok?
      && batch[i] == Setter(entries[i].name, Readable(s, entries[i].name).value.(raw := entries[i].raw))
  }

  /** A request with a complaint is refused with every complaint; any other is answered with
      Status 1 if one of its names is spelled as a deferred one, and with Status 0 if none is.
      Status 0 has written every entry and put off nothing; Status 1 has written nothing and
      put off one batch, the request's; a refusal has done neither. */
  ghost predicate Answered(s: Store, waiting: seq<Batch>, pol: Policy, entries: seq<Entry>, t: Store,
                           waiting': seq<Batch>, answer: Answer) {
    var complaints := Complaints(s, pol.rule, entries, |entries|);
    && (complaints != [] ==> answer == Fault(9003, complaints))
    && (complaints == [] && pol.hasAfter && (exists e :: e in entries && e.name in pol.deferred) ==>
      answer == Status(1))
    && (complaints == [] && !(pol.hasAfter && exists e :: e in entries && e.name in pol.deferred) ==>
      answer == Status(0))
    && (answer == Status(0) ==> Carried(s, t, entries) && waiting' == waiting)
    && (answer == Status(1) ==>
      t == s && |waiting'| == |waiting| + 1 && waiting <= waiting' && AsksFor(s, entries, waiting'[|waiting|]))
    && (answer.Fault? ==> t == s && waiting' == waiting)
  }

  lemma {:induction false} NoneUnknown(s: Store, entries: seq<Entry>, n: nat)
    requires n <= |entries|
    ensures Unknown(s, entries, n) == [] <==> forall i | 0 <= i < n :: Known(s, entries[i])
  {
    hide Known;
    if n > 0 {
      NoneUnknown(s, entries, n - 1);
    }
  }

  lemma UnknownCode(s: Store, rule: Rule, entries: seq<Entry>, i: nat)
    requires i < |entries| && !AllKnown(s, entries)
    ensures EntryCode(s, rule, entries, i) == if Known(s, entries[i]) then 0 else 9005
  {
    hide Readable, AllKnown;
  }

  lemma {:induction false} UnknownMeansComplaints(s: Store, rule: Rule, entries: seq<Entry>, n: nat)
    requires n <= |entries| && !AllKnown(s, entries)
    ensures Unknown(s, entries, n) == Complaints(s, rule, entries, n)
  {
    hide Known, AllKnown, EntryCode;
    if n > 0 {
      UnknownMeansComplaints(s, rule, entries, n - 1);
      UnknownCode(s, rule, entries, n - 1);
    }
  }

  lemma KnownMeansNoneUnknown(s: Store, entries: seq<Entry>)
    ensures AllKnown(s, entries) <==> Unknown(s, entries, |entries|) == []
  {
    hide Readable;
    NoneUnknown(s, entries, |entries|);
    assert AllKnown(s, entries) <==> forall i | 0 <= i < |entries| :: Known(s, entries[i]);
  }

  lemma {:induction false} PreparedAsks(s: Store, entries: seq<Entry>, n: nat)
    requires n <= |entries| && AllKnown(s, entries)
    ensures AsksFor(s, entries[..n], Prepared(s, entries, n))
  {
    hide Readable;
    if n > 0 {
      PreparedAsks(s, entries, n - 1);
      assert entries[n - 1] in entries;
    }
  }

  lemma CodeMeansComplaint(s: Store, rule: Rule, entries: seq<Entry>, batch: Batch, i: nat)
    requires AllKnown(s, entries) && AsksFor(s, entries, batch) && i < |entries|
    ensures var code := CodeOf(s, rule, batch, i);
      EntryCode(s, rule, entries, i) == if code.None? then 0 else WireCode(code.value)
  {
    hide ParsePath;
    assert entries[i] in entries;
    assert Repeats(batch, i) <==> NamedBefore(entries, i);
  }

  lemma {:induction false} FaultsMeanComplaints(s: Store, rule: Rule, entries: seq<Entry>, batch: Batch, n: nat)
    requires AllKnown(s, entries) && AsksFor(s, entries, batch) && n <= |entries|
    ensures Rendered(FaultsUpTo(s, rule, batch, n)) == Fault(9003, Complaints(s, rule, entries, n))
    ensures FaultsUpTo(s, rule, batch, n) == [] <==> Complaints(s, rule, entries, n) == []
  {
    hide ParsePath, Readable, CodeOf, EntryCode, AllKnown;
    if n > 0 {
      FaultsMeanComplaints(s, rule, entries, batch, n - 1);
      CodeMeansComplaint(s, rule, entries, batch, n - 1);
    }
  }

  lemma TouchesByName(s: Store, deferred: set<string>, entries: seq<Entry>, batch: Batch)
    requires AsksFor(s, entries, batch)
    ensures Touches(deferred, batch) <==> exists e :: e in entries && e.name in deferred
  {
    hide Readable;
    if i :| 0 <= i < |batch| && batch[i].path in deferred {
      assert entries[i] in entries;
    }
    if e :| e in entries && e.name in deferred {
      var i :| 0 <= i < |entries| && entries[i] == e;
      assert batch[i].path in deferred;
    }
  }

  lemma BatchCarries(s: Store, rule: Rule, entries: seq<Entry>, batch: Batch)
    requires AsksFor(s, entries, batch) && Faults(s, rule, batch) == []
    ensures Carried(s, AfterBatch(s, rule, batch), entries)
  {
    hide ParsePath, Faults, Readable, AppliedUpTo;
    var t := AfterBatch(s, rule, batch);
    BatchReads(s, rule, batch);
    forall e | e in entries
      ensures ReadsAnew(s, t, e)
    {
      var i :| 0 <= i < |entries| && entries[i] == e;
      assert batch[i] in batch;
    }
    forall q | q in s && !(exists e :: e in entries && ParsePath(e.name) == Some(q))
      ensures t[q] == s[q]
    {
      forall i | 0 <= i < |batch|
        ensures ParsePath(batch[i].path) != Some(q)
      {
        assert entries[i] in entries;
      }
      BatchPutsValues(s, rule, batch, q);
    }
  }

  /** Every request, whatever it asks for. */
  lemma RequestsAreAnswered(d: Desk, pol: Policy, entries: seq<Entry>)
    ensures var (e, answer) := Handled(d, pol, entries);
      Answered(d.store, d.waiting, pol, entries, e.store, e.waiting, answer)
  {
    hide ParsePath, Readable, FaultsUpTo, Rendered, Prepared, Complaints, Unknown, Touches, AfterBatch, Carried;
    var s, n := d.store, |entries|;
    KnownMeansNoneUnknown(s, entries);
    if !AllKnown(s, entries) {
      UnknownMeansComplaints(s, pol.rule, entries, n);
    } else {
      assert entries[..n] == entries;
      PreparedAsks(s, entries, n);
      var batch := Prepared(s, entries, n);
      FaultsMeanComplaints(s, pol.rule, entries, batch, n);
      TouchesByName(s, pol.deferred, entries, batch);
      if Faults(s, pol.rule, batch) == [] {
        BatchCarries(s, pol.rule, entries, batch);
      }
    }
  }

  // ---------- The deferral switch ----------

  /** The two paths lead to the same node. */
  predicate SameNode(a: string, b: string) {
    ParsePath(a).Some? && ParsePath(a) == ParsePath(b)
  }

  lemma RootIsNothing()
    ensures Join([]) == ""
  {
  }

  lemma SpellingDecides(a: string, b: string)
    requires ParsePath(a).Some? && ParsePath(b).Some?
    ensures a == b <==> SameNode(a, b) && EndsDot(a) == EndsDot(b)
  {
    hide ParsePath, Join;
    if SameNode(a, b) {
      var p := ParsePath(a).value;
      PathsParseExactly(a, p);
      PathsParseExactly(b, p);
      RootIsNothing();
      if p != [] {
        JoinEndsInSegment(p);
      }
    }
  }

  /** The handler compares spellings, not paths: the request is put off exactly when some
      entry names a deferred leaf and the two are alike in having a trailing dot. */
  lemma DefersExactly(s: Store, deferred: set<string>, batch: Batch)
    requires KeepsKinds(s, batch)
    ensures Touches(deferred, batch) <==>
      exists e, d :: e in batch && d in deferred && SameNode(d, e.path) && EndsDot(d) == EndsDot(e.path)
  {
    hide ParsePath, EndsDot;
    forall e | e in batch
      ensures ParsePath(e.path).Some?
    {
      assert KeepsKind(s, e);
    }
    if i :| 0 <= i < |batch| && batch[i].path in deferred {
      assert batch[i] in batch && SameNode(batch[i].path, batch[i].path);
    }
    if e, d :| e in batch && d in deferred && SameNode(d, e.path) && EndsDot(d) == EndsDot(e.path) {
      SpellingDecides(d, e.path);
    }
  }

  /** A trailing dot on the request or on the deferred name, but not on both, has the
      deferred leaf written at once. */
  lemma TrailingDotIsNotDeferred()
    ensures SameNode("X", "X.")
    ensures var s: Store := map[[] := Cell(None, None, false),
                                ["X"] := Cell(Some(Value("string", "old", true)), None, false)];
      var pol := Policy((t, r) => true, {"X"}, true);
      && Handled(Desk(s, []), pol, [Entry("X", "new")]).1 == Status(1)
      && Handled(Desk(s, []), pol, [Entry("X.", "new")]).1 == Status(0)
      && Handled(Desk(s, []), pol.(deferred := {"X."}), [Entry("X", "new")]).1 == Status(0)
      && Handled(Desk(s, []), pol.(deferred := {"X."}), [Entry("X.", "new")]).1 == Status(1)
  {
    hide ParsePath, Handled;
    var s: Store := map[[] := Cell(None, None, false), ["X"] := Cell(Some(Value("string", "old", true)), None, false)];
    var pol := Policy((t, r) => true, {"X"}, true);
    assert Plain(["X"]) && Join(["X"]) == "X";
    ParseJoin(["X"]);
    assert "X" + "." == "X." && "X" != "X.";
    OneEntry(s, pol, Entry("X", "new"), ["X"]);
    OneEntry(s, pol, Entry("X.", "new"), ["X"]);
    OneEntry(s, pol.(deferred := {"X."}), Entry("X", "new"), ["X"]);
    OneEntry(s, pol.(deferred := {"X."}), Entry("X.", "new"), ["X"]);
  }

  lemma OneEntry(s: Store, pol: Policy, e: Entry, p: Path)
    requires ParsePath(e.name) == Some(p) && p in s && s[p].leaf.Some? && s[p].leaf.value.writable
    requires pol.rule(s[p].leaf.value.vtype, e.raw) && pol.hasAfter
    ensures Handled(Desk(s, []), pol, [e]).1 == Status(if e.name in pol.deferred then 1 else 0)
  {
    hide ParsePath;
    var setter := Typed(s[p].leaf.value, e);
    assert Prepared(s, [e], 1) == Prepared(s, [e], 0) + [setter] == [setter];
    assert Unknown(s, [e], 1) == Unknown(s, [e], 0) == [];
    PassesExactly(s, pol.rule, [setter]);
  }

  // ---------- The handler ----------

  /** Work for after the session, one batch of setters for each piece. */
  class AfterSession {
    var queue: seq<Batch>

    constructor ()
      ensures queue == []
    {
      queue := [];
    }

    method Add(batch: Batch)
      modifies this
      ensures queue == old(queue) + [batch]
    {
      queue := queue + [batch];
    }

    /** Applies the waiting batches first come, first applied, and is then empty. */
    method Run(tree: Tree)
      requires tree.Valid()
      modifies this, tree.at.Values
      ensures tree.Valid() && queue == []
      ensures tree.View() == Settled(old(tree.View()), tree.rule, old(queue))
    {
      hide Shaped, Content, ParsePath, Faults;
      var batches := queue;
      queue := [];
      for i := 0 to |batches|
        invariant tree.Valid() && queue == []
        invariant tree.View() == Settled(old(tree.View()), tree.rule, batches[..i])
      {
        assert batches[..i + 1][..i] == batches[..i];
        var _, _ := tree.SetBatch(batches[i]);
      }
      assert batches[..|batches|] == batches;
    }
  }

  class SpvHandler {
    const tree: Tree
    const deferred: set<string>
    const after: AfterSession?

    constructor (tree: Tree, deferred: set<string>, after: AfterSession?)
      ensures this.tree == tree && this.deferred == deferred && this.after == after
    {
      this.tree, this.deferred, this.after := tree, deferred, after;
    }

    ghost function Waiting(): seq<Batch>
      reads after
    {
      if after == null then [] else after.queue
    }

    ghost function Rules(): Policy {
      Policy(tree.rule, deferred, after != null)
    }

    /** The setters for the entries, or the unknown names among them. */
    method PrepareSetters(entries: seq<Entry>) returns (unknown: seq<ParamFault>, batch: Batch)
      requires tree.Valid()
      ensures unknown == Unknown(tree.View(), entries, |entries|)
      ensures batch == Prepared(tree.View(), entries, |entries|)
    {
      hide Shaped, Content, ParsePath;
      unknown, batch := [], [];
      for i := 0 to |entries|
        invariant unknown == Unknown(tree.View(), entries, i)
        invariant batch == Prepared(tree.View(), entries, i)
      {
        var cur := tree.Get(entries[i].name);
        match cur {
          case Err(_) => unknown := unknown + [ParamFault(entries[i].name, 9005)];
          case Ok(v) => batch := batch + [Typed(v, entries[i])];
        }
      }
    }

    method Handle(entries: seq<Entry>) returns (answer: Answer)
      requires tree.Valid()
      modifies tree.at.Values, after
      ensures tree.Valid()
      ensures (Desk(tree.View(), Waiting()), answer) ==
              Handled(Desk(old(tree.View()), old(Waiting())), Rules(), entries)
      ensures Answered(old(tree.View()), old(Waiting()), Rules(), entries, tree.View(), Waiting(), answer)
    {
      hide Shaped, Content, ParsePath, Faults, Rendered, Prepared, Unknown, Answered;
      RequestsAreAnswered(Desk(tree.View(), Waiting()), Rules(), entries);
      var unknown, batch := PrepareSetters(entries);
      if unknown != [] {
        return Fault(9003, unknown);
      }
      if after != null && Touches(deferred, batch) {
        var faults := tree.CheckBatch(batch);
        if faults != [] {
          return Rendered(faults);
        }
        after.Add(batch);
        return Status(1);
      }
      var _, faults := tree.SetBatch(batch);
      if faults != [] {
        return Rendered(faults);
      }
      return Status(0);
    }
  }
}
