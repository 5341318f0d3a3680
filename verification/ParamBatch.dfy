// Overwriting leaves, one at a time or as a batch: what Set, SetBatch and CheckBatch
// (internal/paramtree/paramtree.go) answer and leave behind, as functions of the cells.
module ParamBatches {
  import opened Options
  import opened Paths
  import opened ParamStores

  function Readable(s: Store, path: string): Outcome<Value> {
    match ParsePath(path)
    case None => Err(InvalidArgument)
    case Some(p) => if p in s && s[p].leaf.Some? then Ok(s[p].leaf.value) else Err(NotFound)
  }

  /** SetSystem replaces the raw value of the leaf at the path it answers with. */
  function SystemSettable(s: Store, rule: Rule, path: string, raw: string): Outcome<Path> {
    match ParsePath(path)
    case None => Err(InvalidArgument)
    case Some(p) =>
      if p !in s || s[p].leaf.None? then Err(NotFound)
      else if !rule(s[p].leaf.value.vtype, raw) then Err(InvalidArgument)
      else Ok(p)
  }

  /** Set overwrites the leaf at the path it answers with. */
  function Settable(s: Store, rule: Rule, path: string, v: Value): Outcome<Path> {
    match ParsePath(path)
    case None => Err(InvalidArgument)
    case Some(p) =>
      if p !in s || s[p].leaf.None? then Err(NotFound)
      else
        var held := s[p].leaf.value;
        if !held.writable || held.vtype != v.vtype || !rule(v.vtype, v.raw) then Err(InvalidArgument)
        else Ok(p)
  }

  datatype Setter = Setter(path: string, value: Value)

  datatype Code = MissingLeaf | NotWritable | TypeMismatch | InvalidValue | DuplicatePath

  datatype EntryFault = EntryFault(path: string, code: Code)

  datatype BatchResult = BatchResult(path: string, oldValue: Value, newValue: Value, changed: bool)

  // ---------- Pre-flight ----------

  /** An earlier entry names the same path, whatever its spelling. */
  ghost predicate Repeats(setters: seq<Setter>, i: nat)
    requires i < |setters|
  {
    exists j | 0 <= j < i :: ParsePath(setters[j].path) == ParsePath(setters[i].path)
  }

  ghost function CodeOf(s: Store, rule: Rule, setters: seq<Setter>, i: nat): Option<Code>
    requires i < |setters|
  {
    var v := setters[i].value;
    match ParsePath(setters[i].path)
    case None => Some(MissingLeaf)
    case Some(p) =>
      if Repeats(setters, i) then Some(DuplicatePath)
      else if p !in s || s[p].leaf.None? then Some(MissingLeaf)
      else if !s[p].leaf.value.writable then Some(NotWritable)
      else if s[p].leaf.value.vtype != v.vtype then Some(TypeMismatch)
      else if !rule(v.vtype, v.raw) then Some(InvalidValue)
      else None
  }

  /** The faults of the first n entries, in input order. */
  ghost function FaultsUpTo(s: Store, rule: Rule, setters: seq<Setter>, n: nat): seq<EntryFault>
    requires n <= |setters|
  {
    if n == 0 then []
    else
      var code := CodeOf(s, rule, setters, n - 1);
      FaultsUpTo(s, rule, setters, n - 1) + (if code.Some? then [EntryFault(setters[n - 1].path, code.value)] else [])
  }

  ghost function Faults(s: Store, rule: Rule, setters: seq<Setter>): seq<EntryFault> {
    FaultsUpTo(s, rule, setters, |setters|)
  }

  lemma {:induction false} FaultlessUpTo(s: Store, rule: Rule, setters: seq<Setter>, n: nat)
    requires n <= |setters|
    ensures FaultsUpTo(s, rule, setters, n) == [] <==> forall i | 0 <= i < n :: CodeOf(s, rule, setters, i).None?
  {
    hide ParsePath, CodeOf;
    if n > 0 {
      FaultlessUpTo(s, rule, setters, n - 1);
    }
  }

  // ---------- Applying ----------

  ghost function AppliedUpTo(s: Store, setters: seq<Setter>, n: nat): Store
    requires n <= |setters|
    requires forall i | 0 <= i < n :: Lands(s, setters[i])
    ensures AppliedUpTo(s, setters, n).Keys == s.Keys
  {
    if n == 0 then s
    else
      var t := AppliedUpTo(s, setters, n - 1);
      assert Lands(s, setters[n - 1]);
      WithLeaf(t, ParsePath(setters[n - 1].path).value, setters[n - 1].value)
  }

  ghost predicate Lands(s: Store, e: Setter) {
    ParsePath(e.path).Some? && ParsePath(e.path).value in s
  }

  ghost predicate Acceptable(s: Store, rule: Rule, e: Setter) {
    Settable(s, rule, e.path, e.value).Ok?
  }

  ghost predicate AllAcceptable(s: Store, rule: Rule, setters: seq<Setter>) {
    forall i | 0 <= i < |setters| :: Acceptable(s, rule, setters[i])
  }

  ghost predicate DistinctPaths(setters: seq<Setter>) {
    forall i, j | 0 <= i < j < |setters| :: ParsePath(setters[i].path) != ParsePath(setters[j].path)
  }

  /** A batch passes exactly when each entry alone would and no two name one leaf. */
  lemma PassesExactly(s: Store, rule: Rule, setters: seq<Setter>)
    ensures Faults(s, rule, setters) == [] <==> AllAcceptable(s, rule, setters) && DistinctPaths(setters)
  {
    FaultlessUpTo(s, rule, setters, |setters|);
    forall i | 0 <= i < |setters|
      ensures CodeOf(s, rule, setters, i).None? <==> Acceptable(s, rule, setters[i]) && !Repeats(setters, i)
    {
    }
    if forall i | 0 <= i < |setters| :: !Repeats(setters, i) {
      forall i, j | 0 <= i < j < |setters|
        ensures ParsePath(setters[i].path) != ParsePath(setters[j].path)
      {
        assert !Repeats(setters, j);
      }
    }
    assert DistinctPaths(setters) ==> forall i | 0 <= i < |setters| :: !Repeats(setters, i);
    if Faults(s, rule, setters) == [] {
      assert forall i | 0 <= i < |setters| :: CodeOf(s, rule, setters, i).None?;
    }
  }

  // ---------- Entry by entry, in any order ----------

  /** Applies Set for each entry in turn; None when one of them is refused. */
  ghost function SetInTurn(s: Store, rule: Rule, es: seq<Setter>): Option<Store> {
    if es == [] then Some(s)
    else
      var e := es[|es| - 1];
      match SetInTurn(s, rule, es[..|es| - 1])
      case None => None
      case Some(t) =>
        match Settable(t, rule, e.path, e.value)
        case Ok(p) => Some(WithLeaf(t, p, e.value))
        case Err(_) => None
  }

  /** The cell at q after the entries es: overwritten by the one naming q, if any. */
  ghost predicate OverwrittenAt(s: Store, t: Store, es: seq<Setter>, q: Path)
    requires q in s && q in t
  {
    && (forall e | e in es && ParsePath(e.path) == Some(q) :: t[q] == s[q].(leaf := Some(e.value)))
    && ((forall e | e in es :: ParsePath(e.path) != Some(q)) ==> t[q] == s[q])
  }

  ghost predicate Overwritten(s: Store, t: Store, es: seq<Setter>) {
    t.Keys == s.Keys && forall q | q in s :: OverwrittenAt(s, t, es, q)
  }

  lemma OverwrittenByNone(s: Store)
    ensures Overwritten(s, s, [])
  {
  }

  lemma OverwrittenByOneMore(s: Store, t: Store, es: seq<Setter>, e: Setter, p: Path)
    requires Overwritten(s, t, es) && p in s && ParsePath(e.path) == Some(p)
    requires forall d | d in es :: ParsePath(d.path) != Some(p)
    ensures t[p] == s[p]
    ensures Overwritten(s, WithLeaf(t, p, e.value), es + [e])
  {
    hide ParsePath;
    assert OverwrittenAt(s, t, es, p);
    var u := WithLeaf(t, p, e.value);
    forall q | q in s
      ensures OverwrittenAt(s, u, es + [e], q)
    {
      assert OverwrittenAt(s, t, es, q);
      assert e in es + [e] && forall d | d in es :: d in es + [e];
    }
  }

  lemma {:induction false} SetInTurnOverwrites(s: Store, rule: Rule, es: seq<Setter>)
    requires AllAcceptable(s, rule, es) && DistinctPaths(es)
    ensures SetInTurn(s, rule, es).Some? && Overwritten(s, SetInTurn(s, rule, es).value, es)
  {
    hide ParsePath, Overwritten, Settable, Acceptable, AllAcceptable, DistinctPaths;
    if es == [] {
      OverwrittenByNone(s);
    } else {
      var n := |es| - 1;
      ButTheLast(s, rule, es);
      SetInTurnOverwrites(s, rule, es[..n]);
      assert es[..n] + [es[n]] == es;
      OneMoreInTurn(s, SetInTurn(s, rule, es[..n]).value, rule, es[..n], es[n]);
    }
  }

  lemma ButTheLast(s: Store, rule: Rule, es: seq<Setter>)
    requires es != [] && AllAcceptable(s, rule, es) && DistinctPaths(es)
    ensures var n := |es| - 1;
      && AllAcceptable(s, rule, es[..n]) && DistinctPaths(es[..n]) && Acceptable(s, rule, es[n])
      && forall d | d in es[..n] :: ParsePath(d.path) != ParsePath(es[n].path)
  {
    hide ParsePath, Acceptable;
    var n := |es| - 1;
    forall i | 0 <= i < n
      ensures Acceptable(s, rule, es[..n][i])
    {
      assert Acceptable(s, rule, es[i]);
    }
  }

  /** An entry that s takes is taken where others have overwritten other leaves. */
  lemma OneMoreInTurn(s: Store, t: Store, rule: Rule, es: seq<Setter>, e: Setter)
    requires Overwritten(s, t, es) && Acceptable(s, rule, e)
    requires forall d | d in es :: ParsePath(d.path) != ParsePath(e.path)
    ensures var r := Settable(t, rule, e.path, e.value);
      r.Ok? && r.value in t && Overwritten(s, WithLeaf(t, r.value, e.value), es + [e])
  {
    hide ParsePath, OverwrittenAt;
    OverwrittenByOneMore(s, t, es, e, ParsePath(e.path).value);
  }

  lemma {:induction false} AppliedOverwrites(s: Store, rule: Rule, es: seq<Setter>, n: nat)
    requires AllAcceptable(s, rule, es) && DistinctPaths(es) && n <= |es|
    ensures forall i | 0 <= i < |es| :: Lands(s, es[i])
    ensures Overwritten(s, AppliedUpTo(s, es, n), es[..n])
  {
    hide ParsePath, Overwritten;
    forall i | 0 <= i < |es|
      ensures Lands(s, es[i])
    {
      assert Acceptable(s, rule, es[i]);
    }
    if n > 0 {
      AppliedOverwrites(s, rule, es, n - 1);
      assert Acceptable(s, rule, es[n - 1]) && es[..n - 1] + [es[n - 1]] == es[..n];
      OverwrittenByOneMore(s, AppliedUpTo(s, es, n - 1), es[..n - 1], es[n - 1], ParsePath(es[n - 1].path).value);
    } else {
      OverwrittenByNone(s);
    }
  }

  lemma OverwrittenAgree(s: Store, t: Store, u: Store, es: seq<Setter>, fs: seq<Setter>)
    requires Overwritten(s, t, es) && Overwritten(s, u, fs)
    requires forall e :: e in es <==> e in fs
    ensures t == u
  {
    forall q | q in s
      ensures t[q] == u[q]
    {
      assert OverwrittenAt(s, t, es, q) && OverwrittenAt(s, u, fs, q);
    }
  }

  lemma {:induction false} TwiceMeansTwoPlaces<T>(s: seq<T>, x: T)
    requires multiset(s)[x] >= 2
    ensures exists i, j :: 0 <= i < j < |s| && s[i] == s[j] == x
  {
    var n := |s| - 1;
    assert s == s[..n] + [s[n]];
    if s[n] == x {
      assert x in multiset(s[..n]);
      var i :| 0 <= i < n && s[..n][i] == x;
      assert s[i] == s[n] == x;
    } else {
      TwiceMeansTwoPlaces(s[..n], x);
      var i, j :| 0 <= i < j < n && s[..n][i] == s[..n][j] == x;
      assert s[i] == s[j] == x;
    }
  }

  lemma ReorderingKeepsDistinct(es: seq<Setter>, fs: seq<Setter>)
    requires DistinctPaths(es) && multiset(es) == multiset(fs)
    ensures DistinctPaths(fs)
  {
    hide ParsePath;
    forall i, j | 0 <= i < j < |fs|
      ensures ParsePath(fs[i].path) != ParsePath(fs[j].path)
    {
      assert fs[i] in multiset(es) && fs[j] in multiset(es);
      if fs[i] == fs[j] {
        assert fs == fs[..j] + [fs[j]] + fs[j + 1..] && fs[i] in fs[..j];
        TwiceMeansTwoPlaces(es, fs[i]);
      }
    }
  }

  /** A batch that passes leaves what Set leaves, entry by entry in any order. */
  lemma BatchIsSetInAnyOrder(s: Store, rule: Rule, setters: seq<Setter>, order: seq<Setter>)
    requires Faults(s, rule, setters) == [] && multiset(order) == multiset(setters)
    ensures forall i | 0 <= i < |setters| :: Lands(s, setters[i])
    ensures SetInTurn(s, rule, order) == Some(AppliedUpTo(s, setters, |setters|))
  {
    hide ParsePath, Overwritten, SetInTurn, AppliedUpTo, DistinctPaths, Faults, Acceptable;
    PassesExactly(s, rule, setters);
    AppliedOverwrites(s, rule, setters, |setters|);
    ReorderingKeepsDistinct(setters, order);
    assert AllAcceptable(s, rule, order) by {
      forall i | 0 <= i < |order|
        ensures Acceptable(s, rule, order[i])
      {
        assert order[i] in multiset(setters);
      }
    }
    SetInTurnOverwrites(s, rule, order);
    forall e
      ensures e in order <==> e in setters
    {
      assert e in order <==> e in multiset(order);
      assert e in setters <==> e in multiset(setters);
    }
    assert setters[..|setters|] == setters;
    OverwrittenAgree(s, SetInTurn(s, rule, order).value, AppliedUpTo(s, setters, |setters|), order, setters);
  }

  // ---------- What invalidates a batch ----------

  /** The same leaves, each with its type and writability; values may differ. */
  ghost predicate SameLeaves(s: Store, t: Store) {
    && s.Keys == t.Keys
    && (forall p | p in s :: LeafKind(s[p]) == LeafKind(t[p]))
  }

  function LeafKind(c: Cell): Option<(string, bool)> {
    match c.leaf
    case None => None
    case Some(v) => Some((v.vtype, v.writable))
  }

  /** Writes that keep each leaf's type and writability never change a verdict. */
  lemma {:induction false} VerdictSurvives(s: Store, t: Store, rule: Rule, setters: seq<Setter>, n: nat)
    requires SameLeaves(s, t) && n <= |setters|
    ensures FaultsUpTo(s, rule, setters, n) == FaultsUpTo(t, rule, setters, n)
  {
    hide ParsePath;
    if n > 0 {
      VerdictSurvives(s, t, rule, setters, n - 1);
      match ParsePath(setters[n - 1].path) {
        case None =>
        case Some(p) =>
          assert p in s ==> LeafKind(s[p]) == LeafKind(t[p]);
      }
    }
  }

  // ---------- One write, by what reads ----------

  /** A path reads as a value exactly when it spells a leaf that holds it. */
  lemma ReadsExactly(s: Store, path: string, v: Value)
    ensures Readable(s, path) == Ok(v) <==>
      exists p :: p in s && s[p].leaf == Some(v) && Spells(path, p)
  {
    hide ParsePath, Spells;
    if ParsePath(path).Some? {
      PathsParseExactly(path, ParsePath(path).value);
    }
    if p :| p in s && s[p].leaf == Some(v) && Spells(path, p) {
      PathsParseExactly(path, p);
    }
  }

  /** The leaf reads as a value that takes the new one: writable, of its type, of a text the
      type admits. */
  ghost predicate Takes(s: Store, rule: Rule, path: string, v: Value) {
    && Readable(s, path).Ok?
    && Readable(s, path).value.writable && Readable(s, path).value.vtype == v.vtype && rule(v.vtype, v.raw)
  }

  /** A write goes through exactly when the leaf takes the value, and fails as the read does. */
  lemma WritesExactly(s: Store, rule: Rule, path: string, v: Value)
    ensures Settable(s, rule, path, v).Ok? <==> Takes(s, rule, path, v)
    ensures Readable(s, path).Err? ==> Settable(s, rule, path, v) == Err(Readable(s, path).failure)
    ensures Readable(s, path).Ok? && Settable(s, rule, path, v).Err? ==>
      Settable(s, rule, path, v) == Err(InvalidArgument)
  {
    hide ParsePath;
  }

  /** A system write asks for the text alone. */
  lemma SystemWritesExactly(s: Store, rule: Rule, path: string, raw: string)
    ensures SystemSettable(s, rule, path, raw).Ok? <==>
      Readable(s, path).Ok? && rule(Readable(s, path).value.vtype, raw)
    ensures Readable(s, path).Err? ==> SystemSettable(s, rule, path, raw) == Err(Readable(s, path).failure)
  {
    hide ParsePath;
  }

  /** Only the leaf at path reads otherwise, and it reads as v. */
  ghost predicate OnlyReads(s: Store, t: Store, path: string, v: Value) {
    && Readable(t, path) == Ok(v)
    && forall other :: ParsePath(other) != ParsePath(path) ==> Readable(t, other) == Readable(s, other)
  }

  lemma WrittenReads(s: Store, path: string, v: Value)
    requires Readable(s, path).Ok?
    ensures ParsePath(path).Some? && ParsePath(path).value in s
    ensures OnlyReads(s, WithLeaf(s, ParsePath(path).value, v), path, v)
  {
    hide ParsePath;
  }

  /** The fault of an entry alone in its batch. */
  lemma LoneEntryFault(s: Store, rule: Rule, e: Setter)
    ensures var cur := Readable(s, e.path);
      Faults(s, rule, [e]) ==
        if cur.Err? then [EntryFault(e.path, MissingLeaf)]
        else if !cur.value.writable then [EntryFault(e.path, NotWritable)]
        else if cur.value.vtype != e.value.vtype then [EntryFault(e.path, TypeMismatch)]
        else if !rule(e.value.vtype, e.value.raw) then [EntryFault(e.path, InvalidValue)]
        else []
  {
    hide ParsePath;
    assert FaultsUpTo(s, rule, [e], 0) == [];
    assert !Repeats([e], 0);
  }

  /** An entry that names a leaf an earlier one names is a duplicate, whatever else it is. */
  lemma RepeatedEntryFault(s: Store, rule: Rule, setters: seq<Setter>, i: nat, j: nat)
    requires i < j < |setters| && ParsePath(setters[i].path).Some?
    requires ParsePath(setters[i].path) == ParsePath(setters[j].path)
    ensures EntryFault(setters[j].path, DuplicatePath) in Faults(s, rule, setters)
  {
    hide ParsePath;
    assert Repeats(setters, j);
    FaultIsListed(s, rule, setters, j, |setters|);
  }

  lemma {:induction false} FaultIsListed(s: Store, rule: Rule, setters: seq<Setter>, i: nat, n: nat)
    requires i < n <= |setters| && CodeOf(s, rule, setters, i).Some?
    ensures EntryFault(setters[i].path, CodeOf(s, rule, setters, i).value) in FaultsUpTo(s, rule, setters, n)
  {
    hide CodeOf;
    if i < n - 1 {
      FaultIsListed(s, rule, setters, i, n - 1);
    }
  }

  /** Every entry's leaf takes its value, and no two entries name one leaf. */
  ghost predicate AllTake(s: Store, rule: Rule, setters: seq<Setter>) {
    && (forall e | e in setters :: Takes(s, rule, e.path, e.value))
    && (forall i, j | 0 <= i < j < |setters| :: ParsePath(setters[i].path) != ParsePath(setters[j].path))
  }

  /** Each entry's leaf reads as the value it was given, and nothing else reads otherwise. */
  ghost predicate AllRead(s: Store, t: Store, setters: seq<Setter>) {
    && (forall e | e in setters :: Readable(t, e.path) == Ok(e.value))
    && (forall other | !NamesOne(setters, other) :: Readable(t, other) == Readable(s, other))
  }

  /** Some entry leads where the path leads. */
  ghost predicate NamesOne(setters: seq<Setter>, path: string) {
    exists e :: e in setters && ParsePath(e.path) == ParsePath(path)
  }

  lemma BatchTakesExactly(s: Store, rule: Rule, setters: seq<Setter>)
    ensures Faults(s, rule, setters) == [] <==> AllTake(s, rule, setters)
  {
    hide ParsePath, Faults, Takes, Settable;
    PassesExactly(s, rule, setters);
    forall e | e in setters
      ensures Acceptable(s, rule, e) <==> Takes(s, rule, e.path, e.value)
    {
      WritesExactly(s, rule, e.path, e.value);
    }
  }

  lemma BatchReads(s: Store, rule: Rule, setters: seq<Setter>)
    requires Faults(s, rule, setters) == []
    ensures forall i | 0 <= i < |setters| :: Lands(s, setters[i])
    ensures AllRead(s, AppliedUpTo(s, setters, |setters|), setters)
  {
    hide ParsePath, Faults, AppliedUpTo, Overwritten, Settable;
    PassesExactly(s, rule, setters);
    AppliedOverwrites(s, rule, setters, |setters|);
    assert setters[..|setters|] == setters;
    OverwrittenReads(s, AppliedUpTo(s, setters, |setters|), rule, setters);
  }

  lemma OverwrittenReads(s: Store, t: Store, rule: Rule, setters: seq<Setter>)
    requires AllAcceptable(s, rule, setters) && Overwritten(s, t, setters)
    ensures AllRead(s, t, setters)
  {
    hide ParsePath;
    forall e | e in setters
      ensures Readable(t, e.path) == Ok(e.value)
    {
      assert Acceptable(s, rule, e);
      assert OverwrittenAt(s, t, setters, ParsePath(e.path).value);
    }
    forall other | !NamesOne(setters, other)
      ensures Readable(t, other) == Readable(s, other)
    {
      var p := ParsePath(other);
      if p.Some? && p.value in s {
        assert OverwrittenAt(s, t, setters, p.value);
      }
    }
  }
}
