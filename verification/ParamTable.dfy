// Rows of a table and the counter beside it: what AddObject and DeleteObject
// (internal/paramtree/paramtree.go) do, as functions of the cells.
module ParamTables {
  import opened Options
  import opened Paths
  import opened ParamStores

  /** The names of the table's rows; names that spell one number twice are two rows. */
  ghost function Rows(s: Store, p: Path): set<string> {
    set q | q in s && p < q && |q| == |p| + 1 && InstanceName(q[|p|]) :: q[|p|]
  }

  lemma InRows(s: Store, p: Path, k: string)
    ensures k in Rows(s, p) <==> p + [k] in s && InstanceName(k)
  {
    if p + [k] in s && InstanceName(k) {
      var q := p + [k];
      assert p < q && q[|p|] == k;
    }
    if k in Rows(s, p) {
      var q :| q in s && p < q && |q| == |p| + 1 && InstanceName(q[|p|]) && q[|p|] == k;
      assert q == p + [k];
    }
  }

  function Numbers(names: set<string>): set<int> {
    set k | k in names && InstanceName(k) :: Atoi(k).value
  }

  /** The smallest positive number not in use. */
  ghost predicate Least(used: set<int>, n: int) {
    n >= 1 && n !in used && forall m | 1 <= m < n :: m in used
  }

  lemma {:induction false} NumbersAreNoMore(names: set<string>)
    ensures |Numbers(names)| <= |names|
  {
    if names != {} {
      var k :| k in names;
      NumbersAreNoMore(names - {k});
      var rest := Numbers(names - {k});
      if InstanceName(k) {
        assert Numbers(names) == rest + {Atoi(k).value};
      } else {
        assert Numbers(names) == rest;
      }
    }
  }

  lemma {:induction false} RunIsNoMore(used: set<int>, n: nat)
    requires forall m | 1 <= m <= n :: m in used
    ensures n <= |used|
  {
    if n > 0 {
      RunIsNoMore(used - {n}, n - 1);
    }
  }

  /** The search for a free number ends by one past the number of children. */
  lemma LeastIsNear(names: set<string>, n: nat)
    requires forall m | 1 <= m < n :: m in Numbers(names)
    ensures n <= |names| + 1
  {
    NumbersAreNoMore(names);
    if n > 0 {
      RunIsNoMore(Numbers(names), n - 1);
    }
  }

  function CounterPath(p: Path): Path
    requires p != []
  {
    Parent(p) + [Last(p) + "NumberOfEntries"]
  }

  ghost predicate HasCounter(s: Store, p: Path) {
    p != [] && CounterPath(p) in s && s[CounterPath(p)].leaf.Some?
  }

  ghost function Synced(s: Store, p: Path): Store {
    if HasCounter(s, p) then
      WithLeaf(s, CounterPath(p), s[CounterPath(p)].leaf.value.(raw := Itoa(|Rows(s, p)|)))
    else s
  }

  /** The counter beside the table, if there is one, tells the number of rows. */
  ghost predicate InSync(s: Store, p: Path) {
    HasCounter(s, p) ==> s[CounterPath(p)].leaf.value.raw == Itoa(|Rows(s, p)|)
  }

  ghost function RowAdded(s: Store, p: Path, k: string): Store {
    Synced(s + Moved(s, p + [TEMPLATE], p + [k]), p)
  }

  ghost function RowDeleted(s: Store, p: Path, k: string): Store {
    Synced(Without(s, p + [k]), p)
  }

  lemma CounterIsBeside(p: Path, q: Path)
    requires p != [] && p <= q
    ensures q != CounterPath(p)
  {
    assert q[|p| - 1] == Last(p) && CounterPath(p)[|p| - 1] == Last(p) + "NumberOfEntries";
    assert |Last(p) + "NumberOfEntries"| > |Last(p)|;
  }

  lemma SyncedAt(s: Store, p: Path, q: Path)
    ensures q in Synced(s, p) <==> q in s
    ensures q in s && !(HasCounter(s, p) && q == CounterPath(p)) ==> Synced(s, p)[q] == s[q]
  {
  }

  lemma SyncedKeepsRows(s: Store, p: Path)
    ensures Rows(Synced(s, p), p) == Rows(s, p)
    ensures HasCounter(Synced(s, p), p) <==> HasCounter(s, p)
    ensures InSync(Synced(s, p), p)
  {
    assert Synced(s, p).Keys == s.Keys;
    forall k
      ensures k in Rows(Synced(s, p), p) <==> k in Rows(s, p)
    {
      InRows(s, p, k);
      InRows(Synced(s, p), p, k);
    }
  }

  /** Adding or deleting a row leaves the counter telling the number of rows. */
  lemma CountersCount(s: Store, p: Path, k: string)
    ensures InSync(RowAdded(s, p, k), p)
    ensures InSync(RowDeleted(s, p, k), p)
  {
    SyncedKeepsRows(s + Moved(s, p + [TEMPLATE], p + [k]), p);
    SyncedKeepsRows(Without(s, p + [k]), p);
  }

  lemma WidenedAt(s: Store, p: Path, k: string, q: Path)
    requires WellFormed(s) && p in s && s[p].table && p + [k] !in s && k != TEMPLATE
    ensures var t := s + Moved(s, p + [TEMPLATE], p + [k]);
      && (p + [k] <= q ==> q !in s)
      && (p + [k] <= q ==> (q in t <==> p + [TEMPLATE] + q[|p| + 1..] in s))
      && (!(p + [k] <= q) ==> (q in t <==> q in s))
      && (!(p + [k] <= q) && q in t ==> t[q] == s[q])
  {
    MovedAt(s, p + [TEMPLATE], p + [k], q);
    if p + [k] <= q && q in s {
      PrefixClosed(s, p + [k], q);
    }
  }

  /** A new row holds the template's cells, and nothing else changes but the counter. */
  lemma RowAddedIsTemplate(s: Store, p: Path, k: string)
    requires WellFormed(s) && p in s && s[p].table && p + [k] !in s && k != TEMPLATE
    ensures Under(RowAdded(s, p, k), p + [k]) == Moved(s, p + [TEMPLATE], p + [k])
    ensures forall q | !(p + [k] <= q) && !(p != [] && q == CounterPath(p)) ::
      (q in s <==> q in RowAdded(s, p, k)) && (q in s ==> RowAdded(s, p, k)[q] == s[q])
  {
    var t := s + Moved(s, p + [TEMPLATE], p + [k]);
    forall q
      ensures p + [k] <= q ==> (q in RowAdded(s, p, k) <==> q in Moved(s, p + [TEMPLATE], p + [k]))
      ensures p + [k] <= q && q in RowAdded(s, p, k) ==> RowAdded(s, p, k)[q] == Moved(s, p + [TEMPLATE], p + [k])[q]
    {
      SyncedAt(t, p, q);
      WidenedAt(s, p, k, q);
      MovedAt(s, p + [TEMPLATE], p + [k], q);
      if p != [] && p + [k] <= q {
        CounterIsBeside(p, q);
      }
    }
    forall q | !(p + [k] <= q) && !(p != [] && q == CounterPath(p))
      ensures (q in s <==> q in RowAdded(s, p, k)) && (q in s ==> RowAdded(s, p, k)[q] == s[q])
    {
      SyncedAt(t, p, q);
      WidenedAt(s, p, k, q);
    }
  }

  lemma NewRowIsThere(s: Store, p: Path, k: string)
    requires WellFormed(s) && p in s && s[p].table && p + [k] !in s && k != TEMPLATE
    ensures p + [k] in RowAdded(s, p, k) && p in RowAdded(s, p, k) && RowAdded(s, p, k)[p] == s[p]
  {
    hide Moved, Rows;
    var t := s + Moved(s, p + [TEMPLATE], p + [k]);
    WidenedAt(s, p, k, p + [k]);
    WidenedAt(s, p, k, p);
    SyncedAt(t, p, p + [k]);
    SyncedAt(t, p, p);
    assert p + [TEMPLATE] + (p + [k])[|p| + 1..] == p + [TEMPLATE];
    if p != [] {
      CounterIsBeside(p, p);
    }
  }

  /** One row more. */
  lemma RowAddedCounts(s: Store, p: Path, k: string)
    requires WellFormed(s) && p in s && s[p].table && p + [k] !in s && InstanceName(k)
    ensures Rows(RowAdded(s, p, k), p) == Rows(s, p) + {k} && k !in Rows(s, p)
  {
    TemplateIsNoNumber();
    var t := s + Moved(s, p + [TEMPLATE], p + [k]);
    SyncedKeepsRows(t, p);
    InRows(s, p, k);
    forall j
      ensures j in Rows(t, p) <==> j in Rows(s, p) + {k}
    {
      InRows(s, p, j);
      InRows(t, p, j);
      WidenedAt(s, p, k, p + [j]);
      assert p + [k] <= p + [j] ==> (p + [j])[|p|] == k;
      assert p + [TEMPLATE] + (p + [k])[|p| + 1..] == p + [TEMPLATE];
    }
  }

  lemma TemplateIsNoNumber()
    ensures !InstanceName(TEMPLATE)
  {
    assert TEMPLATE[0] in TEMPLATE && !Digit(TEMPLATE[0]);
  }

  /** The same cells, except for the counter's raw value. */
  ghost predicate SameButCount(s: Store, t: Store, p: Path) {
    && s.Keys == t.Keys
    && (forall q | q in s && !(p != [] && q == CounterPath(p)) :: s[q] == t[q])
    && (HasCounter(s, p) <==> HasCounter(t, p))
    && (p != [] && CounterPath(p) in s ==> SameButRaw(s[CounterPath(p)], t[CounterPath(p)]))
  }

  ghost predicate SameButRaw(c: Cell, d: Cell) {
    || c == d
    || (c.leaf.Some? && d.leaf.Some? && d.(leaf := Some(d.leaf.value.(raw := c.leaf.value.raw))) == c)
  }

  lemma SyncedForgetsCount(s: Store, t: Store, p: Path)
    requires SameButCount(s, t, p)
    ensures Synced(s, p) == Synced(t, p)
  {
    SameRows(s, t, p);
  }

  lemma SyncedSettles(s: Store, p: Path)
    ensures SameButCount(Synced(s, p), s, p)
    ensures Synced(s, p) == s <==> InSync(s, p)
  {
  }

  lemma DeleteUndoesAdd(s: Store, p: Path, k: string)
    requires WellFormed(s) && p in s && s[p].table && p + [k] !in s && k != TEMPLATE
    ensures SameButCount(Without(RowAdded(s, p, k), p + [k]), s, p)
  {
    hide WellFormed, Rows, InstanceName, Moved, Synced;
    var t := s + Moved(s, p + [TEMPLATE], p + [k]);
    var u := Without(RowAdded(s, p, k), p + [k]);
    forall q
      ensures q in u <==> q in s
      ensures q in s && !(p != [] && q == CounterPath(p)) ==> u[q] == s[q]
    {
      SyncedAt(t, p, q);
      WidenedAt(s, p, k, q);
    }
    if p != [] {
      SyncedSettles(t, p);
      assert |CounterPath(p)| < |p + [k]|;
      WidenedAt(s, p, k, CounterPath(p));
    }
  }

  /** Deleting the row just added restores the cells exactly when the counter was in sync. */
  lemma AddThenDelete(s: Store, p: Path, k: string)
    requires WellFormed(s) && p in s && s[p].table && p + [k] !in s && InstanceName(k)
    ensures RowDeleted(RowAdded(s, p, k), p, k) == Synced(s, p)
    ensures RowDeleted(RowAdded(s, p, k), p, k) == s <==> InSync(s, p)
  {
    TemplateIsNoNumber();
    DeleteUndoesAdd(s, p, k);
    SyncedForgetsCount(Without(RowAdded(s, p, k), p + [k]), s, p);
    SyncedSettles(s, p);
  }

  /** An empty table whose counter says seven. */
  const MISCOUNTED: Store := map[
    [] := Cell(None, None, false), ["T"] := Cell(None, None, true), ["T", TEMPLATE] := Cell(None, None, false),
    ["TNumberOfEntries"] := Cell(Some(Value("unsignedInt", "7", false)), None, false)]

  /** Adding a row to it and deleting the row does not bring the seven back. */
  lemma WrongCounterIsLost()
    ensures WellFormed(MISCOUNTED) && ["T"] in MISCOUNTED && MISCOUNTED[["T"]].table && InstanceName("1")
    ensures !InSync(MISCOUNTED, ["T"])
    ensures RowDeleted(RowAdded(MISCOUNTED, ["T"], "1"), ["T"], "1") != MISCOUNTED
  {
    hide RowAdded, RowDeleted, InSync, WellFormed;
    MiscountedIsWellFormed();
    MiscountedIsOut();
    assert |["T"] + ["1"]| == 2 && (["T"] + ["1"])[1] == "1";
    AddThenDelete(MISCOUNTED, ["T"], "1");
  }

  lemma MiscountedHasNoRows()
    ensures Rows(MISCOUNTED, ["T"]) == {} && InstanceName("1")
  {
    assert Number("1") == 1;
    TemplateIsNoNumber();
    forall k
      ensures k !in Rows(MISCOUNTED, ["T"])
    {
      InRows(MISCOUNTED, ["T"], k);
      assert |["T"] + [k]| == 2 && (["T"] + [k])[1] == k;
    }
  }

  lemma MiscountedIsOut()
    ensures !InSync(MISCOUNTED, ["T"]) && InstanceName("1")
  {
    hide Rows, InstanceName;
    MiscountedHasNoRows();
    assert "T" + "NumberOfEntries" == "TNumberOfEntries" && Parent(["T"]) == [] && Last(["T"]) == "T";
    assert CounterPath(["T"]) == ["TNumberOfEntries"];
    assert Itoa(0) == "0";
  }

  lemma MiscountedIsWellFormed()
    ensures WellFormed(MISCOUNTED)
  {
    assert Segment("T") && Segment("TNumberOfEntries");
    assert Parent(["T"]) == [] && Parent(["T", TEMPLATE]) == ["T"] && Parent(["TNumberOfEntries"]) == [];
    assert ["T"] + [TEMPLATE] == ["T", TEMPLATE];
  }

  lemma SameRows(s: Store, t: Store, p: Path)
    requires s.Keys == t.Keys
    ensures Rows(s, p) == Rows(t, p)
  {
    forall k
      ensures k in Rows(s, p) <==> k in Rows(t, p)
    {
      InRows(s, p, k);
      InRows(t, p, k);
    }
  }

  // ---------- What the two operations answer ----------

  /** AddObject adds a row to the table at the path it finds. */
  function Extensible(s: Store, path: string): Outcome<Path> {
    match ParsePath(path)
    case None => Err(InvalidArgument)
    case Some(p) =>
      if p !in s then Err(NotFound)
      else if !s[p].table then Err(InvalidArgument)
      else Ok(p)
  }

  /** DeleteObject takes out the row at the path it finds. */
  function Deletable(s: Store, path: string): Outcome<Path> {
    match ParsePath(path)
    case None => Err(InvalidArgument)
    case Some(p) =>
      if p == [] || !InstanceName(Last(p)) then Err(InvalidArgument)
      else if Parent(p) !in s then Err(NotFound)
      else if !s[Parent(p)].table then Err(InvalidArgument)
      else if p !in s then Err(NotFound)
      else Ok(p)
  }

  // ---------- Numbering rows ----------

  /** The numbers the names spell, gathered one by one. */
  method UsedNumbers(names: set<string>) returns (used: set<int>)
    ensures used == Numbers(names)
  {
    used := {};
    var todo := names;
    ghost var done: set<string> := {};
    while todo != {}
      invariant done + todo == names && done !! todo
      invariant used == Numbers(done)
    {
      var k :| k in todo;
      if InstanceName(k) {
        used := used + {Atoi(k).value};
        assert Numbers(done + {k}) == Numbers(done) + {Atoi(k).value};
      } else {
        assert Numbers(done + {k}) == Numbers(done);
      }
      todo, done := todo - {k}, done + {k};
    }
    assert done == names;
  }

  /** The search for the next row's number. */
  method FirstFree(names: set<string>) returns (instance: int)
    ensures Least(Numbers(names), instance)
    ensures instance <= |names| + 1
  {
    var used := UsedNumbers(names);
    instance := 1;
    RunIsNoMore(used, 0);
    while instance in used
      invariant instance >= 1 && forall m | 1 <= m < instance :: m in used
      invariant instance <= |used| + 1
      decreases |used| + 1 - instance
    {
      RunIsNoMore(used, instance);
      instance := instance + 1;
    }
    LeastIsNear(names, instance);
  }

  method CountRows(names: set<string>) returns (count: nat)
    ensures count == |set k | k in names && InstanceName(k)|
  {
    count := 0;
    var todo := names;
    ghost var counted: set<string> := {};
    while todo != {}
      invariant counted !! todo && todo <= names
      invariant counted == (set k | k in names - todo && InstanceName(k))
      invariant count == |counted|
    {
      var k :| k in todo;
      todo := todo - {k};
      if InstanceName(k) {
        count, counted := count + 1, counted + {k};
      }
    }
    assert counted == set k | k in names && InstanceName(k);
  }

  lemma LeastIsNotTaken(s: Store, p: Path, n: nat)
    requires Least(Numbers(Rows(s, p)), n)
    ensures p + [Itoa(n)] !in s && InstanceName(Itoa(n)) && Segment(Itoa(n))
  {
    AtoiOfItoa(n);
    InRows(s, p, Itoa(n));
  }

  // ---------- The two operations by what is there ----------

  /** AddObject works on a table and nothing else. */
  lemma ExtendsExactly(s: Store, path: string, p: Path)
    requires Spells(path, p)
    ensures Extensible(s, path) ==
      if p in s && s[p].table then Ok(p) else if p in s then Err(InvalidArgument) else Err(NotFound)
  {
    hide ParsePath, Spells;
    PathsParseExactly(path, p);
  }

  /** DeleteObject works on a row of a table and nothing else. */
  lemma DeletesExactly(s: Store, path: string, p: Path)
    requires Spells(path, p) && WellFormed(s)
    ensures Deletable(s, path) == Ok(p) <==>
      p != [] && p in s && s[Parent(p)].table && InstanceName(Last(p))
    ensures Deletable(s, path).Err? ==> Deletable(s, path).failure in {NotFound, InvalidArgument}
    ensures Deletable(s, path) == Err(NotFound) ==> p !in s
  {
    hide ParsePath, Spells;
    PathsParseExactly(path, p);
    if p != [] && p in s {
      assert ChildOk(s, p);
    }
  }

  /** A text that spells no path is refused by both. */
  lemma SpellsNothing(s: Store, path: string)
    requires forall p :: !Spells(path, p)
    ensures Extensible(s, path) == Err(InvalidArgument) && Deletable(s, path) == Err(InvalidArgument)
  {
    hide Spells;
    if ParsePath(path).Some? {
      PathsParseExactly(path, ParsePath(path).value);
    }
  }

  /** A number is in use exactly when some row's name reads as it. */
  lemma NumbersExactly(s: Store, p: Path, n: int)
    ensures n in Numbers(Rows(s, p)) <==> exists k :: p + [k] in s && InstanceName(k) && Atoi(k) == Some(n)
  {
    hide Rows;
    if k :| p + [k] in s && InstanceName(k) && Atoi(k) == Some(n) {
      InRows(s, p, k);
    }
    if n in Numbers(Rows(s, p)) {
      var k :| k in Rows(s, p) && InstanceName(k) && Atoi(k).value == n;
      InRows(s, p, k);
    }
  }
}
