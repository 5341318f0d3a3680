// The USP Add operation on one object (internal/usp/agent/operations.go, HandleAdd): a
// row is created, its initial values are written, and a required value that will not
// apply takes the row out again.
module UspAdds {
  import opened Options
  import opened Paths
  import opened ParamStores
  import opened ParamNodes
  import opened ParamBatches
  import opened ParamTables
  import opened ParamTrees
  import opened SearchPaths

  const INVALID_PATH := 7026
  const PARAM_READ_ONLY := 7010
  const PARAM_ACTION_FAILED := 7008
  const OBJECT_DOES_NOT_EXIST := 7016
  const OBJECT_NOT_CREATABLE := 7017

  datatype Setting = Setting(param: string, value: string, required: bool)

  datatype ParamError = ParamError(param: string, code: int)

  datatype AddResult = Created(path: string, errs: seq<ParamError>) | Refused(code: int)

  // ---------- Writing the initial values ----------

  /** One write: the error code, or 0 with the leaf overwritten. */
  function Written(s: Store, rule: Rule, path: string, raw: string): (int, Store) {
    match Readable(s, path)
    case Err(_) => (INVALID_PATH, s)
    case Ok(cur) =>
      if !cur.writable then (PARAM_READ_ONLY, s)
      else
        match Settable(s, rule, path, cur.(raw := raw))
        case Err(_) => (PARAM_ACTION_FAILED, s)
        case Ok(p) => (0, WithLeaf(s, p, cur.(raw := raw)))
  }

  /** How far the initial values have come; refused once a required one has failed. */
  datatype Filling = Filling(store: Store, errs: seq<ParamError>, refused: Option<int>)

  function Filled(s: Store, rule: Rule, row: string, settings: seq<Setting>, n: nat): Filling
    requires n <= |settings|
  {
    if n == 0 then Filling(s, [], None)
    else
      var f, e := Filled(s, rule, row, settings, n - 1), settings[n - 1];
      if f.refused.Some? then f
      else
        var w := Written(f.store, rule, row + e.param, e.value);
        if w.0 == 0 then f.(store := w.1)
        else if e.required then f.(refused := Some(w.0))
        else f.(errs := f.errs + [ParamError(e.param, w.0)])
  }

  /** The instantiated path of the row k of the table at tablePath. */
  function RowPath(tablePath: string, k: string): string {
    TrimDot(tablePath) + "." + k + "."
  }

  lemma JoinedAppend(a: Path, t: string)
    requires |a| > 1
    ensures Join(a) + "." + t == a[0] + "." + (Join(a[1..]) + "." + t)
  {
    var rest := Join(a[1..]);
    assert (a[0] + "." + rest) + "." + t == a[0] + "." + (rest + "." + t);
  }

  lemma {:induction false} SplitJoinAppend(a: Path, t: string)
    requires a != [] && Dotless(a)
    ensures Split(Join(a) + "." + t) == a + Split(t)
  {
    hide Split;
    if |a| == 1 {
      SplitAppend(a[0], t);
    } else {
      SplitJoinAppend(a[1..], t);
      SplitAppend(a[0], Join(a[1..]) + "." + t);
      JoinedAppend(a, t);
      assert a == [a[0]] + a[1..];
    }
  }

  /** A parameter named relative to a row lies under it, however it is spelled. */
  lemma RelativeLiesUnder(p: Path, param: string)
    requires p != [] && Plain(p)
    ensures ParsePath(Join(p) + "." + param).Some? ==> p <= ParsePath(Join(p) + "." + param).value
  {
    var path := Join(p) + "." + param;
    PlainIsDotless(p);
    if param == "" {
      assert path == Join(p) + ".";
      ParseJoin(p);
    } else {
      assert TrimDot(path) == Join(p) + "." + TrimDot(param);
      SplitJoinAppend(p, TrimDot(param));
    }
  }

  /** A parsed path, when it is not the root's, is its canonical spelling but for the dot. */
  lemma ParsedIsJoined(path: string)
    requires ParsePath(path).Some? && ParsePath(path).value != []
    ensures Join(ParsePath(path).value) == TrimDot(path)
  {
    JoinSplit(TrimDot(path));
  }

  lemma RowPathParses(tablePath: string, k: string)
    requires ParsePath(tablePath).Some? && ParsePath(tablePath).value != [] && Segment(k)
    ensures var p := ParsePath(tablePath).value;
      RowPath(tablePath, k) == Join(p + [k]) + "." && ParsePath(RowPath(tablePath, k)) == Some(p + [k])
  {
    var p := ParsePath(tablePath).value;
    ParsedIsJoined(tablePath);
    JoinSnoc(p, k);
    ParseJoin(p + [k]);
  }

  lemma {:induction false} FillingStaysInside(s: Store, rule: Rule, p: Path, settings: seq<Setting>, n: nat)
    requires n <= |settings| && p != [] && Plain(p)
    ensures SameOutside(s, Filled(s, rule, Join(p) + ".", settings, n).store, p)
  {
    hide ParsePath, Join;
    if n > 0 {
      FillingStaysInside(s, rule, p, settings, n - 1);
      RelativeLiesUnder(p, settings[n - 1].param);
    }
  }

  /** Rolling back restores the tree, whatever was written into the row; the counter
      beside the table is put right, so it is as before exactly when it was in sync. */
  lemma RollbackRestores(s: Store, rule: Rule, p: Path, k: string, settings: seq<Setting>)
    requires WellFormed(s) && Plain(p) && p in s && s[p].table && p + [k] !in s && InstanceName(k) && Segment(k)
    ensures var f := Filled(RowAdded(s, p, k), rule, Join(p + [k]) + ".", settings, |settings|);
      && RowDeleted(f.store, p, k) == Synced(s, p)
      && (RowDeleted(f.store, p, k) == s <==> InSync(s, p))
  {
    hide WellFormed, Synced, RowAdded, Filled, InSync;
    var t := RowAdded(s, p, k);
    var f := Filled(t, rule, Join(p + [k]) + ".", settings, |settings|);
    FillingStaysInside(t, rule, p + [k], settings, |settings|);
    assert Without(f.store, p + [k]) == Without(t, p + [k]);
    AddThenDelete(s, p, k);
  }

  /** With a counter that says seven for an empty table, it does not. */
  lemma RollbackLosesWrongCounter(rule: Rule)
    ensures var f := Filled(RowAdded(MISCOUNTED, ["T"], "1"), rule, Join(["T"] + ["1"]) + ".", [], 0);
      RowDeleted(f.store, ["T"], "1") != MISCOUNTED
  {
    hide RowAdded, RowDeleted;
    WrongCounterIsLost();
  }

  // ---------- What becomes of the initial values ----------

  /** What the row just added answers to a setting: 7026 where it names no leaf, 7010 for a
      leaf that is read-only, 7008 for a text the leaf's type does not admit, 0 otherwise. */
  ghost function SettingCode(blank: Store, rule: Rule, row: string, e: Setting): int {
    var cur := Readable(blank, row + e.param);
    if cur.Err? then 7026
    else if !cur.value.writable then 7010
    else if !rule(cur.value.vtype, e.value) then 7008
    else 0
  }

  /** The settings among the first n that do not go through, in request order. */
  ghost function SettingErrors(blank: Store, rule: Rule, row: string, settings: seq<Setting>, n: nat): seq<ParamError>
    requires n <= |settings|
  {
    if n == 0 then []
    else
      var e := settings[n - 1];
      var code := SettingCode(blank, rule, row, e);
      SettingErrors(blank, rule, row, settings, n - 1) + (if code == 0 then [] else [ParamError(e.param, code)])
  }

  ghost predicate FailsAt(blank: Store, rule: Rule, row: string, settings: seq<Setting>, i: nat)
    requires i < |settings|
  {
    settings[i].required && SettingCode(blank, rule, row, settings[i]) != 0
  }

  /** No required setting before the nth fails. */
  ghost predicate NoneFails(blank: Store, rule: Rule, row: string, settings: seq<Setting>, n: nat)
    requires n <= |settings|
  {
    forall i | 0 <= i < n :: !FailsAt(blank, rule, row, settings, i)
  }

  ghost predicate TakesAt(blank: Store, rule: Rule, row: string, settings: seq<Setting>, i: nat, q: Path)
    requires i < |settings|
  {
    SettingCode(blank, rule, row, settings[i]) == 0 && ParsePath(row + settings[i].param) == Some(q)
  }

  /** The last of the first n settings to go through at the cell q. */
  ghost predicate LastAt(blank: Store, rule: Rule, row: string, settings: seq<Setting>, n: nat, i: nat, q: Path)
    requires i < n <= |settings|
  {
    TakesAt(blank, rule, row, settings, i, q) && forall j | i < j < n :: !TakesAt(blank, rule, row, settings, j, q)
  }

  /** The cell q holds the text of the last of the first n settings to go through there, with
      the type and the writability it had; where none does, it is as it was. */
  ghost predicate FilledAt(blank: Store, t: Store, rule: Rule, row: string, settings: seq<Setting>, n: nat, q: Path)
    requires n <= |settings| && q in blank && q in t
  {
    && t[q] == blank[q].(leaf := t[q].leaf)
    && (forall i | 0 <= i < n && LastAt(blank, rule, row, settings, n, i, q) ::
      blank[q].leaf.Some? && t[q].leaf == Some(blank[q].leaf.value.(raw := settings[i].value)))
    && ((forall i | 0 <= i < n :: !TakesAt(blank, rule, row, settings, i, q)) ==> t[q] == blank[q])
  }

  /** What the first n settings make of the fresh row. */
  ghost predicate FilledTo(blank: Store, t: Store, rule: Rule, row: string, settings: seq<Setting>, n: nat)
    requires n <= |settings|
  {
    t.Keys == blank.Keys && forall q | q in blank :: FilledAt(blank, t, rule, row, settings, n, q)
  }

  /** An Add that is refused leaves the tree without the row; one that is not has filled the
      template's copy, and changed nothing outside it but the counter beside the table. It is
      refused exactly when a required setting does not go through, with the code of the
      first; every setting that does not is listed otherwise. */
  ghost predicate Added(s: Store, rule: Rule, p: Path, k: string, settings: seq<Setting>, r: AddResult, t: Store) {
    var blank, row, n := RowAdded(s, p, k), Join(p + [k]) + ".", |settings|;
    && (NoneFails(blank, rule, row, settings, n) ==>
      && r == Created(row, SettingErrors(blank, rule, row, settings, n))
      && FilledTo(blank, t, rule, row, settings, n))
    && (forall i | 0 <= i < n && FailsAt(blank, rule, row, settings, i) && NoneFails(blank, rule, row, settings, i) ::
      r == Refused(SettingCode(blank, rule, row, settings[i])) && t == Synced(s, p))
    && CopiesTemplate(s, blank, p, k)
  }

  /** The row k holds the cells of the template, one for one; what is outside it is as before,
      but for the counter. */
  ghost predicate CopiesTemplate(s: Store, blank: Store, p: Path, k: string) {
    && (forall q | p + [k] <= q :: CopiedAt(s, blank, p, q))
    && (forall q | !(p + [k] <= q) && !(p != [] && q == CounterPath(p)) ::
      (q in s <==> q in blank) && (q in s ==> blank[q] == s[q]))
  }

  ghost predicate CopiedAt(s: Store, blank: Store, p: Path, q: Path)
    requires |p| < |q|
  {
    var from := p + [TEMPLATE] + q[|p| + 1..];
    (q in blank <==> from in s) && (q in blank && from in s ==> blank[q] == s[from])
  }

  lemma RowCopiesTemplate(s: Store, p: Path, k: string)
    requires WellFormed(s) && p in s && s[p].table && p + [k] !in s && k != TEMPLATE
    ensures CopiesTemplate(s, RowAdded(s, p, k), p, k)
  {
    hide WellFormed, Moved, RowAdded, CounterPath;
    var blank := RowAdded(s, p, k);
    RowAddedIsTemplate(s, p, k);
    forall q | p + [k] <= q
      ensures CopiedAt(s, blank, p, q)
    {
      MovedAt(s, p + [TEMPLATE], p + [k], q);
      assert q in blank <==> q in Under(blank, p + [k]);
    }
  }

  /** Writing into the row never changes what a setting is answered. */
  lemma SameCode(blank: Store, t: Store, rule: Rule, row: string, e: Setting)
    requires SameLeaves(blank, t)
    ensures SettingCode(t, rule, row, e) == SettingCode(blank, rule, row, e)
  {
    hide ParsePath;
    var q := ParsePath(row + e.param);
    if q.Some? && q.value in blank {
      assert LeafKind(blank[q.value]) == LeafKind(t[q.value]);
    }
  }

  lemma WrittenExactly(t: Store, rule: Rule, row: string, e: Setting)
    ensures var w, q := Written(t, rule, row + e.param, e.value), ParsePath(row + e.param);
      && w.0 == SettingCode(t, rule, row, e)
      && (w.0 != 0 ==> w.1 == t)
      && (w.0 == 0 ==> q.Some? && q.value in t && t[q.value].leaf.Some?)
      && (w.0 == 0 ==> w.1 == WithLeaf(t, q.value, t[q.value].leaf.value.(raw := e.value)))
      && SameLeaves(t, w.1)
  {
    hide ParsePath;
  }

  lemma SameLeavesChain(s: Store, t: Store, u: Store)
    requires SameLeaves(s, t) && SameLeaves(t, u)
    ensures SameLeaves(s, u)
  {
    forall q | q in s
      ensures LeafKind(s[q]) == LeafKind(u[q])
    {
      assert q in t;
    }
  }

  /** One more setting that does not go through at q leaves the cell as it was. */
  lemma FilledPast(blank: Store, t: Store, u: Store, rule: Rule, row: string, settings: seq<Setting>, n: nat, m: nat,
                   q: Path)
    requires m == n + 1 <= |settings| && q in blank && q in t && q in u && u[q] == t[q]
    requires FilledAt(blank, t, rule, row, settings, n, q) && !TakesAt(blank, rule, row, settings, n, q)
    ensures FilledAt(blank, u, rule, row, settings, m, q)
  {
    hide TakesAt;
    forall i | 0 <= i < m && LastAt(blank, rule, row, settings, m, i, q)
      ensures blank[q].leaf.Some? && u[q].leaf == Some(blank[q].leaf.value.(raw := settings[i].value))
    {
      assert TakesAt(blank, rule, row, settings, i, q);
      assert LastAt(blank, rule, row, settings, n, i, q);
    }
    if u[q] != blank[q] {
      var i :| 0 <= i < n && TakesAt(blank, rule, row, settings, i, q);
      assert i < m;
    }
  }

  /** One more that does overwrites its text. */
  lemma FilledOnce(blank: Store, t: Store, rule: Rule, row: string, settings: seq<Setting>, n: nat, m: nat, q: Path)
    requires m == n + 1 <= |settings| && q in blank && q in t && SameLeaves(blank, t)
    requires FilledAt(blank, t, rule, row, settings, n, q) && TakesAt(blank, rule, row, settings, n, q)
    ensures t[q].leaf.Some?
    ensures FilledAt(blank, WithLeaf(t, q, t[q].leaf.value.(raw := settings[n].value)), rule, row, settings, m, q)
  {
    hide TakesAt;
    TakesLeaf(blank, rule, row, settings, n, q);
    assert LeafKind(blank[q]) == LeafKind(t[q]);
    assert forall i | 0 <= i < n :: !LastAt(blank, rule, row, settings, m, i, q);
  }

  lemma TakesLeaf(blank: Store, rule: Rule, row: string, settings: seq<Setting>, n: nat, q: Path)
    requires n < |settings| && TakesAt(blank, rule, row, settings, n, q)
    ensures q in blank && blank[q].leaf.Some?
  {
    hide ParsePath;
  }

  lemma FilledOneMore(blank: Store, t: Store, rule: Rule, row: string, settings: seq<Setting>, n: nat)
    requires n < |settings| && SameLeaves(blank, t) && FilledTo(blank, t, rule, row, settings, n)
    ensures FilledTo(blank, Written(t, rule, row + settings[n].param, settings[n].value).1, rule, row, settings, n + 1)
  {
    hide ParsePath, Written, SettingCode, FilledAt, Readable, LeafKind;
    var e := settings[n];
    var u, at := Written(t, rule, row + e.param, e.value).1, ParsePath(row + e.param);
    WrittenExactly(t, rule, row, e);
    SameCode(blank, t, rule, row, e);
    forall q | q in blank
      ensures q in u && FilledAt(blank, u, rule, row, settings, n + 1, q)
    {
      if TakesAt(blank, rule, row, settings, n, q) {
        FilledOnce(blank, t, rule, row, settings, n, n + 1, q);
      } else {
        FilledPast(blank, t, u, rule, row, settings, n, n + 1, q);
      }
    }
  }

  lemma {:induction false} FillsExactly(blank: Store, rule: Rule, row: string, settings: seq<Setting>, n: nat)
    requires n <= |settings|
    ensures var f := Filled(blank, rule, row, settings, n);
      && SameLeaves(blank, f.store)
      && (f.refused.None? <==> NoneFails(blank, rule, row, settings, n))
      && (f.refused.None? ==> f.errs == SettingErrors(blank, rule, row, settings, n))
      && (f.refused.None? ==> FilledTo(blank, f.store, rule, row, settings, n))
      && (forall i | 0 <= i < n && FailsAt(blank, rule, row, settings, i) && NoneFails(blank, rule, row, settings, i) ::
        f.refused == Some(SettingCode(blank, rule, row, settings[i])))
  {
    hide ParsePath, Written, SettingCode, SameLeaves, FilledTo;
    if n == 0 {
      NothingFilled(blank, rule, row, settings);
    } else {
      var f, e := Filled(blank, rule, row, settings, n - 1), settings[n - 1];
      FillsExactly(blank, rule, row, settings, n - 1);
      assert FailsAt(blank, rule, row, settings, n - 1) <==>
        e.required && SettingCode(blank, rule, row, e) != 0;
      if f.refused.None? {
        WrittenExactly(f.store, rule, row, e);
        SameCode(blank, f.store, rule, row, e);
        SameLeavesChain(blank, f.store, Written(f.store, rule, row + e.param, e.value).1);
        FilledOneMore(blank, f.store, rule, row, settings, n - 1);
      }
    }
  }

  lemma NothingFilled(blank: Store, rule: Rule, row: string, settings: seq<Setting>)
    ensures SameLeaves(blank, blank) && FilledTo(blank, blank, rule, row, settings, 0)
  {
  }

  /** What AddOutcome says by its steps, said by its effect. */
  lemma AddsExactly(s: Store, rule: Rule, p: Path, tablePath: string, k: string, settings: seq<Setting>, r: AddResult,
                    t: Store)
    requires WellFormed(s) && p in s && s[p].table && p + [k] !in s && InstanceName(k) && Segment(k)
    requires ParsePath(tablePath) == Some(p) && p != [] && Plain(p)
    requires AddOutcome(s, rule, p, tablePath, k, settings, r, t)
    ensures Added(s, rule, p, k, settings, r, t)
  {
    hide ParsePath, WellFormed, RowAdded, RowDeleted, Filled, SettingCode, FilledTo, SettingErrors, CopiesTemplate,
      Synced, InSync;
    TemplateIsNoNumber();
    RowPathParses(tablePath, k);
    RowCopiesTemplate(s, p, k);
    FillsExactly(RowAdded(s, p, k), rule, Join(p + [k]) + ".", settings, |settings|);
    RollbackRestores(s, rule, p, k, settings);
  }

  // ---------- The operation ----------

  method ApplyOne(tree: Tree, path: string, raw: string) returns (code: int)
    requires tree.Valid()
    modifies tree.at.Values
    ensures tree.Valid()
    ensures (code, tree.View()) == Written(old(tree.View()), tree.rule, path, raw)
  {
    hide Shaped, Content, ParsePath;
    var current := tree.Get(path);
    if current.Err? {
      return INVALID_PATH;
    }
    if !current.value.writable {
      return PARAM_READ_ONLY;
    }
    var r := tree.Set(path, current.value.(raw := raw));
    return if r.Err? then PARAM_ACTION_FAILED else 0;
  }

  /** Writes the initial values of the new row, until a required one fails. */
  method Fill(tree: Tree, row: string, settings: seq<Setting>) returns (errs: seq<ParamError>, refused: Option<int>)
    requires tree.Valid()
    modifies tree.at.Values
    ensures tree.Valid()
    ensures Filling(tree.View(), errs, refused) == Filled(old(tree.View()), tree.rule, row, settings, |settings|)
  {
    hide Shaped, Content, Written;
    errs := [];
    for i := 0 to |settings|
      invariant tree.Valid()
      invariant Filling(tree.View(), errs, None) == Filled(old(tree.View()), tree.rule, row, settings, i)
    {
      var code := ApplyOne(tree, row + settings[i].param, settings[i].value);
      WrittenFailsCleanly(old(tree.View()), tree.rule, row, settings, i);
      if code == 0 {
        continue;
      }
      if settings[i].required {
        RefusedStays(old(tree.View()), tree.rule, row, settings, i + 1);
        return errs, Some(code);
      }
      errs := errs + [ParamError(settings[i].param, code)];
    }
    return errs, None;
  }

  /** A write that fails changes nothing. */
  lemma WrittenFailsCleanly(s: Store, rule: Rule, row: string, settings: seq<Setting>, i: nat)
    requires i < |settings|
    ensures var f := Filled(s, rule, row, settings, i);
      var w := Written(f.store, rule, row + settings[i].param, settings[i].value);
      w.0 != 0 ==> w.1 == f.store
  {
    hide Filled, Readable, Settable;
  }

  lemma {:induction false} RefusedStays(s: Store, rule: Rule, row: string, settings: seq<Setting>, n: nat)
    requires n <= |settings| && Filled(s, rule, row, settings, n).refused.Some?
    ensures Filled(s, rule, row, settings, |settings|) == Filled(s, rule, row, settings, n)
    decreases |settings| - n
  {
    hide Written;
    if n < |settings| {
      RefusedStays(s, rule, row, settings, n + 1);
    }
  }

  /** What Add answers and leaves, with k the new row's number. */
  ghost predicate AddOutcome(s: Store, rule: Rule, p: Path, tablePath: string, k: string, settings: seq<Setting>,
                             r: AddResult, t: Store) {
    var f := Filled(RowAdded(s, p, k), rule, RowPath(tablePath, k), settings, |settings|);
    match f.refused
    case None => r == Created(RowPath(tablePath, k), f.errs) && t == f.store
    case Some(code) => r == Refused(code) && t == RowDeleted(f.store, p, k)
  }

  method AddOne(tree: Tree, reader: Reader, objPath: string, settings: seq<Setting>)
    returns (r: AddResult, ghost instance: int)
    requires tree.Valid() && !tree.View()[[]].table
    modifies tree`at, tree.at.Values
    ensures tree.Valid()
    ensures var s := old(tree.View());
      var tables := Expanded(s, reader, objPath);
      && (|tables| != 1 ==> r == Refused(7016) && tree.View() == s)
      && (forall tablePath | tables == {tablePath} ::
            var e := Extensible(s, tablePath);
            && (e.Err? ==> r == Refused(7017) && tree.View() == s)
            && (e.Ok? ==> Least(Numbers(Rows(s, e.value)), instance))
            && (e.Ok? ==> AddOutcome(s, tree.rule, e.value, tablePath, Itoa(instance), settings, r, tree.View()))
            && (e.Ok? ==> Added(s, tree.rule, e.value, Itoa(instance), settings, r, tree.View())))
  {
    hide Added, AddOutcome;
    var tables := ExpandSearchPath(tree, reader, objPath);
    instance := 0;
    if |tables| != 1 {
      return Refused(OBJECT_DOES_NOT_EXIST), 0;
    }
    var tablePath :| tablePath in tables;
    r, instance := AddTo(tree, tablePath, settings);
  }

  method AddTo(tree: Tree, tablePath: string, settings: seq<Setting>) returns (r: AddResult, ghost instance: int)
    requires tree.Valid() && !tree.View()[[]].table
    modifies tree`at, tree.at.Values
    ensures tree.Valid()
    ensures var s := old(tree.View());
      var e := Extensible(s, tablePath);
      && (e.Err? ==> r == Refused(7017) && tree.View() == s)
      && (e.Ok? ==> Least(Numbers(Rows(s, e.value)), instance))
      && (e.Ok? ==> AddOutcome(s, tree.rule, e.value, tablePath, Itoa(instance), settings, r, tree.View()))
      && (e.Ok? ==> Added(s, tree.rule, e.value, Itoa(instance), settings, r, tree.View()))
  {
    hide Shaped, Content, ParsePath, RowAdded, RowDeleted, Rows, Numbers, Filled, Added;
    ghost var s := tree.View();
    tree.ViewIsWellFormed();
    var added := tree.AddObject(tablePath);
    if added.Err? {
      return Refused(OBJECT_NOT_CREATABLE), 0;
    }
    instance := added.value;
    ghost var p := Extensible(s, tablePath).value;
    LeastIsNotTaken(s, p, added.value);
    RowPathParses(tablePath, Itoa(added.value));
    var row := RowPath(tablePath, Itoa(added.value));
    var errs, refused := Fill(tree, row, settings);
    if refused.Some? {
      RowStays(s, tree.rule, p, Itoa(added.value), settings);
      var _ := tree.DeleteObject(row);
      r := Refused(refused.value);
    } else {
      r := Created(row, errs);
    }
    AddsExactly(s, tree.rule, p, tablePath, Itoa(added.value), settings, r, tree.View());
  }

  /** Whatever is written, the new row is still a row of the table. */
  lemma RowStays(s: Store, rule: Rule, p: Path, k: string, settings: seq<Setting>)
    requires WellFormed(s) && p in s && s[p].table && p + [k] !in s && InstanceName(k) && Plain(p) && Segment(k)
    ensures var t := Filled(RowAdded(s, p, k), rule, Join(p + [k]) + ".", settings, |settings|).store;
      p + [k] in t && p in t && t[p].table
  {
    hide WellFormed, RowAdded, Filled, Join;
    TemplateIsNoNumber();
    NewRowIsThere(s, p, k);
    FillingKeepsPaths(RowAdded(s, p, k), rule, Join(p + [k]) + ".", settings, |settings|);
    FillingStaysInside(RowAdded(s, p, k), rule, p + [k], settings, |settings|);
    assert !(p + [k] <= p);
  }

  lemma {:induction false} FillingKeepsPaths(s: Store, rule: Rule, row: string, settings: seq<Setting>, n: nat)
    requires n <= |settings|
    ensures Filled(s, rule, row, settings, n).store.Keys == s.Keys
  {
    hide ParsePath;
    if n > 0 {
      FillingKeepsPaths(s, rule, row, settings, n - 1);
    }
  }
}
