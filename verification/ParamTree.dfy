// The parameter tree of one simulated device (internal/paramtree/paramtree.go,
// internal/paramtree/graft.go): a heap of nodes, changed in place. View is its content
// as cells keyed by path; every operation is proved against a function of that.
module ParamTrees {
  import opened Options
  import opened Paths
  import opened ParamStores
  import opened ParamNodes
  import opened ParamBatches
  import opened ParamTables
  import opened ParamGrafts
  import opened ParamMounts

  lemma ContentIsWellFormed(at: Region)
    requires [] in at && at[[]].leaf.None? && Shaped(at, [])
    ensures WellFormed(Content(at))
  {
    var s := Content(at);
    forall p | p in s && p != []
      ensures ChildOk(s, p)
    {
      assert Hangs(at, p) && Fits(at, Parent(p));
    }
    forall p | p in s && s[p].table
      ensures p + [TEMPLATE] in s && s[p].leaf.None?
    {
      assert Fits(at, p);
    }
  }

  datatype Resolved = Resolved(node: Node, oldValue: Value, newValue: Value)

  class Tree {
    var root: Node
    const rule: Rule
    ghost var at: Region

    ghost predicate Valid()
      reads this, at.Values
    {
      [] in at && at[[]] == root && root.leaf.None? && Shaped(at, [])
    }

    ghost function View(): Store
      reads this, at.Values
    {
      Content(at)
    }

    constructor (rule: Rule)
      ensures Valid() && fresh(at.Values)
      ensures View() == map[[] := Cell(None, None, false)]
      ensures this.rule == rule
    {
      var n := new Node(None, None);
      root, at := n, map[[] := n];
      this.rule := rule;
      new;
      assert Fits(at, []);
    }

    lemma ViewIsWellFormed()
      requires Valid()
      ensures WellFormed(View())
    {
      ContentIsWellFormed(at);
    }

    /** The node at p, found by walking the children from the root. */
    method Lookup(p: Path) returns (n: Node?)
      requires Valid() && Plain(p)
      ensures n != null <==> p in at
      ensures n != null ==> n == at[p]
    {
      hide Shaped;
      TemplateIsNoSegment();
      n := root;
      var i := 0;
      assert p[..0] == [];
      while i < |p|
        invariant 0 <= i <= |p|
        invariant p[..i] in at && n == at[p[..i]]
      {
        FitsAt(at, [], p[..i]);
        assert Segment(p[i]);
        assert p[..i + 1] == p[..i] + [p[i]];
        if n.leaf.Some? || p[i] !in n.children {
          NotBelow(at, p, i);
          return null;
        }
        n := n.children[p[i]];
        i := i + 1;
      }
      assert p[..i] == p;
    }

    method Get(path: string) returns (r: Outcome<Value>)
      requires Valid()
      ensures r == Readable(View(), path)
    {
      hide Shaped, ParsePath;
      var p := ParsePath(path);
      if p.None? {
        return Err(InvalidArgument);
      }
      var n := Lookup(p.value);
      if n == null || n.leaf.None? {
        return Err(NotFound);
      }
      return Ok(n.leaf.value);
    }

    method Set(path: string, v: Value) returns (r: Outcome<()>)
      requires Valid()
      modifies at.Values
      ensures Valid()
      ensures var e := Settable(old(View()), rule, path, v);
        && (e.Ok? ==> r == Ok(()) && View() == WithLeaf(old(View()), e.value, v))
        && (e.Err? ==> r == Err(e.failure) && View() == old(View()))
      ensures r.Ok? <==> Takes(old(View()), rule, path, v)
      ensures r.Ok? ==> OnlyReads(old(View()), View(), path, v)
    {
      hide Shaped, ParsePath, Takes, OnlyReads;
      WritesExactly(View(), rule, path, v);
      if Readable(View(), path).Ok? {
        WrittenReads(View(), path, v);
      }
      var p := ParsePath(path);
      if p.None? {
        return Err(InvalidArgument);
      }
      var n := Lookup(p.value);
      if n == null || n.leaf.None? {
        return Err(NotFound);
      }
      if !n.leaf.value.writable || n.leaf.value.vtype != v.vtype || !rule(v.vtype, v.raw) {
        return Err(InvalidArgument);
      }
      PutLeaf(at, [], p.value, n, v);
      return Ok(());
    }

    method SetSystem(path: string, raw: string) returns (r: Outcome<()>)
      requires Valid()
      modifies at.Values
      ensures Valid()
      ensures var e := SystemSettable(old(View()), rule, path, raw);
        && (e.Ok? ==> r == Ok(()))
        && (e.Ok? ==> View() == WithLeaf(old(View()), e.value, old(View()[e.value].leaf.value).(raw := raw)))
        && (e.Err? ==> r == Err(e.failure) && View() == old(View()))
      ensures var held := Readable(old(View()), path);
        && (r.Ok? <==> held.Ok? && rule(held.value.vtype, raw))
        && (r.Ok? ==> OnlyReads(old(View()), View(), path, held.value.(raw := raw)))
    {
      hide Shaped, ParsePath, OnlyReads;
      SystemWritesExactly(View(), rule, path, raw);
      if Readable(View(), path).Ok? {
        WrittenReads(View(), path, Readable(View(), path).value.(raw := raw));
      }
      var p := ParsePath(path);
      if p.None? {
        return Err(InvalidArgument);
      }
      var n := Lookup(p.value);
      if n == null || n.leaf.None? {
        return Err(NotFound);
      }
      if !rule(n.leaf.value.vtype, raw) {
        return Err(InvalidArgument);
      }
      PutLeaf(at, [], p.value, n, n.leaf.value.(raw := raw));
      return Ok(());
    }

    // ---------- Batches ----------

    ghost predicate Resolves(e: Setter, r: Resolved)
      reads this, at.Values
    {
      && Settable(View(), rule, e.path, e.value).Ok?
      && at[Settable(View(), rule, e.path, e.value).value] == r.node
      && r.node.leaf == Some(r.oldValue) && r.newValue == e.value
    }

    /** The entry's fault, unless it resolves to a leaf that takes the value. */
    method Resolve(setters: seq<Setter>, i: nat, seen: set<string>)
      returns (code: Option<Code>, seen': set<string>, r: Option<Resolved>)
      requires Valid() && i < |setters| && seen == Canonical(setters, i)
      ensures code == CodeOf(View(), rule, setters, i)
      ensures seen' == Canonical(setters, i + 1)
      ensures code.None? ==> r.Some? && Resolves(setters[i], r.value)
    {
      hide Shaped, ParsePath;
      CanonicalNext(setters, i);
      var p, v := ParsePath(setters[i].path), setters[i].value;
      if p.None? {
        return Some(MissingLeaf), seen, None;
      }
      if Join(p.value) in seen {
        return Some(DuplicatePath), seen, None;
      }
      seen' := seen + {Join(p.value)};
      var n := Lookup(p.value);
      if n == null || n.leaf.None? {
        return Some(MissingLeaf), seen', None;
      }
      if !n.leaf.value.writable {
        return Some(NotWritable), seen', None;
      }
      if n.leaf.value.vtype != v.vtype {
        return Some(TypeMismatch), seen', None;
      }
      if !rule(v.vtype, v.raw) {
        return Some(InvalidValue), seen', None;
      }
      return None, seen', Some(Resolved(n, n.leaf.value, v));
    }

    /** Every fault in input order; without faults, the leaf each entry goes to. */
    method Preflight(setters: seq<Setter>) returns (resolved: seq<Resolved>, faults: seq<EntryFault>)
      requires Valid()
      ensures faults == Faults(View(), rule, setters)
      ensures faults == [] ==> |resolved| == |setters|
      ensures faults == [] ==> forall i | 0 <= i < |setters| :: Resolves(setters[i], resolved[i])
    {
      hide Shaped, ParsePath, CodeOf, Resolves, Canonical;
      resolved, faults := [], [];
      var seen: set<string> := {};
      assert Canonical(setters, 0) == {} by { NothingCanonical(setters); }
      for i := 0 to |setters|
        invariant seen == Canonical(setters, i)
        invariant faults == FaultsUpTo(View(), rule, setters, i)
        invariant faults == [] ==> |resolved| == i
        invariant faults == [] ==> forall j | 0 <= j < i :: Resolves(setters[j], resolved[j])
      {
        var code, r;
        code, seen, r := Resolve(setters, i, seen);
        if code.Some? {
          faults := faults + [EntryFault(setters[i].path, code.value)];
        } else {
          resolved := resolved + [r.value];
        }
      }
    }

    method CheckBatch(setters: seq<Setter>) returns (faults: seq<EntryFault>)
      requires Valid()
      ensures faults == Faults(View(), rule, setters)
      ensures faults == [] <==> AllTake(View(), rule, setters)
    {
      hide Shaped, ParsePath, Faults, AllTake;
      BatchTakesExactly(View(), rule, setters);
      var _, found := Preflight(setters);
      return found;
    }

    /** All of the batch or nothing. */
    method SetBatch(setters: seq<Setter>) returns (results: seq<BatchResult>, faults: seq<EntryFault>)
      requires Valid()
      modifies at.Values
      ensures Valid()
      ensures faults == Faults(old(View()), rule, setters)
      ensures faults != [] ==> results == [] && View() == old(View())
      ensures faults == [] ==> forall i | 0 <= i < |setters| :: Lands(old(View()), setters[i])
      ensures faults == [] ==> View() == AppliedUpTo(old(View()), setters, |setters|)
      ensures faults == [] ==> |results| == |setters|
      ensures faults == [] ==> forall i | 0 <= i < |setters| :: Reports(old(View()), setters[i], results[i])
      ensures faults == [] <==> AllTake(old(View()), rule, setters)
      ensures faults == [] ==> AllRead(old(View()), View(), setters)
    {
      hide Shaped, ParsePath, Faults, AllTake, AllRead, Lands;
      BatchTakesExactly(View(), rule, setters);
      if Faults(View(), rule, setters) == [] {
        BatchReads(View(), rule, setters);
      }
      results, faults := [], [];
      if setters == [] {
        NoEntriesNoFaults(View(), rule);
        return;
      }
      var resolved;
      resolved, faults := Preflight(setters);
      if faults != [] {
        return;
      }
      results := Apply(setters, resolved);
    }

    /** Overwrites each entry's leaf. */
    method Apply(setters: seq<Setter>, resolved: seq<Resolved>) returns (results: seq<BatchResult>)
      requires Valid() && |resolved| == |setters|
      requires forall i | 0 <= i < |setters| :: Resolves(setters[i], resolved[i])
      modifies at.Values
      ensures Valid()
      ensures forall i | 0 <= i < |setters| :: Lands(old(View()), setters[i])
      ensures View() == AppliedUpTo(old(View()), setters, |setters|)
      ensures |results| == |setters|
      ensures forall i | 0 <= i < |setters| :: Reports(old(View()), setters[i], results[i])
    {
      hide Shaped, Content, ParsePath, Settable, Resolves, Lands, Reports;
      ghost var s := View();
      ReadyToApply(setters, resolved);
      results := [];
      for i := 0 to |setters|
        invariant Valid()
        invariant View() == AppliedUpTo(s, setters, i)
        invariant forall j | 0 <= j < |setters| :: Placed(setters[j], resolved[j])
        invariant forall j | 0 <= j < |setters| :: resolved[j].node.leaf.Some?
        invariant |results| == i
        invariant forall j | 0 <= j < i :: results[j] == ResultOf(setters[j], resolved[j])
      {
        ApplyOne(setters[i], resolved[i]);
        var result := ResultOf(setters[i], resolved[i]);
        results := results + [result];
      }
    }

    method ApplyOne(e: Setter, r: Resolved)
      requires Valid() && Placed(e, r) && r.node.leaf.Some?
      modifies r.node`leaf
      ensures Valid() && r.node.leaf.Some?
      ensures ParsePath(e.path).Some? && ParsePath(e.path).value in old(View())
      ensures View() == WithLeaf(old(View()), ParsePath(e.path).value, e.value)
    {
      hide Shaped, ParsePath;
      PutLeaf(at, [], ParsePath(e.path).value, r.node, r.newValue);
    }

    lemma ReadyToApply(setters: seq<Setter>, resolved: seq<Resolved>)
      requires Valid() && |resolved| == |setters|
      requires forall i | 0 <= i < |setters| :: Resolves(setters[i], resolved[i])
      ensures forall i | 0 <= i < |setters| :: Lands(View(), setters[i])
      ensures forall i | 0 <= i < |setters| :: Placed(setters[i], resolved[i]) && resolved[i].node.leaf.Some?
      ensures forall i | 0 <= i < |setters| :: Reports(View(), setters[i], ResultOf(setters[i], resolved[i]))
    {
      hide Shaped, ParsePath;
      forall i | 0 <= i < |setters|
        ensures Lands(View(), setters[i]) && Placed(setters[i], resolved[i]) && resolved[i].node.leaf.Some?
        ensures Reports(View(), setters[i], ResultOf(setters[i], resolved[i]))
      {
        assert Resolves(setters[i], resolved[i]);
      }
    }

    ghost predicate Placed(e: Setter, r: Resolved)
      reads this
    {
      && ParsePath(e.path).Some? && ParsePath(e.path).value in at && at[ParsePath(e.path).value] == r.node
      && r.newValue == e.value
    }

    // ---------- Making room ----------

    /** The node at p, with every missing object on the way there created. */
    method Descend(p: Path) returns (n: Node?)
      requires Valid() && Plain(p)
      modifies this`at, at.Values
      ensures Valid() && fresh(at.Values - old(at.Values))
      ensures n == null <==> Blocked(old(View()), p)
      ensures n == null ==> View() == old(View())
      ensures n != null ==> View() == Branched(old(View()), p) && p in at && at[p] == n
    {
      hide Shaped, Content, WellFormed, Branched, Blocked, ClearTo, Plain;
      ghost var s, was := View(), at.Values;
      ViewIsWellFormed();
      ContentKeys(at);
      ClearFromStart(s, p);
      NothingBranched(s);
      n := root;
      assert p[..0] == [];
      for i := 0 to |p|
        invariant Valid() && fresh(at.Values - was)
        invariant p[..i] in at && at[p[..i]] == n
        invariant View() == Branched(s, p[..i])
        invariant ClearTo(s, p, i)
      {
        ContentKeys(at);
        if n.leaf.Some? {
          FoundOnTheWay(s, p[..i]);
          assert p[..i] < p;
          StopsAtLeaf(s, p, p[..i]);
          return null;
        }
        ghost var before := at.Values;
        n := StepOn(s, p, i, n);
        assert at.Values - was <= (at.Values - before) + (before - was);
      }
      assert p[..|p|] == p;
      WayIsClear(s, p);
    }

    /** The loop body: one step down the way to p, with s the content at the start. */
    method StepOn(ghost s: Store, p: Path, i: nat, n: Node) returns (child: Node)
      requires Valid() && Plain(p) && i < |p| && p[..i] in at && at[p[..i]] == n && n.leaf.None?
      requires View() == Branched(s, p[..i]) && ClearTo(s, p, i)
      modifies this`at, at.Values
      ensures Valid() && fresh(at.Values - old(at.Values))
      ensures p[..i + 1] in at && at[p[..i + 1]] == child
      ensures View() == Branched(s, p[..i + 1]) && ClearTo(s, p, i + 1)
    {
      hide Shaped, Content, WellFormed, Branched, ClearTo, Plain;
      ContentKeys(at);
      BranchedAt(s, p[..i], p[..i]);
      BranchedAt(s, p[..i], p[..i + 1]);
      OneMoreBranch(s, p, i);
      ClearOneMore(s, p, i);
      OneStepOn(p, i);
      child := StepInto(p[..i], n, p[i]);
    }

    /** The child k of n, created when missing. */
    method StepInto(p: Path, n: Node, k: string) returns (child: Node)
      requires Valid() && p in at && at[p] == n && n.leaf.None? && Segment(k)
      modifies this`at, n`children
      ensures Valid() && fresh(at.Values - old(at.Values))
      ensures p + [k] in at && at[p + [k]] == child
      ensures p + [k] in old(View()) ==> View() == old(View())
      ensures p + [k] !in old(View()) ==> View() == old(View())[p + [k] := BRANCH]
    {
      hide Shaped, Content;
      TemplateIsNoSegment();
      ChildIsThere(at, p, k);
      ContentKeys(at);
      if k in n.children {
        return n.children[k];
      }
      ghost var s := View();
      child := new Node(None, None);
      ghost var d: Region := map[p + [k] := child];
      LoneShape(d, p + [k], child);
      assert View() == s;
      Hang(p, n, k, child, d);
      assert p + [k] in d;
    }

    /** Puts the node n, whose region d is based at the path, into the tree. */
    method Mount(path: string, n: Node, ghost d: Region) returns (r: Outcome<()>)
      requires Valid() && at.Values !! d.Values
      requires ParsePath(path).Some? ==> BasedOn(d, ParsePath(path).value, n)
      modifies this`at, at.Values
      ensures Valid() && fresh(at.Values - old(at.Values) - d.Values)
      ensures var e := Mountable(old(View()), path);
        && (e.Ok? ==> r == Ok(()) && View() == Branched(old(View()), Parent(e.value)) + old(Content(d)))
        && (e.Err? ==> r == Err(e.failure) && View() == old(View()))
    {
      hide Shaped, Content, ParsePath, WellFormed, Branched, Blocked;
      ghost var s := View();
      ViewIsWellFormed();
      var segments := ParsePath(path);
      if segments.None? || segments.value == [] {
        return Err(InvalidArgument);
      }
      var p, k := segments.value, Last(segments.value);
      ParentAndLast(p);
      BlockedByParent(s, p);
      var parent := Descend(Parent(p));
      if parent == null {
        return Err(InvalidArgument);
      }
      ContentKeys(at);
      if parent.leaf.Some? {
        FoundOnTheWay(s, Parent(p));
        return Err(InvalidArgument);
      }
      BranchedAt(s, Parent(p), Parent(p));
      SiteIsFree(s, p);
      TemplateIsNoSegment();
      ChildIsThere(at, Parent(p), k);
      if k in parent.children {
        return Err(InvalidArgument);
      }
      Hang(Parent(p), parent, k, n, d);
      return Ok(());
    }

    /** Makes the object at path a table whose rows are copies of template. */
    method AddTable(path: string, template: Node?, ghost d: Region) returns (r: Outcome<()>)
      requires Valid() && at.Values !! d.Values
      requires ParsePath(path).Some? && template != null ==> BasedOn(d, ParsePath(path).value + [TEMPLATE], template)
      modifies this`at, at.Values
      ensures Valid() && fresh(at.Values - old(at.Values) - d.Values)
      ensures var e := TableSite(old(View()), path);
        && (e.Ok? && template != null ==> r == Ok(()) && View() == WithTable(old(View()), e.value) + old(Content(d)))
        && (e.Err? || template == null ==> r == Err(InvalidArgument) && View() == old(View()))
    {
      hide Shaped, Content, ParsePath, WellFormed, Branched, Blocked;
      ghost var s := View();
      ViewIsWellFormed();
      var segments := ParsePath(path);
      if segments.None? || segments.value == [] || template == null {
        return Err(InvalidArgument);
      }
      var p := segments.value;
      var n := Descend(p);
      if n == null {
        return Err(InvalidArgument);
      }
      ContentKeys(at);
      BranchedAt(s, p, p);
      if n.leaf.Some? || n.template != null {
        FoundOnTheWay(s, p);
        return Err(InvalidArgument);
      }
      Declare(p, n, template, d);
      return Ok(());
    }

    method Declare(p: Path, n: Node, template: Node, ghost d: Region)
      requires Valid() && p in at && at[p] == n && n.leaf.None? && n.template == null
      requires BasedOn(d, p + [TEMPLATE], template) && at.Values !! d.Values
      modifies this`at, n`template
      ensures Valid() && at.Values <= old(at.Values) + d.Values
      ensures p in old(View()) && View() == old(View())[p := old(View())[p].(table := true)] + old(Content(d))
    {
      hide Shaped;
      LinkTemplate(at, [], p, n, template, d);
      BasedAt(d, p + [TEMPLATE]);
      at := at + d;
    }

    // ---------- Tables ----------

    /** Rewrites the counter beside the table at p, if there is one. */
    method SyncEntryCount(p: Path, table: Node)
      requires Valid() && Plain(p) && p in at && at[p] == table
      modifies at.Values
      ensures Valid()
      ensures View() == Synced(old(View()), p)
    {
      hide Shaped, Rows;
      if p == [] {
        return;
      }
      var parent := Lookup(Parent(p));
      ChildIsThere(at, Parent(p), Last(p) + "NumberOfEntries");
      OwnerIsThere(at, p);
      var name := Last(p) + "NumberOfEntries";
      if name !in parent.children || parent.children[name].leaf.None? {
        return;
      }
      var counter := parent.children[name];
      var count := CountRows(table.children.Keys);
      RowsAreChildren(at, p);
      if counter.leaf.value.raw == Itoa(count) {
        SyncedSettles(View(), p);
        return;
      }
      PutLeaf(at, [], CounterPath(p), counter, counter.leaf.value.(raw := Itoa(count)));
    }

    method AddObject(path: string) returns (r: Outcome<int>)
      requires Valid()
      modifies this`at, at.Values
      ensures Valid() && fresh(at.Values - old(at.Values))
      ensures var e := Extensible(old(View()), path);
        && (e.Ok? ==> r.Ok? && Least(Numbers(Rows(old(View()), e.value)), r.value))
        && (e.Ok? ==> View() == RowAdded(old(View()), e.value, Itoa(r.value)))
        && (e.Err? ==> r == Err(e.failure) && View() == old(View()))
    {
      hide Shaped, ParsePath, Rows, Numbers, Moved, Synced;
      var p := ParsePath(path);
      if p.None? {
        return Err(InvalidArgument);
      }
      var n := Lookup(p.value);
      if n == null {
        return Err(NotFound);
      }
      if n.template == null {
        return Err(InvalidArgument);
      }
      var instance := Grow(p.value, n);
      return Ok(instance);
    }

    /** The next row of the table at p, and its counter. */
    method Grow(p: Path, n: Node) returns (instance: int)
      requires Valid() && Plain(p) && p in at && at[p] == n && n.template != null
      modifies this`at, at.Values
      ensures Valid() && fresh(at.Values - old(at.Values))
      ensures Least(Numbers(Rows(old(View()), p)), instance)
      ensures View() == RowAdded(old(View()), p, Itoa(instance))
    {
      hide Shaped, Rows, Numbers, Moved, Synced;
      instance := FirstFree(n.children.Keys);
      RowsAreChildren(at, p);
      NumbersOfRows(n.children.Keys);
      LeastIsNotTaken(View(), p, instance);
      AddRow(p, n, Itoa(instance));
      SyncEntryCount(p, n);
    }

    /** Hangs a copy of the table's template below it, as the row k. */
    method AddRow(p: Path, n: Node, k: string)
      requires Valid() && p in at && at[p] == n && n.template != null
      requires Segment(k) && p + [k] !in at
      modifies this`at, n`children
      ensures Valid() && fresh(at.Values - old(at.Values))
      ensures p in at && at[p] == n
      ensures View() == old(View()) + Moved(old(View()), p + [TEMPLATE], p + [k])
    {
      hide Shaped, Moved;
      FitsAt(at, [], p);
      ghost var s := View();
      var x, d := Clone(at, [], p + [TEMPLATE], p + [k], n.template);
      assert View() == s;
      ChildIsThere(at, p, k);
      Hang(p, n, k, x, d);
    }

    /** The node n, at p, gets the child x, and the tree owns x's region d. */
    method Hang(ghost p: Path, n: Node, k: string, x: Node, ghost d: Region)
      requires Valid() && p in at && at[p] == n && n.leaf.None?
      requires Segment(k) && k !in n.children
      requires p + [k] in d && d[p + [k]] == x && Shaped(d, p + [k]) && at.Values !! d.Values
      modifies this`at, n`children
      ensures Valid() && at.Values <= old(at.Values) + d.Values
      ensures forall q | q in old(at) && !(p + [k] <= q) :: q in at && at[q] == old(at)[q]
      ensures forall q | q in d :: q in at && at[q] == d[q]
      ensures View() == old(View()) + old(Content(d))
    {
      hide Shaped;
      BasedAt(d, p + [k]);
      LinkChild(at, [], p, n, k, x, d);
      at := at + d;
    }

    method DeleteObject(path: string) returns (r: Outcome<()>)
      requires Valid()
      modifies this`at, at.Values
      ensures Valid() && at.Values <= old(at.Values)
      ensures var e := Deletable(old(View()), path);
        && (e.Ok? ==> r == Ok(()) && View() == RowDeleted(old(View()), Parent(e.value), Last(e.value)))
        && (e.Err? ==> r == Err(e.failure) && View() == old(View()))
    {
      hide Shaped, ParsePath, Rows, Synced;
      var segments := ParsePath(path);
      if segments.None? || segments.value == [] {
        return Err(InvalidArgument);
      }
      var p, k := Parent(segments.value), Last(segments.value);
      ParentAndLast(segments.value);
      if !InstanceName(k) {
        return Err(InvalidArgument);
      }
      var n := Lookup(p);
      if n == null {
        return Err(NotFound);
      }
      if n.template == null {
        return Err(InvalidArgument);
      }
      TemplateIsNoNumber();
      ChildIsThere(at, p, k);
      if k !in n.children {
        return Err(NotFound);
      }
      TakeOff(p, n, k);
      SyncEntryCount(p, n);
      return Ok(());
    }

    method TakeOff(p: Path, n: Node, k: string)
      requires Valid() && p in at && at[p] == n && k in n.children
      modifies this`at, n`children
      ensures Valid() && at.Values <= old(at.Values)
      ensures p in at && at[p] == n
      ensures View() == Without(old(View()), p + [k])
    {
      hide Shaped;
      Detach(at, [], p, n, k);
      at := Pruned(at, p + [k]);
    }

    // ---------- Grafts ----------

    method Unmount(path: string) returns (r: Outcome<()>)
      requires Valid()
      modifies this`at, at.Values
      ensures Valid() && at.Values <= old(at.Values)
      ensures var e := Unmounted(old(View()), path);
        && (e.Ok? ==> r == Ok(()) && View() == e.value)
        && (e.Err? ==> r == Err(e.failure) && View() == old(View()))
    {
      hide Shaped, ParsePath;
      var segments := ParsePath(path);
      if segments.None? || segments.value == [] {
        return Err(InvalidArgument);
      }
      var p, k := Parent(segments.value), Last(segments.value);
      ParentAndLast(segments.value);
      var n := Lookup(p);
      if n == null {
        return Err(NotFound);
      }
      if n.leaf.Some? {
        return Err(InvalidArgument);
      }
      TemplateIsNoSegment();
      ChildIsThere(at, p, k);
      if k !in n.children {
        return Err(NotFound);
      }
      if n.template != null && InstanceName(k) {
        return Err(InvalidArgument);
      }
      TakeOff(p, n, k);
      return Ok(());
    }

    /** Where other diverges from this tree, below the nodes dst and src at prefix. */
    method Collect(other: Tree, dst: Node, src: Node, prefix: Path) returns (ok: bool, points: seq<GraftPoint>)
      requires Valid() && other.Valid() && Plain(prefix)
      requires prefix in at && at[prefix] == dst && prefix in other.at && other.at[prefix] == src
      ensures !ok ==> Clash(View(), other.View())
      ensures LeadOn(other.View(), prefix, src.children.Keys)
      ensures ok ==> Collected(View(), other.View(), prefix, src.children.Keys, PathsOf(points))
      ensures ok ==> forall i | 0 <= i < |points| :: PointsAt(at, other.at, points[i])
      decreases Weight(other.at, prefix)
    {
      hide Shaped, Content, Collected, Clash, LeadOn;
      ghost var h, o := View(), other.View();
      ChildrenLeadOn(other.at, prefix);
      ViewIsWellFormed();
      CollectedNothing(h, o, prefix);
      ok, points := true, [];
      var todo := src.children.Keys;
      ghost var done: set<string> := {};
      while todo != {}
        invariant done !! todo && done + todo == src.children.Keys
        invariant Collected(h, o, prefix, done, PathsOf(points))
        invariant forall i | 0 <= i < |points| :: PointsAt(at, other.at, points[i])
      {
        var k :| k in todo;
        var more;
        ok, more := CollectChild(other, dst, src, prefix, k, done, points);
        if !ok {
          return;
        }
        points := points + more;
        todo, done := todo - {k}, done + {k};
      }
      assert done == src.children.Keys;
    }

    /** The loop body: the divergences by way of the child k. */
    method CollectChild(other: Tree, dst: Node, src: Node, prefix: Path, k: string,
                        ghost done: set<string>, ghost points: seq<GraftPoint>)
      returns (ok: bool, more: seq<GraftPoint>)
      requires Valid() && other.Valid() && Plain(prefix)
      requires prefix in at && at[prefix] == dst && prefix in other.at && other.at[prefix] == src
      requires k in src.children && k !in done
      requires Collected(View(), other.View(), prefix, done, PathsOf(points))
      ensures !ok ==> Clash(View(), other.View())
      ensures ok ==> Collected(View(), other.View(), prefix, done + {k}, PathsOf(points + more))
      ensures ok ==> forall i | 0 <= i < |more| :: PointsAt(at, other.at, more[i])
      decreases Weight(other.at, prefix), 0
    {
      hide Shaped, Collected, LeadOn, WellFormed;
      ghost var h, o := View(), other.View();
      TemplateIsNoSegment();
      FitsAt(other.at, [], prefix);
      ChildIsThere(at, prefix, k);
      ViewIsWellFormed();
      var child, path := src.children[k], prefix + [k];
      if k !in dst.children {
        CollectNew(h, o, prefix, done, PathsOf(points), k);
        more := [GraftPoint(dst, k, child, path)];
        PathsOfAppend(points, more);
        assert PathsOf(more) == [path];
        return true, more;
      }
      if dst.children[k].leaf.Some? || child.leaf.Some? {
        assert ClashAt(h, o, path);
        return false, [];
      }
      WeightDrops(other.at, prefix, k);
      ok, more := Collect(other, dst.children[k], child, path);
      if ok {
        CollectBelow(h, o, prefix, done, PathsOf(points), k, child.children.Keys, PathsOf(more));
        PathsOfAppend(points, more);
      }
    }

    /** Joins a copy of everything other has and this tree has not, or nothing at all. */
    method Graft(other: Tree?) returns (r: Outcome<seq<string>>, ghost points: seq<Path>)
      requires Valid()
      requires other != null ==> other.Valid() && other != this && at.Values !! other.at.Values
      modifies this`at, at.Values
      ensures Valid() && fresh(at.Values - old(at.Values))
      ensures r.Err? ==> r == Err(InvalidArgument) && View() == old(View())
      ensures r.Err? <==> other == null || Clash(old(View()), other.View())
      ensures r.Ok? ==> View() == Grafted(old(View()), other.View())
      ensures r.Ok? ==> FrontierPoints(old(View()), other.View(), points)
      ensures r.Ok? ==> AreTheFrontier(old(View()), other.View(), points)
      ensures r.Ok? ==> Names(other.View(), r.value, points)
    {
      hide Shaped, Content, Collected, LeadOn, WellFormed, Names, AreTheFrontier, Grafted, Clash, FrontierPoints;
      points := [];
      if other == null {
        return Err(InvalidArgument), [];
      }
      ghost var h, o := View(), other.View();
      ViewIsWellFormed();
      other.ViewIsWellFormed();
      var ok, found := Collect(other, root, other.root, []);
      if !ok {
        return Err(InvalidArgument), [];
      }
      points := PathsOf(found);
      CollectedAll(h, o, other.root.children.Keys, points);
      AttachingGrafts(h, o, points);
      var roots := Attach(other, found);
      return Ok(roots), points;
    }

    /** The first n points are attached, and everything else is where it was. */
    ghost predicate Attaching(was: Region, h: Store, o: Store, points: seq<GraftPoint>, n: nat)
      requires n <= |points|
      reads this, at.Values
    {
      && (forall q | q in was :: q in at && at[q] == was[q])
      && View() == AttachedUpTo(h, o, PathsOf(points), n)
    }

    /** Attaches a copy of each subtree and names it. */
    method Attach(other: Tree, points: seq<GraftPoint>) returns (roots: seq<string>)
      requires Valid() && other.Valid() && other != this && at.Values !! other.at.Values
      requires FrontierPoints(View(), other.View(), PathsOf(points)) && !Clash(View(), other.View())
      requires forall i | 0 <= i < |points| :: PointsAt(at, other.at, points[i])
      modifies this`at, at.Values
      ensures Valid() && fresh(at.Values - old(at.Values))
      ensures View() == AttachedUpTo(old(View()), other.View(), PathsOf(points), |points|)
      ensures Names(other.View(), roots, PathsOf(points))
    {
      hide Shaped, Content, WellFormed, Clash, FrontierPoints, Names, NamesUpTo, PointsAt, Attaching;
      ghost var h, o, was, from := View(), other.View(), at, other.at;
      NoneAttached(o, points);
      ContentKeys(at);
      ViewIsWellFormed();
      other.ViewIsWellFormed();
      NoNames(o, points);
      ghost var grown: set<Node> := {};
      roots := [];
      for i := 0 to |points|
        invariant fresh(grown) && at.Values <= was.Values + grown
        invariant Valid() && other.Valid() && other.View() == o && other.at == from && at.Values !! from.Values
        invariant Attaching(was, h, o, points, i)
        invariant NamesUpTo(o, roots, points, i)
      {
        var root, added := AttachNext(other, was, h, o, points, i);
        grown := grown + added;
        OneMoreName(o, roots, points, i, root);
        roots := roots + [root];
      }
      AllAttached(was, h, o, points, roots);
    }

    lemma NoneAttached(o: Store, points: seq<GraftPoint>)
      ensures Attaching(at, View(), o, points, 0)
    {
    }

    lemma AllAttached(was: Region, h: Store, o: Store, points: seq<GraftPoint>, roots: seq<string>)
      requires Attaching(was, h, o, points, |points|) && NamesUpTo(o, roots, points, |points|)
      ensures View() == AttachedUpTo(h, o, PathsOf(points), |points|)
      ensures Names(o, roots, PathsOf(points))
    {
      assert PathsOf(points)[..|points|] == PathsOf(points);
    }

    method AttachNext(other: Tree, ghost was: Region, ghost h: Store, ghost o: Store, points: seq<GraftPoint>, i: nat)
      returns (root: string, ghost added: set<Node>)
      requires Valid() && other.Valid() && other != this && at.Values !! other.at.Values
      requires i < |points| && PointsAt(was, other.at, points[i])
      requires Attaching(was, h, o, points, i) && other.View() == o
      requires FrontierPoints(h, o, PathsOf(points)) && !Clash(h, o)
      requires WellFormed(h) && WellFormed(o) && h.Keys == was.Keys
      modifies this`at, at.Values
      ensures Valid() && fresh(added) && at.Values <= old(at.Values) + added
      ensures other.Valid() && other.View() == o
      ensures Attaching(was, h, o, points, i + 1)
      ensures points[i].path in o && root == RootName(o, points[i].path)
    {
      hide Shaped, Content, WellFormed, Clash, FrontierPoints, AttachedUpTo, PathsOf, Under;
      var g := points[i];
      AttachedNext(h, o, points, i);
      NotAttachedYet(h, o, PathsOf(points), i);
      ContentKeys(at);
      ContentKeys(other.at);
      AttachOne(other, g);
      added := at.Values - old(at.Values);
      assert View() == AttachedUpTo(h, o, PathsOf(points), i + 1);
      forall q | q in was
        ensures q in at && at[q] == was[q]
      {
        assert !(g.path <= q);
      }
      root := if g.node.leaf.Some? then Join(g.path) else Join(g.path) + ".";
    }

    method AttachOne(other: Tree, g: GraftPoint)
      requires Valid() && other.Valid() && other != this && at.Values !! other.at.Values
      requires PointsAt(at, other.at, g) && g.path !in at && g.parent.leaf.None?
      modifies this`at, g.parent`children
      ensures Valid() && fresh(at.Values - old(at.Values))
      ensures forall q | q in old(at) && !(g.path <= q) :: q in at && at[q] == old(at)[q]
      ensures View() == old(View()) + Under(other.View(), g.path)
      ensures other.Valid() && other.View() == old(other.View())
    {
      hide Shaped, Content, Moved;
      ParentAndLast(g.path);
      TemplateIsNoSegment();
      ChildIsThere(at, Parent(g.path), g.name);
      ghost var s, o := View(), other.View();
      assert g.parent in at.Values && g.parent !in other.at.Values;
      var x, d := Clone(other.at, [], g.path, g.path, g.node);
      assert View() == s && other.View() == o;
      MovedInPlace(o, g.path);
      Hang(Parent(g.path), g.parent, g.name, x, d);
      assert other.View() == o;
    }

    /** A tree of its own with the same content. */
    method Copy() returns (t: Tree)
      requires Valid()
      ensures t.Valid() && fresh(t) && fresh(t.at.Values)
      ensures t.View() == View() && t.rule == rule
    {
      hide Shaped, Moved, Under, Content;
      t := new Tree(rule);
      var x, d := Clone(at, [], [], [], root);
      CopiedInPlace(at, d);
      assert CellOf(at[[]]) == CellOf(d[[]]);
      t.root, t.at := x, d;
    }
  }

  lemma CopiedInPlace(at: Region, d: Region)
    requires Content(d) == Moved(Content(at), [], []) && [] in at
    ensures Content(d) == Content(at) && [] in d && CellOf(d[[]]) == CellOf(at[[]])
  {
    hide Moved, Under;
    MovedInPlace(Content(at), []);
    assert [] in Content(at) && Content(d)[[]] == CellOf(d[[]]);
  }

  lemma MovedInPlace(s: Store, p: Path)
    ensures Moved(s, p, p) == Under(s, p)
    ensures p == [] ==> Under(s, p) == s
  {
    forall q
      ensures q in Moved(s, p, p) <==> q in Under(s, p)
      ensures q in Under(s, p) ==> Moved(s, p, p)[q] == Under(s, p)[q]
    {
      MovedAt(s, p, p, q);
      assert p <= q ==> p + q[|p|..] == q;
    }
  }

  /** d is the tree of nodes below n, as a region from base on. */
  ghost predicate BasedOn(d: Region, base: Path, n: Node)
    reads d.Values
  {
    base in d && d[base] == n && Shaped(d, base)
  }

  lemma OneStepOn(p: Path, i: nat)
    requires Plain(p) && i < |p|
    ensures p[..i + 1] == p[..i] + [p[i]] && Segment(p[i])
  {
  }

  lemma LoneShape(d: Region, base: Path, n: Node)
    requires d == map[base := n] && n.children == map[] && n.template == null
    ensures Shaped(d, base) && Content(d) == map[base := CellOf(n)]
  {
    assert Fits(d, base);
  }

  lemma ContentKeys(at: Region)
    ensures Content(at).Keys == at.Keys
    ensures forall p | p in at :: Content(at)[p] == CellOf(at[p])
  {
  }

  lemma AttachedNext(h: Store, o: Store, points: seq<GraftPoint>, i: nat)
    requires i < |points|
    ensures |PathsOf(points)| == |points| && PathsOf(points)[i] == points[i].path
    ensures AttachedUpTo(h, o, PathsOf(points), i + 1) ==
            AttachedUpTo(h, o, PathsOf(points), i) + Under(o, points[i].path)
  {
  }

  ghost predicate NamesUpTo(o: Store, roots: seq<string>, points: seq<GraftPoint>, n: nat)
    requires n <= |points|
  {
    Names(o, roots, PathsOf(points)[..n])
  }

  lemma NoNames(o: Store, points: seq<GraftPoint>)
    ensures NamesUpTo(o, [], points, 0)
  {
  }

  lemma OneMoreName(o: Store, roots: seq<string>, points: seq<GraftPoint>, i: nat, root: string)
    requires i < |points| && NamesUpTo(o, roots, points, i)
    requires points[i].path in o && root == RootName(o, points[i].path)
    ensures NamesUpTo(o, roots + [root], points, i + 1)
  {
  }

  /** A subtree to attach: node, at path in the other tree, becomes parent's child name. */
  datatype GraftPoint = GraftPoint(parent: Node, name: string, node: Node, path: Path)

  ghost predicate PointsAt(at: Region, from: Region, g: GraftPoint) {
    && Segment(g.name) && g.path != [] && Last(g.path) == g.name
    && Parent(g.path) in at && at[Parent(g.path)] == g.parent
    && g.path in from && from[g.path] == g.node
  }

  ghost function PathsOf(points: seq<GraftPoint>): seq<Path> {
    seq(|points|, i requires 0 <= i < |points| => points[i].path)
  }

  lemma PathsOfAppend(a: seq<GraftPoint>, b: seq<GraftPoint>)
    ensures PathsOf(a + b) == PathsOf(a) + PathsOf(b)
  {
  }

  lemma CollectedNothing(h: Store, o: Store, prefix: Path)
    ensures Collected(h, o, prefix, {}, PathsOf([]))
  {
  }

  lemma ChildrenLeadOn(at: Region, prefix: Path)
    requires Shaped(at, []) && prefix in at
    ensures LeadOn(Content(at), prefix, at[prefix].children.Keys)
  {
    TemplateIsNoSegment();
    forall p | p in at && Plain(p) && prefix < p
      ensures p[|prefix|] in at[prefix].children
    {
      RegionPrefixClosed(at, [], prefix, p);
      assert Segment(p[|prefix|]);
    }
  }

  /** A node's children are the cells one step below it. */
  lemma ChildIsThere(at: Region, p: Path, k: string)
    requires Shaped(at, []) && k != TEMPLATE
    ensures p + [k] in at ==> p in at && k in at[p].children && at[p].children[k] == at[p + [k]]
    ensures p in at && k in at[p].children ==> p + [k] in at && at[p].children[k] == at[p + [k]]
  {
    if p + [k] in at {
      assert Hangs(at, p + [k]) && Parent(p + [k]) == p;
      assert Fits(at, p);
    } else if p in at {
      assert Fits(at, p);
    }
  }

  lemma OwnerIsThere(at: Region, p: Path)
    requires Shaped(at, []) && p in at && p != []
    ensures Parent(p) in at
  {
    assert Hangs(at, p);
  }

  lemma RowsAreChildren(at: Region, p: Path)
    requires Shaped(at, []) && p in at
    ensures Rows(Content(at), p) == set k | k in at[p].children && InstanceName(k)
  {
    TemplateIsNoNumber();
    forall k
      ensures k in Rows(Content(at), p) <==> k in at[p].children && InstanceName(k)
    {
      InRows(Content(at), p, k);
      if k != TEMPLATE {
        ChildIsThere(at, p, k);
      }
    }
  }

  lemma NumbersOfRows(names: set<string>)
    ensures Numbers(set k | k in names && InstanceName(k)) == Numbers(names)
  {
  }

  function ResultOf(e: Setter, r: Resolved): BatchResult {
    BatchResult(e.path, r.oldValue, r.newValue, r.oldValue.raw != r.newValue.raw)
  }

  lemma NoEntriesNoFaults(s: Store, rule: Rule)
    ensures Faults(s, rule, []) == []
  {
  }

  /** The result an applied entry gets: the value before the batch and the value after. */
  ghost predicate Reports(s: Store, e: Setter, r: BatchResult)
    requires Lands(s, e)
  {
    && r.path == e.path && r.newValue == e.value
    && s[ParsePath(e.path).value].leaf == Some(r.oldValue)
    && r.changed == (r.oldValue.raw != r.newValue.raw)
  }

  // ---------- Helpers ----------

  /** The canonical spellings of the paths of the first n entries. */
  ghost function Canonical(setters: seq<Setter>, n: nat): set<string>
    requires n <= |setters|
  {
    set i | 0 <= i < n && ParsePath(setters[i].path).Some? :: Join(ParsePath(setters[i].path).value)
  }

  lemma NothingCanonical(setters: seq<Setter>)
    ensures Canonical(setters, 0) == {}
  {
  }

  lemma CanonicalNext(setters: seq<Setter>, i: nat)
    requires i < |setters|
    ensures var p := ParsePath(setters[i].path);
      && (p.None? ==> Canonical(setters, i + 1) == Canonical(setters, i))
      && (p.Some? ==> Canonical(setters, i + 1) == Canonical(setters, i) + {Join(p.value)})
      && (p.Some? ==> (Join(p.value) in Canonical(setters, i) <==> Repeats(setters, i)))
  {
    hide ParsePath, Join;
    var p := ParsePath(setters[i].path);
    if p.Some? {
      if Join(p.value) in Canonical(setters, i) {
        var j :| 0 <= j < i && ParsePath(setters[j].path).Some? &&
          Join(ParsePath(setters[j].path).value) == Join(p.value);
        JoinInjective(ParsePath(setters[j].path).value, p.value);
      }
    }
  }

  lemma NotBelow(at: Region, p: Path, i: nat)
    requires Shaped(at, []) && i < |p| && p[..i] in at && !Edge(at[p[..i]], p[i])
    ensures p !in at
  {
    if p in at {
      RegionPrefixClosed(at, [], p[..i], p);
    }
  }
}
