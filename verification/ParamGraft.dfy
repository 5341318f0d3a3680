// Grafting one tree onto another and taking it out again
// (internal/paramtree/graft.go), as functions of the cells.
module ParamGrafts {
  import opened Options
  import opened Paths
  import opened ParamStores

  /** The part of a path that leads through children only. */
  function Trunk(q: Path): Path {
    if q == [] || q[0] == TEMPLATE then [] else [q[0]] + Trunk(q[1..])
  }

  lemma {:induction false} TrunkIsPrefix(q: Path)
    ensures Trunk(q) <= q
    ensures TEMPLATE !in Trunk(q)
    ensures Trunk(q) == q || q[|Trunk(q)|] == TEMPLATE
  {
    if q != [] && q[0] != TEMPLATE {
      TrunkIsPrefix(q[1..]);
    }
  }

  lemma {:induction false} TrunkExtends(p: Path, q: Path)
    requires p <= q && TEMPLATE !in p
    ensures p <= Trunk(q)
  {
    if p != [] {
      assert p[0] == q[0] && p[1..] <= q[1..] && p[0] in p;
      TrunkExtends(p[1..], q[1..]);
    }
  }

  lemma PlainHasNoTemplate(p: Path)
    requires Plain(p)
    ensures TEMPLATE !in p
  {
    TemplateIsNoSegment();
  }

  lemma {:induction false} TrunkIsPlain(s: Store, q: Path)
    requires WellFormed(s) && q in s
    ensures Plain(Trunk(q)) && Trunk(q) in s
  {
    TrunkIsPrefix(q);
    PrefixClosed(s, Trunk(q), q);
    forall i | 0 <= i < |Trunk(q)|
      ensures Segment(Trunk(q)[i])
    {
      PrefixClosed(s, q[..i + 1], q);
      assert ChildOk(s, q[..i + 1]) && Trunk(q)[i] in Trunk(q);
    }
  }

  /** A path in both trees that is a leaf in one of them. */
  ghost predicate ClashAt(h: Store, o: Store, p: Path) {
    p in h && p in o && p != [] && Plain(p) && (h[p].leaf.Some? || o[p].leaf.Some?)
  }

  ghost predicate Clash(h: Store, o: Store) {
    exists p :: ClashAt(h, o, p)
  }

  /** Where the two trees diverge: a node of o whose parent, but not itself, is in h. */
  ghost predicate Frontier(h: Store, o: Store, p: Path) {
    p in o && p != [] && Plain(p) && p !in h && Parent(p) in h
  }

  /** Everything of o that does not hang off a path h already has. */
  ghost function Grafted(h: Store, o: Store): Store {
    h + (map q | q in o && Trunk(q) !in h :: o[q])
  }

  function Leaves(s: Store): map<Path, Value> {
    map p | p in s && Plain(p) && s[p].leaf.Some? :: s[p].leaf.value
  }

  lemma NewInO(h: Store, o: Store, q: Path)
    requires WellFormed(h) && q in o && Trunk(q) !in h
    ensures q !in h
  {
    if q in h {
      TrunkIsPrefix(q);
      PrefixClosed(h, Trunk(q), q);
    }
  }

  /** A successful graft keeps the host's cells, and its leaves are the disjoint union. */
  lemma GraftJoinsLeaves(h: Store, o: Store)
    requires WellFormed(h) && WellFormed(o) && !Clash(h, o)
    ensures forall q | q in h :: q in Grafted(h, o) && Grafted(h, o)[q] == h[q]
    ensures Leaves(h).Keys !! Leaves(o).Keys
    ensures Leaves(Grafted(h, o)) == Leaves(h) + Leaves(o)
  {
    hide Trunk, Plain, Clash, ClashAt, WellFormed, Grafted, Leaves;
    var g := Grafted(h, o);
    HostStays(h, o);
    forall q
      ensures q !in Leaves(h) || q !in Leaves(o)
      ensures q in Leaves(g) <==> q in Leaves(h) + Leaves(o)
      ensures q in Leaves(g) ==> Leaves(g)[q] == (Leaves(h) + Leaves(o))[q]
    {
      LeafJoins(h, o, q);
    }
  }

  lemma LeafJoins(h: Store, o: Store, q: Path)
    requires WellFormed(h) && WellFormed(o) && !Clash(h, o)
    ensures q !in Leaves(h) || q !in Leaves(o)
    ensures q in Leaves(Grafted(h, o)) <==> q in Leaves(h) || q in Leaves(o)
    ensures q in Leaves(Grafted(h, o)) ==>
      Leaves(Grafted(h, o))[q] == if q in Leaves(o) then Leaves(o)[q] else Leaves(h)[q]
  {
    hide Trunk, Plain;
    assert !ClashAt(h, o, q);
    if Plain(q) {
      PlainIsTrunk(q);
    }
  }

  lemma HostStays(h: Store, o: Store)
    requires WellFormed(h)
    ensures forall q | q in h :: q in Grafted(h, o) && Grafted(h, o)[q] == h[q]
  {
    hide WellFormed, Trunk;
    forall q | q in h
      ensures q in Grafted(h, o) && Grafted(h, o)[q] == h[q]
    {
      if q in o && Trunk(q) !in h {
        NewInO(h, o, q);
      }
    }
  }

  lemma PlainIsTrunk(q: Path)
    requires Plain(q)
    ensures Trunk(q) == q
  {
    PlainHasNoTemplate(q);
    TrunkIsPrefix(q);
    TrunkExtends(q, q);
  }

  // ---------- Attaching at the frontier ----------

  lemma {:induction false} FrontierAbove(h: Store, o: Store, q: Path) returns (p: Path)
    requires WellFormed(h) && WellFormed(o) && q in o && Plain(q) && q !in h
    ensures p <= q && Frontier(h, o, p)
    decreases |q|
  {
    assert ChildOk(o, q);
    if Parent(q) in h {
      p := q;
    } else {
      p := FrontierAbove(h, o, Parent(q));
    }
  }

  /** One divergence never lies above another. */
  lemma FrontierIsAntichain(h: Store, o: Store, p: Path, q: Path)
    requires WellFormed(h) && Frontier(h, o, p) && Frontier(h, o, q) && p <= q
    ensures p == q
  {
    if p != q {
      assert p <= Parent(q);
      PrefixClosed(h, p, Parent(q));
    }
  }

  lemma AboveNothing(h: Store, o: Store, p: Path, q: Path)
    requires WellFormed(h) && Frontier(h, o, p) && q in h
    ensures !(p <= q)
  {
    if p <= q {
      PrefixClosed(h, p, q);
    }
  }

  /** What hangs below the divergences is exactly what the graft adds. */
  lemma AddedBelowFrontier(h: Store, o: Store, q: Path) returns (p: Path)
    requires WellFormed(h) && WellFormed(o) && q in o
    ensures Trunk(q) !in h ==> p <= q && Frontier(h, o, p)
    ensures Trunk(q) in h ==> forall r | Frontier(h, o, r) :: !(r <= q)
  {
    TrunkIsPlain(o, q);
    TrunkIsPrefix(q);
    if Trunk(q) !in h {
      p := FrontierAbove(h, o, Trunk(q));
    } else {
      p := [];
      forall r | Frontier(h, o, r)
        ensures !(r <= q)
      {
        if r <= q {
          PlainHasNoTemplate(r);
          TrunkExtends(r, q);
          PrefixClosed(h, r, Trunk(q));
        }
      }
    }
  }

  ghost predicate FrontierPoints(h: Store, o: Store, points: seq<Path>) {
    && (forall i | 0 <= i < |points| :: Frontier(h, o, points[i]))
    && (forall i, j | 0 <= i < j < |points| :: points[i] != points[j])
  }

  ghost function AttachedUpTo(h: Store, o: Store, points: seq<Path>, n: nat): Store
    requires n <= |points|
  {
    if n == 0 then h else AttachedUpTo(h, o, points, n - 1) + Under(o, points[n - 1])
  }

  lemma {:induction false} AttachedAt(h: Store, o: Store, points: seq<Path>, n: nat, q: Path)
    requires n <= |points|
    ensures var t := AttachedUpTo(h, o, points, n);
      && (q in o && (exists i | 0 <= i < n :: points[i] <= q) ==> q in t && t[q] == o[q])
      && (!(q in o && exists i | 0 <= i < n :: points[i] <= q) ==> (q in t <==> q in h) && (q in t ==> t[q] == h[q]))
  {
    if n > 0 {
      AttachedAt(h, o, points, n - 1, q);
    }
  }

  ghost predicate AreTheFrontier(h: Store, o: Store, points: seq<Path>) {
    forall p :: p in points <==> Frontier(h, o, p)
  }

  /** Attaching o's subtrees at the divergences, in any order, is the graft. */
  lemma AttachingGrafts(h: Store, o: Store, points: seq<Path>)
    requires WellFormed(h) && WellFormed(o) && AreTheFrontier(h, o, points)
    ensures AttachedUpTo(h, o, points, |points|) == Grafted(h, o)
  {
    hide WellFormed, Frontier, Trunk, AttachedUpTo;
    var t := AttachedUpTo(h, o, points, |points|);
    forall q
      ensures q in t <==> q in Grafted(h, o)
      ensures q in t ==> t[q] == Grafted(h, o)[q]
    {
      AttachedAt(h, o, points, |points|, q);
      if q in o {
        var p := AddedBelowFrontier(h, o, q);
        if Trunk(q) !in h {
          assert p in points;
          NewInO(h, o, q);
        } else {
          forall i | 0 <= i < |points|
            ensures !(points[i] <= q)
          {
            assert points[i] in points;
          }
        }
      }
    }
  }

  // ---------- Collecting the frontier, child by child ----------

  ghost predicate Via(prefix: Path, names: set<string>, p: Path) {
    prefix < p && p[|prefix|] in names
  }

  /** points are the divergences below prefix by way of the names, and no clash is. */
  ghost predicate Collected(h: Store, o: Store, prefix: Path, names: set<string>, points: seq<Path>) {
    && FrontierPoints(h, o, points)
    && (forall i | 0 <= i < |points| :: Via(prefix, names, points[i]))
    && (forall p | Frontier(h, o, p) && Via(prefix, names, p) :: p in points)
    && (forall p | Via(prefix, names, p) :: !ClashAt(h, o, p))
  }

  /** The names are all that lead from prefix to its plain descendants in o. */
  ghost predicate LeadOn(o: Store, prefix: Path, names: set<string>) {
    forall p | p in o && Plain(p) && prefix < p :: p[|prefix|] in names
  }

  lemma CollectNew(h: Store, o: Store, prefix: Path, done: set<string>, points: seq<Path>, k: string)
    requires WellFormed(h) && Collected(h, o, prefix, done, points) && k !in done
    requires Frontier(h, o, prefix + [k])
    ensures Collected(h, o, prefix, done + {k}, points + [prefix + [k]])
  {
    hide WellFormed;
    var here := prefix + [k];
    assert forall i | 0 <= i < |points| :: points[i][|prefix|] in done;
    forall p | Via(prefix, done + {k}, p)
      ensures Frontier(h, o, p) ==> p in points + [here]
      ensures !ClashAt(h, o, p)
    {
      if !Via(prefix, done, p) {
        assert here <= p;
        if p in h {
          AboveNothing(h, o, here, p);
        }
        if Frontier(h, o, p) {
          FrontierIsAntichain(h, o, here, p);
        }
      }
    }
  }

  lemma CollectBelow(h: Store, o: Store, prefix: Path, done: set<string>, points: seq<Path>,
                     k: string, names: set<string>, more: seq<Path>)
    requires Collected(h, o, prefix, done, points) && k !in done
    requires prefix + [k] in h && !ClashAt(h, o, prefix + [k])
    requires LeadOn(o, prefix + [k], names) && Collected(h, o, prefix + [k], names, more)
    ensures Collected(h, o, prefix, done + {k}, points + more)
  {
    var here := prefix + [k];
    forall p | Via(prefix, done + {k}, p)
      ensures Frontier(h, o, p) ==> p in points + more
      ensures !ClashAt(h, o, p)
    {
      if !Via(prefix, done, p) && p != here {
        assert here < p && p[|here|] in names ==> Via(here, names, p);
      }
    }
    forall i, j | 0 <= i < |points| && 0 <= j < |more|
      ensures points[i] != more[j]
    {
      assert points[i][|prefix|] in done && Via(here, names, more[j]) && more[j][|prefix|] == k;
    }
    assert forall j | 0 <= j < |more| :: Via(here, names, more[j]) && Via(prefix, done + {k}, more[j]);
  }

  lemma CollectedAll(h: Store, o: Store, names: set<string>, points: seq<Path>)
    requires Collected(h, o, [], names, points) && LeadOn(o, [], names)
    ensures FrontierPoints(h, o, points) && AreTheFrontier(h, o, points) && !Clash(h, o)
  {
    forall p | p in o && p != [] && Plain(p)
      ensures Via([], names, p)
    {
      assert [] < p;
    }
  }

  /** With those before it attached, the divergence at points[i] is still missing, and
      its parent is the host's own object. */
  lemma NotAttachedYet(h: Store, o: Store, points: seq<Path>, i: nat)
    requires WellFormed(h) && WellFormed(o) && !Clash(h, o) && FrontierPoints(h, o, points) && i < |points|
    ensures var t, p := AttachedUpTo(h, o, points, i), points[i];
      p in o && p != [] && p !in t && Parent(p) in t && t[Parent(p)].leaf.None?
    ensures forall q | q in h :: !(points[i] <= q)
  {
    var p := points[i];
    assert Frontier(h, o, p) && ChildOk(o, p) && !ClashAt(h, o, Parent(p));
    hide WellFormed;
    forall q, r | q in h && Frontier(h, o, r)
      ensures !(r <= q)
    {
      AboveNothing(h, o, r, q);
    }
    AttachedAt(h, o, points, i, p);
    AttachedAt(h, o, points, i, Parent(p));
    forall j | 0 <= j < i
      ensures !(points[j] <= p)
    {
      assert Frontier(h, o, points[j]);
      if points[j] <= p {
        FrontierIsAntichain(h, o, points[j], p);
      }
    }
  }

  // ---------- Unmounting ----------

  /** Unmount takes a node out, unless it is missing, the root or a row of a table. */
  function Unmounted(s: Store, path: string): Outcome<Store> {
    match ParsePath(path)
    case None => Err(InvalidArgument)
    case Some(p) =>
      if p == [] then Err(InvalidArgument)
      else if Parent(p) !in s then Err(NotFound)
      else if s[Parent(p)].leaf.Some? then Err(InvalidArgument)
      else if p !in s then Err(NotFound)
      else if s[Parent(p)].table && InstanceName(Last(p)) then Err(InvalidArgument)
      else Ok(Without(s, p))
  }

  /** Unmount takes out what is there and is neither the root nor a row of a table, with all
      below it; and it answers that something is missing only where it is. */
  lemma UnmountsExactly(s: Store, path: string, p: Path)
    requires Spells(path, p) && WellFormed(s)
    ensures Unmounted(s, path).Ok? <==>
      p != [] && p in s && !(s[Parent(p)].table && InstanceName(Last(p)))
    ensures Unmounted(s, path).Ok? ==>
      forall q :: q in Unmounted(s, path).value <==> q in s && !(p <= q)
    ensures Unmounted(s, path).Ok? ==>
      forall q | q in Unmounted(s, path).value :: Unmounted(s, path).value[q] == s[q]
    ensures Unmounted(s, path) == Err(NotFound) ==> p !in s
  {
    hide ParsePath, Spells;
    PathsParseExactly(path, p);
    if p != [] && p in s {
      assert ChildOk(s, p);
    }
  }

  ghost function UnmountedInTurn(s: Store, roots: seq<string>): Option<Store> {
    if roots == [] then Some(s)
    else
      match UnmountedInTurn(s, roots[..|roots| - 1])
      case None => None
      case Some(t) =>
        match Unmounted(t, roots[|roots| - 1])
        case Ok(u) => Some(u)
        case Err(_) => None
  }

  /** The name a graft gives the subtree it attached at p. */
  function RootName(o: Store, p: Path): string
    requires p in o
  {
    if o[p].leaf.Some? then Join(p) else Join(p) + "."
  }

  ghost predicate RowOfHost(h: Store, p: Path)
    requires p != []
  {
    Parent(p) in h && h[Parent(p)].table && InstanceName(Last(p))
  }

  /** The graft with the subtrees at points taken out again. */
  ghost function Remaining(g: Store, points: seq<Path>): Store {
    map q | q in g && (forall i | 0 <= i < |points| :: !(points[i] <= q)) :: g[q]
  }

  lemma RootNameParses(o: Store, p: Path)
    requires p in o && Plain(p)
    ensures ParsePath(RootName(o, p)) == Some(p)
  {
    ParseJoin(p);
  }

  ghost predicate Names(o: Store, roots: seq<string>, points: seq<Path>) {
    && |roots| == |points|
    && (forall i | 0 <= i < |points| :: points[i] in o && roots[i] == RootName(o, points[i]))
  }

  /** Each name spells the subtree's path, and ends in a dot just when an object is there. */
  lemma NamesSpell(o: Store, roots: seq<string>, points: seq<Path>, i: nat)
    requires Names(o, roots, points) && i < |points| && points[i] != [] && Plain(points[i])
    ensures Spells(roots[i], points[i]) && (EndsDot(roots[i]) <==> o[points[i]].leaf.None?)
  {
    JoinEndsInSegment(points[i]);
  }

  /** Subtrees that can be taken out in any order: none above another. */
  ghost predicate Removable(s: Store, points: seq<Path>) {
    && (forall i | 0 <= i < |points| :: RemovableAt(s, points[i]))
    && (forall i, j | 0 <= i < |points| && 0 <= j < |points| && points[i] <= points[j] :: i == j)
  }

  ghost predicate RemovableAt(s: Store, p: Path) {
    p in s && p != [] && Plain(p) && Parent(p) in s && s[Parent(p)].leaf.None?
  }

  lemma AboveParent(a: Path, p: Path)
    requires p != []
    ensures a <= Parent(p) ==> a <= p
  {
  }

  lemma StillRemovable(s: Store, points: seq<Path>, n: nat)
    requires Removable(s, points) && n < |points|
    ensures var t := Remaining(s, points[..n]);
      RemovableAt(t, points[n]) && t[Parent(points[n])] == s[Parent(points[n])]
  {
    var p := points[n];
    assert RemovableAt(s, p);
    forall i | 0 <= i < n
      ensures !(points[..n][i] <= p) && !(points[..n][i] <= Parent(p))
    {
      AboveParent(points[i], p);
    }
  }

  lemma RemainingSnoc(s: Store, before: seq<Path>, p: Path)
    ensures Without(Remaining(s, before), p) == Remaining(s, before + [p])
  {
    var all := before + [p];
    forall q
      ensures q in Without(Remaining(s, before), p) <==> q in Remaining(s, all)
    {
      assert forall i | 0 <= i < |before| :: all[i] == before[i];
      assert all[|before|] == p;
    }
  }

  /** One root more is unmounted, unless it is a row of a table. */
  lemma NextUnmounted(s: Store, o: Store, roots: seq<string>, points: seq<Path>, n: nat)
    requires Removable(s, points) && Names(o, roots, points) && n < |points|
    ensures n < |roots| && Unmounted(Remaining(s, points[..n]), roots[n]) ==
      if RowOfHost(s, points[n]) then Err(InvalidArgument) else Ok(Remaining(s, points[..n + 1]))
  {
    hide ParsePath, RootName, Remaining;
    var p := points[n];
    assert RemovableAt(s, p);
    StillRemovable(s, points, n);
    RootNameParses(o, p);
    RemainingSnoc(s, points[..n], p);
    assert points[..n] + [p] == points[..n + 1];
  }

  /** Unmounting them one by one takes out exactly them, unless some are rows of a table. */
  lemma {:induction false} UnmountInTurnRemains(s: Store, o: Store, roots: seq<string>, points: seq<Path>)
    requires Removable(s, points) && Names(o, roots, points)
    ensures UnmountedInTurn(s, roots) ==
            if exists i | 0 <= i < |points| :: RowOfHost(s, points[i]) then None
            else Some(Remaining(s, points))
  {
    hide ParsePath, RootName, Remaining, Removable, RowOfHost, Unmounted;
    if points == [] {
      NothingRemains(s, points);
    } else {
      var n := |points| - 1;
      var before := points[..n];
      FewerRemovable(s, o, roots, points, n);
      UnmountInTurnRemains(s, o, roots[..n], before);
      NextUnmounted(s, o, roots, points, n);
      assert points[..n + 1] == points;
    }
  }

  lemma NothingRemains(s: Store, points: seq<Path>)
    requires points == []
    ensures Remaining(s, points) == s
  {
  }

  lemma FewerRemovable(s: Store, o: Store, roots: seq<string>, points: seq<Path>, n: nat)
    requires Removable(s, points) && Names(o, roots, points) && n <= |points|
    ensures Removable(s, points[..n]) && Names(o, roots[..n], points[..n])
    ensures forall i | 0 <= i < |points| :: points[i] != [] && RemovableAt(s, points[i])
  {
    hide RemovableAt;
    assert forall i | 0 <= i < n :: points[..n][i] == points[i];
    forall i | 0 <= i < |points|
      ensures points[i] != []
    {
      RemovableIsNotRoot(s, points[i]);
    }
  }

  lemma RemovableIsNotRoot(s: Store, p: Path)
    requires RemovableAt(s, p)
    ensures p != []
  {
  }

  /** The divergences are removable from the graft. */
  lemma GraftIsRemovable(h: Store, o: Store, points: seq<Path>)
    requires WellFormed(h) && WellFormed(o) && !Clash(h, o) && FrontierPoints(h, o, points)
    ensures Removable(Grafted(h, o), points)
    ensures forall i | 0 <= i < |points| :: RowOfHost(Grafted(h, o), points[i]) <==> RowOfHost(h, points[i])
  {
    GraftJoinsLeaves(h, o);
    forall i | 0 <= i < |points|
      ensures RemovableAt(Grafted(h, o), points[i])
    {
      var p := points[i];
      assert Frontier(h, o, p) && ChildOk(o, p) && !ClashAt(h, o, Parent(p)) && Plain(Parent(p));
      PlainHasNoTemplate(p);
      TrunkExtends(p, p);
      TrunkIsPrefix(p);
      assert Trunk(p) == p && p in Grafted(h, o);
    }
    forall i, j | 0 <= i < |points| && 0 <= j < |points| && points[i] <= points[j]
      ensures i == j
    {
      FrontierIsAntichain(h, o, points[i], points[j]);
    }
  }

  /** Without what hangs below the divergences, the graft is the host. */
  lemma RemainingIsHost(h: Store, o: Store, points: seq<Path>)
    requires WellFormed(h) && WellFormed(o) && !Clash(h, o) && AreTheFrontier(h, o, points)
    ensures Remaining(Grafted(h, o), points) == h
  {
    hide WellFormed, Frontier, Clash, Trunk;
    var t := Remaining(Grafted(h, o), points);
    GraftJoinsLeaves(h, o);
    forall q
      ensures q in t <==> q in h
      ensures q in h ==> t[q] == h[q]
    {
      if q in h {
        forall i | 0 <= i < |points|
          ensures !(points[i] <= q)
        {
          assert points[i] in points;
          AboveNothing(h, o, points[i], q);
        }
      } else if q in Grafted(h, o) {
        var p := AddedBelowFrontier(h, o, q);
        assert p in points;
      }
    }
  }

  /** Unmounting what a graft attached, in any order, restores the host exactly, unless
      some root is a row of a table of the host, which Unmount refuses. */
  lemma UnmountRestoresHost(h: Store, o: Store, roots: seq<string>, points: seq<Path>)
    requires WellFormed(h) && WellFormed(o) && !Clash(h, o)
    requires FrontierPoints(h, o, points) && AreTheFrontier(h, o, points) && Names(o, roots, points)
    ensures UnmountedInTurn(Grafted(h, o), roots) == Some(h)
       <==> forall i | 0 <= i < |points| :: !RowOfHost(h, points[i])
    ensures UnmountedInTurn(Grafted(h, o), roots).Some? ==> UnmountedInTurn(Grafted(h, o), roots).value == h
  {
    hide WellFormed, Frontier, Clash, Names, UnmountedInTurn, Grafted, Remaining;
    GraftIsRemovable(h, o, points);
    UnmountInTurnRemains(Grafted(h, o), o, roots, points);
    RemainingIsHost(h, o, points);
  }
}
