// The nodes of a parameter tree on the heap (internal/paramtree/node.go), and what it
// means for a set of them to form one tree in which every node has one owner.
module ParamNodes {
  import opened Options
  import opened Paths
  import opened ParamStores

  class Node {
    var children: map<string, Node>
    var leaf: Option<Value>
    var attrs: Option<Attributes>
    var template: Node?

    constructor (leaf: Option<Value>, attrs: Option<Attributes>)
      ensures this.children == map[] && this.leaf == leaf && this.attrs == attrs && this.template == null
    {
      this.children, this.leaf, this.attrs, this.template := map[], leaf, attrs, null;
    }
  }

  /** Which node owns which path. A region is one map of these from a base path on. */
  type Region = map<Path, Node>

  function CellOf(n: Node): Cell
    reads n
  {
    Cell(n.leaf, n.attrs, n.template != null)
  }

  ghost function Content(r: Region): Store
    reads r.Values
  {
    map p | p in r :: CellOf(r[p])
  }

  ghost predicate Edge(n: Node, k: string)
    reads n
  {
    k in n.children || (k == TEMPLATE && n.template != null)
  }

  /** The node's own links lead where the region says, and a leaf has none. */
  ghost predicate Fits(r: Region, p: Path)
    requires p in r
    reads r[p]
  {
    var n := r[p];
    && (forall k | k in n.children :: Segment(k) && p + [k] in r && r[p + [k]] == n.children[k])
    && (n.template != null ==> p + [TEMPLATE] in r && r[p + [TEMPLATE]] == n.template)
    && (n.leaf.Some? ==> n.children == map[] && n.template == null)
  }

  ghost predicate Hangs(r: Region, p: Path)
    requires p in r && p != []
    reads if Parent(p) in r then {r[Parent(p)]} else {}
  {
    Parent(p) in r && Edge(r[Parent(p)], Last(p))
  }

  /** No node owns two paths. */
  ghost predicate Unshared(r: Region) {
    forall p, q | p in r && q in r && r[p] == r[q] :: p == q
  }

  /** The region is exactly the tree of nodes below the node at base. */
  ghost predicate Shaped(r: Region, base: Path)
    reads r.Values
  {
    && base in r
    && (forall p | p in r :: base <= p && Fits(r, p))
    && (forall p | p in r && p != base :: Hangs(r, p))
    && Unshared(r)
  }

  lemma {:induction false} RegionPrefixClosed(r: Region, base: Path, p: Path, q: Path)
    requires Shaped(r, base) && q in r && base <= p <= q
    ensures p in r
    ensures p != q ==> Edge(r[p], q[|p|])
    decreases |q|
  {
    if p != q {
      assert Hangs(r, q);
      if |p| < |q| - 1 {
        RegionPrefixClosed(r, base, p, Parent(q));
      } else {
        assert p == Parent(q);
      }
    }
  }

  lemma FitsAt(r: Region, base: Path, p: Path)
    requires Shaped(r, base) && p in r
    ensures base <= p && Fits(r, p)
  {
  }

  lemma BasedAt(r: Region, base: Path)
    requires Shaped(r, base)
    ensures forall q | q in r :: base <= q
  {
  }

  /** Nothing of r lies below a link that its node does not have. */
  lemma NothingBelow(r: Region, base: Path, p: Path, k: string)
    requires Shaped(r, base) && p in r && !Edge(r[p], k)
    ensures forall q | q in r :: !(p + [k] <= q)
  {
    forall q | q in r && p + [k] <= q
      ensures false
    {
      assert q[|p|] == k && p <= q;
      RegionPrefixClosed(r, base, p, q);
    }
  }

  /** The region is one tree, except perhaps for the links of the node at p. */
  ghost predicate SoundBut(r: Region, base: Path, p: Path)
    reads r.Values
  {
    && base in r && p in r && Unshared(r)
    && (forall q | q in r :: base <= q)
    && (forall q | q in r && q != p :: Fits(r, q))
    && (forall q | q in r && q != base :: q != [] && Hangs(r, q))
  }

  /** Joining the region d to r below p, once the node at p has the link to it. */
  lemma JoinedShape(r: Region, base: Path, p: Path, k: string, d: Region)
    requires SoundBut(r, base, p)
    requires forall q | q in r :: !(p + [k] <= q)
    requires r.Values !! d.Values
    requires Shaped(d, p + [k])
    requires Fits(r + d, p) && Edge(r[p], k)
    ensures Shaped(r + d, base)
  {
    var t := r + d;
    forall q | q in t
      ensures base <= q && Fits(t, q)
    {
      if q in r && q != p {
        assert Fits(r, q);
        assert forall x | x in r[q].children :: q + [x] !in d;
      } else if q in d {
        assert Fits(d, q);
      }
    }
    forall q | q in t && q != base
      ensures Hangs(t, q)
    {
      if q in r {
        assert Hangs(r, q);
        assert Parent(q) !in d;
      } else if q == p + [k] {
        assert Parent(q) == p && p !in d;
      } else {
        assert Hangs(d, q);
      }
    }
    JoinedUnshared(r, d);
  }

  lemma JoinedUnshared(r: Region, d: Region)
    requires Unshared(r) && Unshared(d) && r.Values !! d.Values
    ensures Unshared(r + d)
  {
    var t := r + d;
    forall x, y | x in t && y in t && t[x] == t[y]
      ensures x == y
    {
      assert x in r ==> r[x] in r.Values;
      assert y in r ==> r[y] in r.Values;
      assert x in d ==> d[x] in d.Values;
      assert y in d ==> d[y] in d.Values;
    }
  }

  lemma OnlyOwner(r: Region, base: Path, p: Path)
    requires Shaped(r, base) && p in r
    ensures forall q | q in r && q != p :: r[q] != r[p]
  {
    hide Fits, Hangs;
  }

  /** The one write behind every attachment: n, at p, gets the child x. */
  method PutChild(ghost r: Region, ghost base: Path, ghost p: Path, n: Node, k: string, x: Node)
    requires Shaped(r, base) && p in r && r[p] == n && k !in n.children
    modifies n`children
    ensures n.children == old(n.children)[k := x]
    ensures SoundBut(r, base, p)
    ensures Content(r) == old(Content(r))
  {
    hide Unshared;
    OnlyOwner(r, base, p);
    n.children := n.children[k := x];
    forall q | q in r && q != p
      ensures Fits(r, q)
    {
      assert old(Fits(r, q));
    }
    forall q | q in r && q != base
      ensures q != [] && Hangs(r, q)
    {
      assert old(Hangs(r, q));
    }
  }

  method PutTemplate(ghost r: Region, ghost base: Path, ghost p: Path, n: Node, x: Node)
    requires Shaped(r, base) && p in r && r[p] == n && n.template == null
    modifies n`template
    ensures n.template == x
    ensures SoundBut(r, base, p)
    ensures Content(r) == old(Content(r))[p := old(CellOf(n)).(table := true)]
  {
    hide Unshared;
    OnlyOwner(r, base, p);
    n.template := x;
    forall q | q in r && q != p
      ensures Fits(r, q)
    {
      assert old(Fits(r, q));
    }
    forall q | q in r && q != base
      ensures q != [] && Hangs(r, q)
    {
      assert old(Hangs(r, q));
    }
  }

  /** Gives the node n, at p in the region r, the child x that owns the region d. */
  method LinkChild(ghost r: Region, ghost base: Path, ghost p: Path, n: Node, k: string, x: Node, ghost d: Region)
    requires Shaped(r, base) && p in r && r[p] == n
    requires n.leaf.None? && Segment(k) && k !in n.children
    requires p + [k] in d && d[p + [k]] == x && Shaped(d, p + [k]) && r.Values !! d.Values
    modifies n`children
    ensures n.children == old(n.children)[k := x]
    ensures Shaped(r + d, base)
    ensures Content(r + d) == old(Content(r)) + old(Content(d))
    ensures (r + d).Values <= r.Values + d.Values
  {
    hide Shaped, SoundBut;
    TemplateIsNoSegment();
    FitsAt(r, base, p);
    NothingBelow(r, base, p, k);
    BasedAt(d, p + [k]);
    assert n !in d.Values;
    PutChild(r, base, p, n, k, x);
    assert Fits(r + d, p);
    JoinedShape(r, base, p, k, d);
  }

  /** Gives the node n the template x that owns the region d. */
  method LinkTemplate(ghost r: Region, ghost base: Path, ghost p: Path, n: Node, x: Node, ghost d: Region)
    requires Shaped(r, base) && p in r && r[p] == n
    requires n.leaf.None? && n.template == null
    requires p + [TEMPLATE] in d && d[p + [TEMPLATE]] == x && Shaped(d, p + [TEMPLATE]) && r.Values !! d.Values
    modifies n`template
    ensures n.template == x
    ensures Shaped(r + d, base)
    ensures Content(r + d) == old(Content(r))[p := old(CellOf(n)).(table := true)] + old(Content(d))
    ensures (r + d).Values <= r.Values + d.Values
  {
    hide Shaped, SoundBut;
    TemplateIsNoSegment();
    FitsAt(r, base, p);
    NothingBelow(r, base, p, TEMPLATE);
    BasedAt(d, p + [TEMPLATE]);
    assert n !in d.Values;
    PutTemplate(r, base, p, n, x);
    assert Fits(r + d, p);
    JoinedShape(r, base, p, TEMPLATE, d);
  }

  // ---------- Overwriting and detaching ----------

  method PutLeaf(ghost r: Region, ghost base: Path, ghost p: Path, n: Node, v: Value)
    requires Shaped(r, base) && p in r && r[p] == n && n.leaf.Some?
    modifies n`leaf
    ensures n.leaf == Some(v)
    ensures Shaped(r, base)
    ensures Content(r) == WithLeaf(old(Content(r)), p, v)
  {
    FitsAt(r, base, p);
    n.leaf := Some(v);
    forall q | q in r
      ensures Fits(r, q)
    {
      assert old(Fits(r, q));
    }
    forall q | q in r && q != base
      ensures q != [] && Hangs(r, q)
    {
      assert old(Hangs(r, q));
    }
  }

  ghost function Pruned(r: Region, p: Path): Region {
    map q | q in r && !(p <= q) :: r[q]
  }

  lemma PrunedFits(r: Region, p: Path, k: string, q: Path)
    requires p in r && q in r && !(p + [k] <= q) && Fits(r, q)
    requires q == p ==> !Edge(r[p], k)
    ensures Fits(Pruned(r, p + [k]), q)
  {
    forall x | Edge(r[q], x)
      ensures !(p + [k] <= q + [x])
    {
      assert |p| < |q| ==> (q + [x])[..|p| + 1] == q[..|p| + 1];
      assert (q + [x])[..|q|] == q && (p + [k])[..|p|] == p;
      assert |p| == |q| && p + [k] <= q + [x] ==> p + [k] == q + [x];
      assert (q + [x])[|q|] == x && (p + [k])[|p|] == k;
    }
  }

  /** The region is one tree, except that the node at p has lost its link k. */
  ghost predicate SoundButLost(r: Region, base: Path, p: Path, k: string)
    reads r.Values
  {
    && base in r && p in r && Unshared(r)
    && (forall q | q in r :: base <= q && Fits(r, q))
    && (forall q | q in r && q != base && q != p + [k] :: q != [] && Hangs(r, q))
  }

  /** Cutting off the region below a link, once the node at p has lost it. */
  lemma PrunedShape(r: Region, base: Path, p: Path, k: string)
    requires SoundButLost(r, base, p, k) && !Edge(r[p], k)
    ensures Shaped(Pruned(r, p + [k]), base)
  {
    assert base <= p;
    var t := Pruned(r, p + [k]);
    forall q | q in t
      ensures base <= q && Fits(t, q)
    {
      PrunedFits(r, p, k, q);
    }
    forall q | q in t && q != base
      ensures Hangs(t, q)
    {
      assert Hangs(r, q) && Parent(q) <= q;
    }
  }

  method CutChild(ghost r: Region, ghost base: Path, ghost p: Path, n: Node, k: string)
    requires Shaped(r, base) && p in r && r[p] == n && k in n.children
    modifies n`children
    ensures n.children == old(n.children) - {k}
    ensures SoundButLost(r, base, p, k)
  {
    n.children := n.children - {k};
    forall q | q in r
      ensures Fits(r, q)
    {
      assert old(Fits(r, q));
    }
    forall q | q in r && q != base && q != p + [k]
      ensures q != [] && Hangs(r, q)
    {
      assert old(Hangs(r, q));
      ParentAndLast(q);
    }
  }

  /** Takes the child k, with everything below it, off the node n at p. */
  method Detach(ghost r: Region, ghost base: Path, ghost p: Path, n: Node, k: string)
    requires Shaped(r, base) && p in r && r[p] == n && k in n.children
    modifies n`children
    ensures n.children == old(n.children) - {k}
    ensures Shaped(Pruned(r, p + [k]), base)
    ensures Content(Pruned(r, p + [k])) == Without(old(Content(r)), p + [k])
  {
    hide Shaped, SoundButLost;
    FitsAt(r, base, p);
    TemplateIsNoSegment();
    CutChild(r, base, p, n, k);
    PrunedShape(r, base, p, k);
  }

  // ---------- Deep copies ----------

  ghost function Weight(r: Region, p: Path): nat {
    |set q | q in r && p <= q|
  }

  lemma WeightDrops(r: Region, p: Path, k: string)
    requires p in r
    ensures Weight(r, p + [k]) < Weight(r, p)
  {
    var a, b := set q | q in r && p <= q, set q | q in r && p + [k] <= q;
    assert b <= a - {p};
    SubsetSize(b, a - {p});
  }

  lemma {:induction false} SubsetSize<T>(a: set<T>, b: set<T>)
    requires a <= b
    ensures |a| <= |b|
  {
    if a != {} {
      var x :| x in a;
      SubsetSize(a - {x}, b - {x});
    }
  }

  /** A copy m, with region c, of s's subtree at from, complete as far as the links in done. */
  ghost predicate Copying(s: Store, from: Path, to: Path, m: Node, c: Region, done: set<string>)
    reads c.Values
  {
    && to in c && c[to] == m && Shaped(c, to)
    && PartialCopy(s, from, Content(c), to, done)
  }

  lemma LoneNode(s: Store, from: Path, to: Path, m: Node)
    requires m.children == map[] && m.template == null
    ensures Copying(s, from, to, m, map[to := m], {})
  {
    assert Fits(map[to := m], to);
  }

  /** A deep copy of the node at from, as a region of fresh nodes based at to. */
  method Clone(ghost r: Region, ghost base: Path, ghost from: Path, ghost to: Path, n: Node)
    returns (m: Node, ghost c: Region)
    requires Shaped(r, base) && from in r && r[from] == n
    ensures to in c && c[to] == m && Shaped(c, to) && fresh(c.Values)
    ensures Content(c) == Moved(Content(r), from, to)
    decreases Weight(r, from), 3
  {
    hide Shaped, PartialCopy, Moved;
    ghost var s := Content(r);
    m := new Node(n.leaf, n.attrs);
    ghost var lone: Region := map[to := m];
    LoneNode(s, from, to, m);
    assert lone.Values == {m};
    ghost var done;
    c, done := CopyLinks(r, base, from, to, n, m, lone);
    assert c.Values <= (c.Values - lone.Values) + {m};
    assert Content(r) == s;
    assert CellOf(m) == CellOf(n);
    CopyIsComplete(s, from, Content(c), to, done);
  }

  method CopyLinks(ghost r: Region, ghost base: Path, ghost from: Path, ghost to: Path, n: Node, m: Node,
                   ghost c: Region)
    returns (ghost c': Region, ghost done: set<string>)
    requires Shaped(r, base) && from in r && r[from] == n && r.Values !! c.Values
    requires Copying(Content(r), from, to, m, c, {})
    requires m.children == map[] && m.template == null && m.leaf == n.leaf
    modifies m`children, m`template
    ensures Copying(Content(r), from, to, m, c', done)
    ensures forall o | o in Content(r) && from < o :: o[|from|] in done
    ensures (m.template != null) == (n.template != null)
    ensures fresh(c'.Values - c.Values)
    decreases Weight(r, from), 2
  {
    hide Shaped, PartialCopy;
    c' := CopyChildren(r, base, from, to, n, m, c);
    done := n.children.Keys;
    if n.template != null {
      FitsAt(r, base, from);
      assert m in c'.Values;
      TemplateIsNoSegment();
      ghost var before := c';
      c' := CopyTemplate(r, base, from, to, n.template, m, before, done);
      assert c'.Values - c.Values <= (c'.Values - before.Values) + (before.Values - c.Values);
      done := done + {TEMPLATE};
    }
    AllLinksCopied(r, base, from, done);
  }

  method CopyChildren(ghost r: Region, ghost base: Path, ghost from: Path, ghost to: Path, n: Node, m: Node,
                      ghost c: Region)
    returns (ghost c': Region)
    requires Shaped(r, base) && from in r && r[from] == n && r.Values !! c.Values
    requires Copying(Content(r), from, to, m, c, {})
    requires m.children == map[] && m.leaf == n.leaf
    modifies m`children
    ensures Copying(Content(r), from, to, m, c', n.children.Keys)
    ensures fresh(c'.Values - c.Values)
    decreases Weight(r, from), 1
  {
    hide Shaped, PartialCopy;
    c' := c;
    var todo := n.children.Keys;
    ghost var done: set<string> := {};
    ghost var s := Content(r);
    while todo != {}
      invariant done !! todo && done + todo == n.children.Keys && m.children.Keys == done
      invariant Copying(s, from, to, m, c', done)
      invariant fresh(c'.Values - c.Values)
    {
      var k :| k in todo;
      ghost var before := c';
      assert m in before.Values;
      FitsAt(r, base, from);
      c' := CopyChild(r, base, from, to, k, n.children[k], m, before, done);
      assert c'.Values - c.Values <= (c'.Values - before.Values) + (before.Values - c.Values);
      todo, done := todo - {k}, done + {k};
    }
    assert done == n.children.Keys;
  }

  method CopyChild(ghost r: Region, ghost base: Path, ghost from: Path, ghost to: Path, k: string, child: Node,
                   m: Node, ghost c: Region, ghost done: set<string>)
    returns (ghost c': Region)
    requires Shaped(r, base) && from in r && from + [k] in r && r[from + [k]] == child && r.Values !! c.Values
    requires Copying(Content(r), from, to, m, c, done)
    requires m.leaf.None? && Segment(k) && k !in m.children && k !in done
    modifies m`children
    ensures m.children.Keys == old(m.children.Keys) + {k}
    ensures Copying(Content(r), from, to, m, c', done + {k})
    ensures fresh(c'.Values - c.Values)
    decreases Weight(r, from), 0
  {
    hide Shaped, PartialCopy;
    ghost var s := Content(r);
    WeightDrops(r, from, k);
    var x, d := Clone(r, base, from + [k], to + [k], child);
    BasedAt(d, to + [k]);
    GrowCopy(s, from, Content(c), to, done, k);
    LinkChild(c, to, to, m, k, x, d);
    c' := c + d;
  }

  method CopyTemplate(ghost r: Region, ghost base: Path, ghost from: Path, ghost to: Path, template: Node,
                      m: Node, ghost c: Region, ghost done: set<string>)
    returns (ghost c': Region)
    requires Shaped(r, base) && from in r && from + [TEMPLATE] in r && r[from + [TEMPLATE]] == template
    requires r.Values !! c.Values
    requires Copying(Content(r), from, to, m, c, done)
    requires m.leaf.None? && m.template == null && TEMPLATE !in done
    modifies m`template
    ensures m.template != null
    ensures Copying(Content(r), from, to, m, c', done + {TEMPLATE})
    ensures fresh(c'.Values - c.Values)
    decreases Weight(r, from), 0
  {
    hide Shaped, PartialCopy;
    ghost var s := Content(r);
    WeightDrops(r, from, TEMPLATE);
    var x, d := Clone(r, base, from + [TEMPLATE], to + [TEMPLATE], template);
    BasedAt(d, to + [TEMPLATE]);
    ghost var cell := CellOf(m).(table := true);
    RecellTop(s, from, Content(c), to, done, cell);
    GrowCopy(s, from, Content(c)[to := cell], to, done, TEMPLATE);
    LinkTemplate(c, to, to, m, x, d);
    c' := c + d;
  }

  lemma AllLinksCopied(r: Region, base: Path, from: Path, done: set<string>)
    requires Shaped(r, base) && from in r
    requires forall k :: Edge(r[from], k) ==> k in done
    ensures forall o | o in r && from < o :: o[|from|] in done
  {
    forall o | o in r && from < o
      ensures o[|from|] in done
    {
      RegionPrefixClosed(r, base, from, o);
    }
  }
}
