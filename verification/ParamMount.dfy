// Making room at a path: what Mount and AddTable (internal/paramtree/paramtree.go)
// answer and leave behind, as functions of the cells.
module ParamMounts {
  import opened Options
  import opened Paths
  import opened ParamStores

  const BRANCH := Cell(None, None, false)

  /** s with every missing object on the way to p. */
  function Branched(s: Store, p: Path): Store {
    (map i | 0 <= i <= |p| :: p[..i] := BRANCH) + s
  }

  lemma BranchedAt(s: Store, p: Path, q: Path)
    ensures q in Branched(s, p) <==> q in s || q <= p
    ensures q in Branched(s, p) ==> Branched(s, p)[q] == if q in s then s[q] else BRANCH
  {
    if q <= p {
      assert q == p[..|q|];
    }
  }

  ghost predicate BlockedAt(s: Store, p: Path, q: Path) {
    q < p && q in s && s[q].leaf.Some?
  }

  /** The way to p leads through a leaf above it. */
  ghost predicate Blocked(s: Store, p: Path) {
    exists q :: BlockedAt(s, p, q)
  }

  ghost function Mountable(s: Store, path: string): Outcome<Path> {
    match ParsePath(path)
    case None => Err(InvalidArgument)
    case Some(p) =>
      if p == [] || Blocked(s, p) || p in s then Err(InvalidArgument) else Ok(p)
  }

  ghost function TableSite(s: Store, path: string): Outcome<Path> {
    match ParsePath(path)
    case None => Err(InvalidArgument)
    case Some(p) =>
      if p == [] || Blocked(s, p) || (p in s && (s[p].leaf.Some? || s[p].table)) then Err(InvalidArgument)
      else Ok(p)
  }

  /** s with the way to p made, and p a table. */
  function WithTable(s: Store, p: Path): Store {
    Branched(s, p)[p := if p in s then s[p].(table := true) else BRANCH.(table := true)]
  }

  lemma StopsAtLeaf(s: Store, p: Path, q: Path)
    requires q < p && q in s && s[q].leaf.Some?
    ensures Blocked(s, p)
  {
    assert BlockedAt(s, p, q);
  }

  lemma NothingBranched(s: Store)
    requires [] in s
    ensures Branched(s, []) == s
  {
    forall q
      ensures q in Branched(s, []) <==> q in s
    {
      BranchedAt(s, [], q);
    }
  }

  lemma OneMoreBranch(s: Store, p: Path, i: nat)
    requires i < |p|
    ensures p[..i + 1] in s ==> Branched(s, p[..i + 1]) == Branched(s, p[..i])
    ensures p[..i + 1] !in s ==> Branched(s, p[..i + 1]) == Branched(s, p[..i])[p[..i + 1] := BRANCH]
  {
    forall q
      ensures q in Branched(s, p[..i + 1]) <==> q in Branched(s, p[..i]) || q == p[..i + 1]
      ensures q in Branched(s, p[..i]) && q != p[..i + 1] ==> Branched(s, p[..i + 1])[q] == Branched(s, p[..i])[q]
    {
      BranchedAt(s, p[..i + 1], q);
      BranchedAt(s, p[..i], q);
      assert q <= p[..i + 1] ==> q <= p[..i] || q == p[..i + 1];
    }
    BranchedAt(s, p[..i + 1], p[..i + 1]);
    BranchedAt(s, p[..i], p[..i + 1]);
  }

  lemma NothingMissing(s: Store, p: Path)
    requires WellFormed(s) && p in s
    ensures Branched(s, p) == s
  {
    forall q
      ensures q in Branched(s, p) <==> q in s
      ensures q in s ==> Branched(s, p)[q] == s[q]
    {
      BranchedAt(s, p, q);
      if q <= p {
        PrefixClosed(s, q, p);
      }
    }
  }

  /** A leaf or table met on the way was there from the start, and so was all before it. */
  lemma FoundOnTheWay(s: Store, p: Path)
    requires WellFormed(s) && p in Branched(s, p) && Branched(s, p)[p] != BRANCH
    ensures p in s && Branched(s, p) == s && s[p] == Branched(s, p)[p]
  {
    BranchedAt(s, p, p);
    NothingMissing(s, p);
  }

  lemma BlockedByParent(s: Store, p: Path)
    requires p != []
    ensures Blocked(s, p) <==> Blocked(s, Parent(p)) || (Parent(p) in s && s[Parent(p)].leaf.Some?)
  {
    forall q
      ensures BlockedAt(s, p, q) ==> BlockedAt(s, Parent(p), q) || q == Parent(p)
      ensures BlockedAt(s, Parent(p), q) ==> BlockedAt(s, p, q)
    {
      assert q <= p ==> q == p[..|q|];
      assert |q| <= |Parent(p)| ==> Parent(p)[..|q|] == p[..|q|];
    }
    if Parent(p) in s && s[Parent(p)].leaf.Some? {
      assert BlockedAt(s, p, Parent(p));
    }
  }

  /** The object above a site that is not there yet, or is no more than an object. */
  lemma SiteIsFree(s: Store, p: Path)
    requires WellFormed(s) && p != [] && !Blocked(s, p)
    ensures p in s ==> Parent(p) in s && Branched(s, Parent(p)) == s
    ensures p !in s ==> p !in Branched(s, Parent(p))
  {
    if p in s {
      assert ChildOk(s, p);
      NothingMissing(s, Parent(p));
    }
    BranchedAt(s, Parent(p), p);
  }

  /** No leaf among the first i objects on the way to p. */
  ghost predicate ClearTo(s: Store, p: Path, i: nat)
    requires i <= |p|
  {
    forall j | 0 <= j < i :: p[..j] in s ==> s[p[..j]].leaf.None?
  }

  lemma ClearFromStart(s: Store, p: Path)
    ensures ClearTo(s, p, 0)
  {
  }

  lemma ClearOneMore(s: Store, p: Path, i: nat)
    requires i < |p| && ClearTo(s, p, i) && (p[..i] in s ==> s[p[..i]].leaf.None?)
    ensures ClearTo(s, p, i + 1)
  {
  }

  lemma WayIsClear(s: Store, p: Path)
    requires ClearTo(s, p, |p|)
    ensures !Blocked(s, p)
  {
    forall q
      ensures !BlockedAt(s, p, q)
    {
      assert q < p ==> q == p[..|q|];
    }
  }

  // ---------- The two operations by what is there ----------

  /** Every object on the way to p is missing or is no leaf. */
  ghost predicate WayIsOpen(s: Store, p: Path) {
    forall i | 0 <= i < |p| && p[..i] in s :: s[p[..i]].leaf.None?
  }

  lemma OpenExactly(s: Store, p: Path)
    ensures WayIsOpen(s, p) <==> !Blocked(s, p)
  {
    if q :| BlockedAt(s, p, q) {
      assert q == p[..|q|];
    }
    if i :| 0 <= i < |p| && p[..i] in s && s[p[..i]].leaf.Some? {
      assert BlockedAt(s, p, p[..i]);
    }
  }

  /** Mount needs an open way to a place that is free; AddTable also takes an object that is
      no table yet. Whatever else is asked for is an invalid argument. */
  lemma MountsExactly(s: Store, path: string, p: Path)
    requires Spells(path, p)
    ensures Mountable(s, path) == if p != [] && WayIsOpen(s, p) && p !in s then Ok(p) else Err(InvalidArgument)
    ensures TableSite(s, path) ==
      if p != [] && WayIsOpen(s, p) && (p in s ==> s[p].leaf.None? && !s[p].table) then Ok(p) else Err(InvalidArgument)
  {
    hide ParsePath, Spells, Blocked, WayIsOpen;
    PathsParseExactly(path, p);
    OpenExactly(s, p);
  }
}
