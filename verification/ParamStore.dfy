// What a parameter tree holds, as a value: a cell for every node, keyed by its path.
// The step "{i}", which no segment can spell, leads from a table to its template, so
// the template of a nested table has a path of its own.
module ParamStores {
  import opened Options
  import opened Paths

  const TEMPLATE := "{i}"

  datatype Value = Value(vtype: string, raw: string, writable: bool)

  datatype Attributes = Attributes(notification: int, accessList: Option<seq<string>>)

  /** One node: a leaf carries a value, a table clones its template for new rows. */
  datatype Cell = Cell(leaf: Option<Value>, attrs: Option<Attributes>, table: bool)

  type Store = map<Path, Cell>

  /** Validation of a raw value against a type; its details do not matter here. */
  type Rule = (string, string) -> bool

  datatype Failure = NotFound | InvalidArgument

  datatype Outcome<+T> = Ok(value: T) | Err(failure: Failure)

  function Parent(p: Path): Path
    requires p != []
  {
    p[..|p| - 1]
  }

  function Last(p: Path): string
    requires p != []
  {
    p[|p| - 1]
  }

  lemma ParentAndLast(p: Path)
    requires p != []
    ensures Parent(p) + [Last(p)] == p
  {
  }

  ghost predicate ChildOk(s: Store, p: Path)
    requires p != []
  {
    && Parent(p) in s
    && s[Parent(p)].leaf.None?
    && (Segment(Last(p)) || (Last(p) == TEMPLATE && s[Parent(p)].table))
  }

  /** The cells form one tree: every node hangs off an object, a template off a table. */
  ghost predicate WellFormed(s: Store) {
    && [] in s && s[[]].leaf.None?
    && (forall p | p in s && p != [] :: ChildOk(s, p))
    && (forall p | p in s && s[p].table :: p + [TEMPLATE] in s && s[p].leaf.None?)
  }

  lemma TemplateIsNoSegment()
    ensures !Segment(TEMPLATE)
  {
    assert TEMPLATE[0] in TEMPLATE && !SegmentChar(TEMPLATE[0]);
  }

  lemma {:induction false} PrefixClosed(s: Store, p: Path, q: Path)
    requires WellFormed(s) && q in s && p <= q
    ensures p in s
    ensures p != q ==> s[p].leaf.None? && (Segment(q[|p|]) || s[p].table)
    decreases |q|
  {
    if p != q {
      assert ChildOk(s, q);
      if |p| < |q| - 1 {
        PrefixClosed(s, p, Parent(q));
      } else {
        assert p == Parent(q);
      }
    }
  }

  // ---------- Subtrees ----------

  function Under(s: Store, p: Path): Store {
    map q | q in s && p <= q :: s[q]
  }

  function Without(s: Store, p: Path): Store {
    map q | q in s && !(p <= q) :: s[q]
  }

  /** The subtree at from, moved to the path to. */
  function Moved(s: Store, from: Path, to: Path): Store {
    map q | q in (set r | r in s && from <= r :: to + r[|from|..]) && to <= q && from + q[|to|..] in s
      :: s[from + q[|to|..]]
  }

  lemma MovedAt(s: Store, from: Path, to: Path, q: Path)
    ensures q in Moved(s, from, to) <==> to <= q && from + q[|to|..] in s
    ensures q in Moved(s, from, to) ==> Moved(s, from, to)[q] == s[from + q[|to|..]]
  {
    if to <= q && from + q[|to|..] in s {
      var r := from + q[|to|..];
      assert r[|from|..] == q[|to|..] && to + r[|from|..] == q;
    }
  }

  /** The same cells everywhere but under p. */
  ghost predicate SameOutside(s: Store, t: Store, p: Path) {
    && (forall q | !(p <= q) :: q in s <==> q in t)
    && (forall q | q in s && !(p <= q) :: s[q] == t[q])
  }

  function WithLeaf(s: Store, p: Path, v: Value): Store
    requires p in s
  {
    s[p := s[p].(leaf := Some(v))]
  }

  // ---------- Copying link by link ----------

  /** t is a copy of s's subtree at from, moved to to, as far as the links in done. */
  ghost predicate PartialCopy(s: Store, from: Path, t: Store, to: Path, done: set<string>) {
    && (forall q :: q in t <==> q == to || CopiedVia(s, from, to, done, q))
    && (forall q | q in t && q != to :: t[q] == s[from + q[|to|..]])
  }

  ghost predicate CopiedVia(s: Store, from: Path, to: Path, done: set<string>, q: Path) {
    to < q && q[|to|] in done && from + q[|to|..] in s
  }

  lemma BelowLink(from: Path, to: Path, k: string, q: Path)
    ensures to + [k] <= q <==> to < q && q[|to|] == k
    ensures to + [k] <= q ==> from + [k] + q[|to + [k]|..] == from + q[|to|..]
  {
  }

  lemma GrowCopyAt(s: Store, from: Path, t: Store, to: Path, done: set<string>, k: string, q: Path)
    requires PartialCopy(s, from, t, to, done) && k !in done
    ensures var u := t + Moved(s, from + [k], to + [k]);
      && (q in u <==> q == to || CopiedVia(s, from, to, done + {k}, q))
      && (q in u && q != to ==> u[q] == s[from + q[|to|..]])
  {
    hide Moved;
    MovedAt(s, from + [k], to + [k], q);
    BelowLink(from, to, k, q);
    if to + [k] <= q {
      assert !CopiedVia(s, from, to, done, q);
    } else {
      assert CopiedVia(s, from, to, done + {k}, q) <==> CopiedVia(s, from, to, done, q);
    }
  }

  lemma GrowCopy(s: Store, from: Path, t: Store, to: Path, done: set<string>, k: string)
    requires PartialCopy(s, from, t, to, done) && k !in done
    ensures PartialCopy(s, from, t + Moved(s, from + [k], to + [k]), to, done + {k})
  {
    forall q {
      GrowCopyAt(s, from, t, to, done, k, q);
    }
  }

  /** The cell at the top is not part of the account. */
  lemma RecellTop(s: Store, from: Path, t: Store, to: Path, done: set<string>, cell: Cell)
    requires PartialCopy(s, from, t, to, done)
    ensures PartialCopy(s, from, t[to := cell], to, done)
  {
  }

  lemma CopyIsComplete(s: Store, from: Path, t: Store, to: Path, done: set<string>)
    requires PartialCopy(s, from, t, to, done)
    requires from in s && to in t && t[to] == s[from]
    requires forall o | o in s && from < o :: o[|from|] in done
    ensures t == Moved(s, from, to)
  {
    forall q
      ensures q in t <==> q in Moved(s, from, to)
      ensures q in t ==> t[q] == Moved(s, from, to)[q]
    {
      MovedAt(s, from, to, q);
      if q == to {
        assert from + q[|to|..] == from;
      } else if to <= q {
        assert (from + q[|to|..])[|from|] == q[|to|];
      }
    }
  }
}
