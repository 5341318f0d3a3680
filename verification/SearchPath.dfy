// USP search paths (internal/usp/agent/operations.go) and what a subscription's
// reference matches (internal/usp/agent/subscriptions.go): TR-369 section 7.5.1 lets
// "*" stand for any instance number.
module SearchPaths {
  import opened Options
  import opened Paths
  import opened ParamStores
  import opened ParamNodes
  import opened ParamBatches
  import opened ParamTrees

  // ---------- Splitting around expressions ----------

  function DepthAfter(c: char, depth: nat): nat {
    if c == '[' then depth + 1 else if c == ']' && depth > 0 then depth - 1 else depth
  }

  /** Splits at the dots that no bracket encloses. */
  function SplitOutside(s: string, depth: nat): (r: seq<string>)
    ensures r != []
    decreases |s|
  {
    if s == "" then [""]
    else
      var r := SplitOutside(s[1..], DepthAfter(s[0], depth));
      if s[0] == '.' && depth == 0 then [""] + r else [[s[0]] + r[0]] + r[1..]
  }

  lemma {:induction false} JoinPrepended(c: char, r: seq<string>)
    requires r != []
    ensures Join([[c] + r[0]] + r[1..]) == [c] + Join(r)
  {
    assert ([[c] + r[0]] + r[1..])[1..] == r[1..];
    if |r| > 1 {
      assert [c] + r[0] + "." + Join(r[1..]) == [c] + (r[0] + "." + Join(r[1..]));
    }
  }

  /** Joining the segments with dots gives the path back, expressions and all. */
  lemma {:induction false} JoinSplitOutside(s: string, depth: nat)
    ensures Join(SplitOutside(s, depth)) == s
    decreases |s|
  {
    if s != "" {
      var r := SplitOutside(s[1..], DepthAfter(s[0], depth));
      JoinSplitOutside(s[1..], DepthAfter(s[0], depth));
      if s[0] == '.' && depth == 0 {
        assert ([""] + r)[1..] == r;
      } else {
        JoinPrepended(s[0], r);
      }
    }
  }

  lemma {:induction false} NoBracketsNoDifference(s: string)
    requires '[' !in s
    ensures SplitOutside(s, 0) == Split(s)
  {
    if s != "" {
      NoBracketsNoDifference(s[1..]);
      assert s[0] in s;
    }
  }

  /** Two lists of segments run together, the last of the one with the first of the other. */
  ghost function Glued(x: seq<string>, r: seq<string>): (g: seq<string>)
    requires x != [] && r != []
    ensures g != []
  {
    x[..|x| - 1] + [x[|x| - 1] + r[0]] + r[1..]
  }

  lemma GluedSoonest(s: string, r: seq<string>)
    requires r != []
    ensures Glued([s], r) == [s + r[0]] + r[1..]
  {
    assert [s][..0] == [];
  }

  lemma GluedLater(s: string, x: seq<string>, r: seq<string>)
    requires x != [] && r != []
    ensures Glued([s] + x, r) == [s] + Glued(x, r)
  {
    assert ([s] + x)[..|x|] == [s] + x[..|x| - 1];
  }

  lemma GluedBehind(c: char, x: seq<string>, r: seq<string>)
    requires x != [] && r != []
    ensures var g := Glued(x, r); Glued([[c] + x[0]] + x[1..], r) == [[c] + g[0]] + g[1..]
  {
    hide Glued;
    if |x| == 1 {
      assert x == [x[0]] && [[c] + x[0]] + x[1..] == [[c] + x[0]];
      GluedSoonest(x[0], r);
      GluedSoonest([c] + x[0], r);
      assert ([c] + x[0]) + r[0] == [c] + (x[0] + r[0]);
    } else {
      assert x == [x[0]] + x[1..];
      GluedLater(x[0], x[1..], r);
      GluedLater([c] + x[0], x[1..], r);
    }
  }

  /** An expression stays whole: with no opening bracket in a or b and no bracket in e, the
      path a[e]b is split where a and b are, and what stands around the expression belongs to
      its segment. */
  lemma ExpressionStaysWhole(a: string, e: string, b: string)
    requires '[' !in a && '[' !in e && ']' !in e && '[' !in b
    ensures SplitOutside(a + ("[" + e + "]" + b), 0) == Glued(Glued(Split(a), ["[" + e + "]"]), Split(b))
  {
    hide Split, SplitOutside, Glued;
    var before, mid, after := Split(a), "[" + e + "]", Split(b);
    NoBracketsNoDifference(b);
    FromBracket(e, b);
    GluedSoonest(mid, after);
    BeforeBrackets(a, mid + b);
    GluedTwice(before, mid, after);
  }

  lemma GluedTwice(x: seq<string>, m: string, r: seq<string>)
    requires x != [] && r != []
    ensures Glued(x, Glued([m], r)) == Glued(Glued(x, [m]), r)
  {
    GluedSoonest(m, r);
    var n := |x| - 1;
    assert Glued(x, [m]) == x[..n] + [x[n] + m];
    assert Glued(x, [m])[..n] == x[..n];
    assert x[n] + (m + r[0]) == x[n] + m + r[0];
  }

  lemma FromBracket(e: string, b: string)
    requires '[' !in e && ']' !in e
    ensures SplitOutside("[" + e + "]" + b, 0) == [("[" + e + "]") + SplitOutside(b, 0)[0]] + SplitOutside(b, 0)[1..]
  {
    var t, r := "[" + e + "]" + b, SplitOutside(b, 0);
    WithinBrackets(e, b);
    assert t[0] == '[' && t[1..] == e + "]" + b;
    assert ['['] + ((e + "]") + r[0]) == ("[" + e + "]") + r[0];
  }

  lemma {:induction false} WithinBrackets(e: string, b: string)
    requires '[' !in e && ']' !in e
    ensures var r := SplitOutside(b, 0);
      SplitOutside(e + "]" + b, 1) == [(e + "]") + r[0]] + r[1..]
    decreases |e|
  {
    var s, r := e + "]" + b, SplitOutside(b, 0);
    if e == "" {
      assert s[0] == ']' && s[1..] == b;
      assert [']'] + r[0] == (e + "]") + r[0];
    } else {
      WithinBrackets(e[1..], b);
      assert s[0] == e[0] && s[1..] == e[1..] + "]" + b && e[0] in e;
      assert [e[0]] + ((e[1..] + "]") + r[0]) == (e + "]") + r[0];
    }
  }

  lemma {:induction false} BeforeBrackets(a: string, t: string)
    requires '[' !in a
    ensures SplitOutside(a + t, 0) == Glued(Split(a), SplitOutside(t, 0))
    decreases |a|
  {
    hide Glued;
    var r := SplitOutside(t, 0);
    if a == "" {
      assert a + t == t && "" + r[0] == r[0];
      GluedSoonest("", r);
    } else {
      BeforeBrackets(a[1..], t);
      assert (a + t)[0] == a[0] && (a + t)[1..] == a[1..] + t && a[0] in a;
      GluedLater("", Split(a[1..]), r);
      GluedBehind(a[0], Split(a[1..]), r);
    }
  }

  /** r with cur put before its first segment. */
  function Prepend(cur: string, r: seq<string>): seq<string>
    requires r != []
  {
    [cur + r[0]] + r[1..]
  }

  lemma PrependNothing(r: seq<string>)
    requires r != []
    ensures Prepend("", r) == r
  {
    assert "" + r[0] == r[0];
  }

  lemma PrependOneMore(cur: string, c: char, r: seq<string>)
    requires r != []
    ensures Prepend(cur, [[c] + r[0]] + r[1..]) == Prepend(cur + [c], r)
  {
    assert cur + ([c] + r[0]) == cur + [c] + r[0];
    assert ([[c] + r[0]] + r[1..])[1..] == r[1..];
  }

  lemma PrependCut(cur: string, r: seq<string>)
    requires r != []
    ensures Prepend(cur, [""] + r) == [cur] + r
  {
    assert ([""] + r)[1..] == r && cur + "" == cur;
  }

  method SplitSearchPath(path: string) returns (segs: seq<string>)
    ensures segs == SplitOutside(path, 0)
    ensures Join(segs) == path
  {
    hide Prepend, Join;
    segs := [];
    var cur: string, depth: nat := "", 0;
    assert path[0..] == path;
    PrependNothing(SplitOutside(path, 0));
    for i := 0 to |path|
      invariant SplitOutside(path, 0) == segs + Prepend(cur, SplitOutside(path[i..], depth))
    {
      var c := path[i];
      assert path[i..][1..] == path[i + 1..];
      ghost var rest := SplitOutside(path[i + 1..], DepthAfter(c, depth));
      PrependNothing(rest);
      PrependCut(cur, rest);
      PrependOneMore(cur, c, rest);
      if c == '[' {
        depth, cur := depth + 1, cur + [c];
      } else if c == ']' {
        depth := if depth > 0 then depth - 1 else depth;
        cur := cur + [c];
      } else if c == '.' && depth == 0 {
        segs, cur := segs + [cur], "";
      } else {
        cur := cur + [c];
      }
    }
    assert path[|path|..] == "" && SplitOutside("", depth) == [""];
    PrependToNothing(cur);
    segs := segs + [cur];
    JoinSplitOutside(path, 0);
  }

  lemma PrependToNothing(cur: string)
    ensures Prepend(cur, [""]) == [cur]
  {
    assert cur + "" == cur;
  }

  // ---------- Expanding ----------

  /** One comparison of an expression segment, "Key==value" or "Key!=value". */
  datatype Term = Term(key: string, value: string, equal: bool)

  /** How an expression segment reads; None when it is not understood. */
  type Reader = string -> Option<seq<Term>>

  ghost predicate Satisfies(s: Store, terms: seq<Term>, instPath: string) {
    forall t | t in terms ::
      Readable(s, instPath + t.key).Ok? && (Readable(s, instPath + t.key).value.raw == t.value) == t.equal
  }

  /** A "==" term asks for a parameter that reads as its value, a "!=" term for one that reads
      as another; a parameter that is not there meets neither. */
  lemma TermsExactly(s: Store, terms: seq<Term>, instPath: string)
    ensures Satisfies(s, terms, instPath) <==>
      forall t | t in terms ::
        var cur := Readable(s, instPath + t.key);
        cur.Ok? && (t.equal ==> cur.value.raw == t.value) && (!t.equal ==> cur.value.raw != t.value)
  {
    hide Readable;
  }

  /** The all-digit names directly under the object a path leads to. */
  ghost function InstanceNames(s: Store, tablePath: string): set<string> {
    match ParsePath(tablePath)
    case None => {}
    case Some(q) => set p | p in s && q < p && |p| == |q| + 1 && Digits(p[|q|]) :: p[|q|]
  }

  function FansOut(seg: string): bool {
    seg == "*" || (seg != "" && seg[0] == '[')
  }

  /** An instance a fan-out segment stands for below the prefix x. */
  ghost predicate Selected(s: Store, reader: Reader, x: string, seg: string, inst: string) {
    && inst in InstanceNames(s, x + ".")
    && (seg == "*" || (reader(seg).Some? && Satisfies(s, reader(seg).value, x + "." + inst + ".")))
  }

  /** The prefixes that one prefix grows into. */
  ghost function GrownFrom(s: Store, reader: Reader, x: string, seg: string): set<string> {
    if FansOut(seg) then
      set inst | inst in InstanceNames(s, x + ".") && Selected(s, reader, x, seg, inst) :: x + "." + inst
    else if x == "" then {seg}
    else {x + "." + seg}
  }

  ghost function Grown(s: Store, reader: Reader, prefixes: set<string>, seg: string): set<string> {
    set x, y | x in prefixes && y in GrownFrom(s, reader, x, seg) :: y
  }

  /** The concrete prefixes after the first n segments. */
  ghost function Expansion(s: Store, reader: Reader, segs: seq<string>, n: nat): set<string>
    requires n <= |segs|
  {
    if n == 0 then {""} else Grown(s, reader, Expansion(s, reader, segs, n - 1), segs[n - 1])
  }

  /** The paths a search path stands for in the tree as it is. */
  ghost function Expanded(s: Store, reader: Reader, path: string): set<string> {
    if '*' !in path && '[' !in path then {path}
    else
      var segs := SplitOutside(TrimDot(path), 0);
      set x | x in Expansion(s, reader, segs, |segs|) :: if EndsDot(path) then x + "." else x
  }

  // ---------- Matching ----------

  predicate SegmentMatches(refSeg: string, seg: string) {
    if refSeg == "*" then Digits(seg) else seg == refSeg
  }

  ghost predicate MatchUpTo(refSegs: seq<string>, segs: seq<string>, n: nat) {
    n <= |refSegs| && n <= |segs| && forall i | 0 <= i < n :: SegmentMatches(refSegs[i], segs[i])
  }

  /** A reference with "*" against a path: as deep, or with a trailing dot at least as deep. */
  ghost predicate WildcardMatches(ref: string, path: string) {
    var r, p := Split(TrimDot(ref)), Split(TrimDot(path));
    (if EndsDot(ref) then |r| <= |p| else |r| == |p|) && MatchUpTo(r, p, |r|)
  }

  ghost predicate ReferenceMatches(ref: string, path: string) {
    && ref != ""
    && (if '*' in ref then WildcardMatches(ref, path) else if EndsDot(ref) then ref <= path else path == ref)
  }

  /** A reference without "*" matches what it spells, or with a trailing dot what it begins;
      an empty one matches nothing. */
  lemma PlainReferences(ref: string, rest: string)
    requires '*' !in ref
    ensures ReferenceMatches(ref, ref + rest) <==> ref != "" && (rest == "" || ref[|ref| - 1] == '.')
    ensures forall path :: ReferenceMatches(ref, path) ==> ref <= path
  {
    assert ref + rest == ref <==> rest == "";
  }

  method MatchWildcardPath(ref: string, path: string) returns (matched: bool)
    ensures matched == WildcardMatches(ref, path)
  {
    var refSegs, pathSegs := Split(TrimDot(ref)), Split(TrimDot(path));
    if EndsDot(ref) {
      if |pathSegs| < |refSegs| {
        return false;
      }
    } else if |pathSegs| != |refSegs| {
      return false;
    }
    for i := 0 to |refSegs|
      invariant MatchUpTo(refSegs, pathSegs, i)
    {
      if refSegs[i] == "*" {
        if !Digits(pathSegs[i]) {
          return false;
        }
      } else if pathSegs[i] != refSegs[i] {
        return false;
      }
    }
    return true;
  }

  /** A subscription matches a path when one of its references does. */
  method Matches(references: seq<string>, path: string) returns (matched: bool)
    ensures matched <==> exists ref :: ref in references && ReferenceMatches(ref, path)
  {
    for i := 0 to |references|
      invariant forall j | 0 <= j < i :: !ReferenceMatches(references[j], path)
    {
      var ref := references[i];
      if ref == "" {
        continue;
      }
      if '*' in ref {
        var hit := MatchWildcardPath(ref, path);
        if hit {
          assert references[i] in references && ReferenceMatches(references[i], path);
          return true;
        }
        continue;
      }
      if EndsDot(ref) {
        if ref <= path {
          assert ref in references && ReferenceMatches(ref, path);
          return true;
        }
        continue;
      }
      if path == ref {
        assert ref in references && ReferenceMatches(ref, path);
        return true;
      }
    }
    return false;
  }

  // ---------- The two agree ----------

  lemma {:induction false} SplitSnoc(s: string, y: string)
    requires '.' !in y
    ensures Split(s + "." + y) == Split(s) + [y]
  {
    if s == "" {
      SplitDotless(y);
      assert (s + "." + y)[1..] == y && (s + "." + y)[0] == '.';
    } else {
      SplitSnoc(s[1..], y);
      assert (s + "." + y)[1..] == s[1..] + "." + y && (s + "." + y)[0] == s[0];
      var r := Split(s[1..]);
      assert (r + [y])[1..] == r[1..] + [y];
    }
  }

  /** The literal segments hold no dots and no expressions. */
  ghost predicate Literal(segs: seq<string>) {
    segs != [] && segs[0] != "" && segs[0] != "*" && forall i | 0 <= i < |segs| :: '.' !in segs[i] && '[' !in segs[i]
  }

  lemma DigitsAreDotless(s: string)
    requires Digits(s)
    ensures '.' !in s
  {
  }

  ghost predicate GrowsBy(s: Store, x: string, seg: string, k: string) {
    '.' !in k && if seg == "*" then k in InstanceNames(s, x + ".") else k == seg
  }

  lemma FansOutPlainly(seg: string)
    requires '[' !in seg
    ensures FansOut(seg) <==> seg == "*"
  {
    if seg != "" {
      assert seg[0] in seg;
    }
  }

  /** What one segment grows a prefix into. */
  lemma GrownFromShape(s: Store, reader: Reader, x: string, seg: string, y: string) returns (k: string)
    requires x != "" && '.' !in seg && '[' !in seg
    requires y in GrownFrom(s, reader, x, seg)
    ensures y == x + "." + k && GrowsBy(s, x, seg, k)
  {
    FansOutPlainly(seg);
    if FansOut(seg) {
      k :| k in InstanceNames(s, x + ".") && y == x + "." + k;
      InstanceNamesAreDigits(s, x + ".", k);
      DigitsAreDotless(k);
    } else {
      k := seg;
    }
  }

  lemma GrowsInto(s: Store, reader: Reader, x: string, seg: string, k: string)
    requires x != "" && '[' !in seg && GrowsBy(s, x, seg, k)
    ensures x + "." + k in GrownFrom(s, reader, x, seg)
  {
    FansOutPlainly(seg);
    if FansOut(seg) {
      assert Selected(s, reader, x, seg, k);
    }
  }

  lemma InstanceNamesAreDigits(s: Store, tablePath: string, k: string)
    requires k in InstanceNames(s, tablePath)
    ensures Digits(k)
  {
  }

  lemma FirstSegment(s: Store, reader: Reader, segs: seq<string>)
    requires Literal(segs)
    ensures Expansion(s, reader, segs, 1) == {segs[0]}
  {
    var seg := segs[0];
    assert seg[0] in seg && !FansOut(seg);
    assert GrownFrom(s, reader, "", seg) == {seg};
    assert Expansion(s, reader, segs, 0) == {""};
    assert Expansion(s, reader, segs, 1) == Grown(s, reader, {""}, seg);
  }

  /** After n segments every prefix has n segments of its own. */
  lemma {:induction false} ExpansionIsDeep(s: Store, reader: Reader, segs: seq<string>, n: nat, y: string)
    requires Literal(segs) && 1 <= n <= |segs| && y in Expansion(s, reader, segs, n)
    ensures y != "" && |Split(y)| == n
  {
    if n == 1 {
      FirstSegment(s, reader, segs);
      SplitDotless(segs[0]);
    } else {
      var x :| x in Expansion(s, reader, segs, n - 1) && y in GrownFrom(s, reader, x, segs[n - 1]);
      ExpansionIsDeep(s, reader, segs, n - 1, x);
      var k := GrownFromShape(s, reader, x, segs[n - 1], y);
      SplitSnoc(x, k);
    }
  }

  lemma InInstanceNames(s: Store, tablePath: string, q: Path, k: string)
    requires ParsePath(tablePath) == Some(q)
    ensures k in InstanceNames(s, tablePath) <==> q + [k] in s && Digits(k)
  {
    hide ParsePath, Digits;
    var p := q + [k];
    assert q < p && p[|q|] == k;
    if k in InstanceNames(s, tablePath) {
      var r :| r in s && q < r && |r| == |q| + 1 && Digits(r[|q|]) && r[|q|] == k;
      assert r == p;
    }
  }

  lemma InstanceNamesAt(s: Store, q: Path, k: string)
    requires Plain(q)
    ensures k in InstanceNames(s, Join(q) + ".") <==> q + [k] in s && Digits(k)
  {
    ParseJoin(q);
    InInstanceNames(s, Join(q) + ".", q, k);
  }

  /** Of the tree's own paths, the expansion holds those the segments match. */
  lemma {:induction false} ExpansionIsMatch(s: Store, reader: Reader, segs: seq<string>, p: Path, n: nat)
    requires Literal(segs) && 1 <= n <= |segs| && n <= |p|
    requires WellFormed(s) && p in s && Plain(p)
    ensures Join(p[..n]) in Expansion(s, reader, segs, n) <==> MatchUpTo(segs, p, n)
  {
    hide WellFormed, InstanceNames, Split, ParsePath;
    if n == 1 {
      FirstSegment(s, reader, segs);
      assert p[..1] == [p[0]];
    } else {
      var m := n - 1;
      var q := p[..m];
      assert p[..n] == q + [p[m]] && Plain(q) && Segment(p[m]);
      ExpansionIsMatch(s, reader, segs, p, m);
      JoinSnoc(q, p[m]);
      JoinEndsInSegment(q);
      SegmentIsDotless(p[m]);
      PrefixClosed(s, p[..n], p);
      InstanceNamesAt(s, q, p[m]);
      if MatchUpTo(segs, p, n) {
        GrowsInto(s, reader, Join(q), segs[m], p[m]);
      }
      if Join(p[..n]) in Expansion(s, reader, segs, n) {
        var x :| x in Expansion(s, reader, segs, m) && Join(p[..n]) in GrownFrom(s, reader, x, segs[m]);
        ExpansionIsDeep(s, reader, segs, m, x);
        var k := GrownFromShape(s, reader, x, segs[m], Join(p[..n]));
        SameSnoc(x, k, q, p[m]);
      }
    }
  }

  lemma SameSnoc(x: string, k: string, q: Path, last: string)
    requires Plain(q) && q != [] && Segment(last) && '.' !in k
    requires x + "." + k == Join(q) + "." + last
    ensures x == Join(q) && k == last
  {
    SplitSnoc(x, k);
    SegmentIsDotless(last);
    SplitSnoc(Join(q), last);
    assert k == (Split(x) + [k])[|Split(x)|] && last == (Split(Join(q)) + [last])[|Split(Join(q))|];
    assert |x| == |Join(q)|;
    assert x == (x + "." + k)[..|x|];
  }

  /** The concrete path leads to p, or to an object p lies under. */
  ghost predicate LiesUnder(concrete: string, p: Path) {
    Split(TrimDot(concrete)) <= p
  }

  /** A reference with "*" and no expression. */
  ghost predicate WildcardReference(ref: string) {
    '*' in ref && '[' !in ref
  }

  lemma {:induction false} SplitKeepsChars(s: string)
    ensures forall i, c | 0 <= i < |Split(s)| && c in Split(s)[i] :: c in s
  {
    if s != "" {
      SplitKeepsChars(s[1..]);
      var r := Split(s[1..]);
      forall i, c | 0 <= i < |Split(s)| && c in Split(s)[i]
        ensures c in s
      {
        assert c == s[0] || c in r[if s[0] == '.' then i - 1 else i];
        assert c in s[1..] ==> c in s;
      }
    }
  }

  lemma LeafSegments(p: Path)
    requires p != [] && Plain(p)
    ensures Split(TrimDot(Join(p))) == p && Split(Join(p)) == p
  {
    JoinEndsInSegment(p);
    PlainIsDotless(p);
    SplitJoin(p);
  }

  lemma SplitDetermines(x: string, q: Path)
    requires Split(x) == q
    ensures x == Join(q)
  {
    JoinSplit(x);
  }

  /** The segments match the path, or with a trailing dot the start of it. */
  ghost predicate SegmentsMatch(segs: seq<string>, p: Path, partial: bool) {
    (if partial then |segs| <= |p| else |segs| == |p|) && MatchUpTo(segs, p, |segs|)
  }

  /** One of the concrete paths is p, or with a trailing dot an object p lies under. */
  ghost predicate Among(concrete: set<string>, p: Path, partial: bool) {
    if partial then exists x :: x in concrete && Split(x) <= p else Join(p) in concrete
  }

  /** What the reference expands to takes p in. */
  ghost predicate Covered(s: Store, reader: Reader, ref: string, p: Path) {
    if EndsDot(ref) then exists x :: x in Expanded(s, reader, ref) && LiesUnder(x, p)
    else Join(p) in Expanded(s, reader, ref)
  }

  lemma CoveredIsAmong(s: Store, reader: Reader, ref: string, p: Path)
    requires WildcardReference(ref)
    ensures var segs := Split(TrimDot(ref));
      Covered(s, reader, ref, p) <==> Among(Expansion(s, reader, segs, |segs|), p, EndsDot(ref))
  {
    hide Split, Join, Expansion;
    NoBracketsNoDifference(TrimDot(ref));
    var segs := Split(TrimDot(ref));
    var xs := Expansion(s, reader, segs, |segs|);
    forall x
      ensures TrimDot(x + ".") == x
    {
    }
    if EndsDot(ref) && Among(xs, p, true) {
      var x :| x in xs && Split(x) <= p;
      assert x + "." in Expanded(s, reader, ref) && LiesUnder(x + ".", p);
    }
  }

  /** For literal segments, what they expand to is what they match. */
  lemma LiteralExpansion(s: Store, reader: Reader, segs: seq<string>, p: Path, partial: bool)
    requires Literal(segs) && WellFormed(s) && p in s && p != [] && Plain(p)
    ensures Among(Expansion(s, reader, segs, |segs|), p, partial) <==> SegmentsMatch(segs, p, partial)
  {
    hide WellFormed, Split, Join, Expansion, Literal;
    var n := |segs|;
    LiteralIsSome(segs);
    if n <= |p| {
      ExpansionIsMatch(s, reader, segs, p, n);
      LeafSegments(p[..n]);
    }
    forall x | x in Expansion(s, reader, segs, n)
      ensures x == Join(p) ==> n == |p|
      ensures Split(x) <= p ==> n <= |p| && x == Join(p[..n])
    {
      ExpansionIsDeep(s, reader, segs, n, x);
      LeafSegments(p);
      SplitDetermines(x, Split(x));
      assert Split(x) <= p ==> Split(x) == p[..n];
    }
    assert p[..|p|] == p;
  }

  lemma LiteralIsSome(segs: seq<string>)
    requires Literal(segs)
    ensures |segs| > 0
  {
  }

  // ---------- Expressions ----------

  /** Names without expressions or wildcards grow into themselves. */
  lemma {:induction false} NamesGrow(s: Store, reader: Reader, p: Path, segs: seq<string>, n: nat)
    requires Plain(p) && p <= segs && 0 < n <= |p|
    ensures Expansion(s, reader, segs, n) == {Join(p[..n])}
    decreases n
  {
    hide Join;
    var seg := segs[n - 1];
    assert Segment(seg) && seg[0] in seg && !FansOut(seg);
    assert p[..n] == p[..n - 1] + [seg];
    var before := if n == 1 then "" else Join(p[..n - 1]);
    if n == 1 {
      JoinOne(seg);
      assert p[..1] == [seg];
    } else {
      NamesGrow(s, reader, p, segs, n - 1);
      JoinSnoc(p[..n - 1], seg);
      JoinEndsInSegment(p[..n - 1]);
    }
    assert Expansion(s, reader, segs, n - 1) == {before};
    GrownFromOne(s, reader, before, seg);
  }

  lemma JoinOne(seg: string)
    ensures Join([seg]) == seg
  {
  }

  lemma GrownFromOne(s: Store, reader: Reader, x: string, seg: string)
    ensures Grown(s, reader, {x}, seg) == GrownFrom(s, reader, x, seg)
  {
    hide GrownFrom;
    assert forall y :: y in Grown(s, reader, {x}, seg) <==> y in GrownFrom(s, reader, x, seg);
  }

  lemma SplitBeforeExpression(p: Path, e: string)
    requires p != [] && Plain(p) && '[' !in e && ']' !in e
    ensures SplitOutside(Join(p) + "." + ("[" + e + "]"), 0) == p + ["[" + e + "]"]
  {
    hide Join, Split, SplitOutside, Glued;
    var seg := "[" + e + "]";
    PlainIsDotless(p);
    SplitJoin(p);
    SplitSnoc(Join(p), "");
    SplitDotless("");
    assert Join(p) + "." + "" == Join(p) + ".";
    NoBracketIn(p);
    ExpressionStaysWhole(Join(p) + ".", e, "");
    GluedAfter(p, seg);
    assert Join(p) + "." + (seg + "") == Join(p) + "." + seg;
    assert "[" + e + "]" + "" == seg;
  }

  lemma GluedAfter(p: Path, seg: string)
    ensures Glued(Glued(p + [""], [seg]), [""]) == p + [seg]
  {
    assert (p + [""])[..|p|] == p && "" + seg == seg && seg + "" == seg;
    assert Glued(p + [""], [seg]) == p + [seg];
    assert (p + [seg])[..|p|] == p;
  }

  lemma {:induction false} NoBracketIn(p: Path)
    requires Plain(p)
    ensures '[' !in Join(p)
  {
    if p != [] {
      assert Segment(p[0]);
      assert '[' !in p[0] by { assert !SegmentChar('['); }
      NoBracketIn(p[1..]);
    }
  }

  /** What an expression below a named table stands for: the all-digit children of which each
      term holds, none of them when the expression does not read. */
  lemma ExpressionSelects(s: Store, reader: Reader, p: Path, e: string, y: string)
    requires p != [] && Plain(p) && '[' !in e && ']' !in e
    ensures var seg := "[" + e + "]";
      y in Expanded(s, reader, Join(p) + "." + seg + ".") <==>
        exists k :: y == Join(p) + "." + k + "." && Digits(k) && p + [k] in s && reader(seg).Some?
          && Satisfies(s, reader(seg).value, y)
  {
    hide Join, SplitOutside, Satisfies, Expansion, Digits;
    var x, seg := Join(p), "[" + e + "]";
    var path := x + "." + seg + ".";
    assert path[|x| + 1] == '[' && TrimDot(path) == x + "." + seg && EndsDot(path);
    SplitBeforeExpression(p, e);
    var segs := p + [seg];
    assert segs[..|p|] == p;
    NamesGrow(s, reader, p, segs, |p|);
    assert p[..|p|] == p;
    LastGrows(s, reader, segs, |p|, x);
    ParseJoin(p);
    BelowTable(s, p);
    assert FansOut(seg) && seg != "*";
    forall k
      ensures x + "." + k in GrownFrom(s, reader, x, seg) <==>
        k in InstanceNames(s, x + ".") && Selected(s, reader, x, seg, k)
    {
      TailsDiffer(x + ".", GrownNames(s, reader, x, seg), k);
    }
  }

  ghost function GrownNames(s: Store, reader: Reader, x: string, seg: string): set<string> {
    set inst | inst in InstanceNames(s, x + ".") && Selected(s, reader, x, seg, inst)
  }

  lemma TailsDiffer(head: string, names: set<string>, k: string)
    ensures head + k in (set n | n in names :: head + n) <==> k in names
  {
    forall n | head + n == head + k
      ensures n == k
    {
      assert (head + n)[|head|..] == n && (head + k)[|head|..] == k;
    }
  }

  lemma LastGrows(s: Store, reader: Reader, segs: seq<string>, n: nat, x: string)
    requires n + 1 == |segs| && Expansion(s, reader, segs, n) == {x}
    ensures Expansion(s, reader, segs, |segs|) == GrownFrom(s, reader, x, segs[n])
  {
    hide GrownFrom, Grown;
    GrownFromOne(s, reader, x, segs[n]);
  }

  lemma BelowTable(s: Store, p: Path)
    requires Plain(p) && ParsePath(Join(p) + ".") == Some(p)
    ensures forall k :: k in InstanceNames(s, Join(p) + ".") <==> Digits(k) && p + [k] in s
  {
    hide ParsePath, Join, Digits;
    forall k | Digits(k) && p + [k] in s
      ensures k in InstanceNames(s, Join(p) + ".")
    {
      var q := p + [k];
      assert p < q && q[|p|] == k;
    }
    forall k | k in InstanceNames(s, Join(p) + ".")
      ensures Digits(k) && p + [k] in s
    {
      var q :| q in s && p < q && |q| == |p| + 1 && Digits(q[|p|]) && q[|p|] == k;
      assert q == p + [k];
    }
  }

  // ---------- First segments that are empty or wild ----------

  /** The segments without the empty ones in front. */
  function Undotted(segs: seq<string>): seq<string> {
    if segs != [] && segs[0] == "" then Undotted(segs[1..]) else segs
  }

  lemma {:induction false} UndottedIsSuffix(segs: seq<string>)
    ensures |Undotted(segs)| <= |segs| && Undotted(segs) == segs[|segs| - |Undotted(segs)|..]
    ensures Undotted(segs) != [] ==> Undotted(segs)[0] != ""
    ensures forall x | x in segs && x != "" :: x in Undotted(segs)
  {
    if segs != [] && segs[0] == "" {
      UndottedIsSuffix(segs[1..]);
      assert segs == [segs[0]] + segs[1..];
    }
  }

  lemma NothingGrown(s: Store, reader: Reader)
    ensures GrownFrom(s, reader, "", "") == {""}
  {
  }

  /** An empty first segment grows nothing. */
  lemma {:induction false} LeadingDotIsDropped(s: Store, reader: Reader, segs: seq<string>, n: nat)
    requires 1 <= n <= |segs| && segs[0] == ""
    ensures Expansion(s, reader, segs, n) == Expansion(s, reader, segs[1..], n - 1)
  {
    hide Grown, GrownFrom;
    if n == 1 {
      GrownFromOne(s, reader, "", "");
      NothingGrown(s, reader);
    } else {
      LeadingDotIsDropped(s, reader, segs, n - 1);
      assert segs[1..][n - 2] == segs[n - 1];
    }
  }

  lemma {:induction false} LeadingDotsAreDropped(s: Store, reader: Reader, segs: seq<string>)
    ensures Expansion(s, reader, segs, |segs|) == Expansion(s, reader, Undotted(segs), |Undotted(segs)|)
  {
    if segs != [] && segs[0] == "" {
      LeadingDotIsDropped(s, reader, segs, |segs|);
      LeadingDotsAreDropped(s, reader, segs[1..]);
    }
  }

  /** A wild first segment grows into names with a dot before them. */
  lemma {:induction false} WildFirstIsDotted(s: Store, reader: Reader, segs: seq<string>, n: nat, y: string)
    requires 1 <= n <= |segs| && segs[0] == "*" && y in Expansion(s, reader, segs, n)
    ensures y != "" && y[0] == '.'
  {
    var x :| x in Expansion(s, reader, segs, n - 1) && y in GrownFrom(s, reader, x, segs[n - 1]);
    if n > 1 {
      WildFirstIsDotted(s, reader, segs, n - 1, x);
    }
  }

  lemma DottedIsAmongNone(xs: set<string>, p: Path, partial: bool)
    requires p != [] && Plain(p) && forall y | y in xs :: y != "" && y[0] == '.'
    ensures !Among(xs, p, partial)
  {
    hide Plain, Join;
    LeafSegments(p);
    SegmentsAreNotEmpty(p);
    forall y | y in xs
      ensures Split(y)[0] == "" && Split(y) != [] && y != Join(p)
    {
      assert Split(y)[0] == "";
    }
  }

  lemma SegmentsAreNotEmpty(p: Path)
    requires Plain(p)
    ensures forall i | 0 <= i < |p| :: p[i] != ""
  {
  }

  lemma WildcardSegments(ref: string)
    requires WildcardReference(ref)
    ensures var rest := Undotted(Split(TrimDot(ref)));
      rest != [] && rest[0] != "" && forall i | 0 <= i < |rest| :: '.' !in rest[i] && '[' !in rest[i]
  {
    var segs := Split(TrimDot(ref));
    JoinSplit(TrimDot(ref));
    SplitKeepsChars(TrimDot(ref));
    UndottedIsSuffix(segs);
    var rest := Undotted(segs);
    assert forall c | c in TrimDot(ref) :: c in ref;
    forall i | 0 <= i < |rest|
      ensures '.' !in rest[i] && '[' !in rest[i]
    {
      assert rest[i] == segs[|segs| - |rest| + i];
    }
    if rest == [] {
      AllEmpty(segs);
      JoinOfEmpties(segs);
    }
  }

  lemma AllEmpty(segs: seq<string>)
    requires Undotted(segs) == []
    ensures forall i | 0 <= i < |segs| :: segs[i] == ""
  {
    UndottedIsSuffix(segs);
    forall i | 0 <= i < |segs|
      ensures segs[i] == ""
    {
      assert segs[i] in segs;
    }
  }

  lemma {:induction false} JoinOfEmpties(segs: seq<string>)
    requires forall i | 0 <= i < |segs| :: segs[i] == ""
    ensures '*' !in Join(segs)
  {
    if |segs| > 1 {
      JoinOfEmpties(segs[1..]);
    }
  }

  // ---------- Where they agree ----------

  lemma MatchesBySegments(ref: string, p: Path)
    requires p != [] && Plain(p)
    ensures WildcardMatches(ref, Join(p)) <==> SegmentsMatch(Split(TrimDot(ref)), p, EndsDot(ref))
  {
    hide Split, Join;
    LeafSegments(p);
  }

  lemma LeadingDotMatchesNothing(segs: seq<string>, p: Path, partial: bool)
    requires segs != [] && segs[0] == "" && Plain(p)
    ensures !SegmentsMatch(segs, p, partial)
  {
    SegmentsAreNotEmpty(p);
    assert p != [] ==> !SegmentMatches(segs[0], p[0]);
  }

  /** Subscription matching and search expansion differ on a parameter of the tree exactly
      when it matches the reference without its leading dots, and the reference either has
      leading dots or starts with a wildcard, not both. */
  lemma MatchingDiffersExactly(s: Store, reader: Reader, ref: string, p: Path)
    requires WildcardReference(ref) && WellFormed(s) && p in s && p != [] && Plain(p)
    ensures var segs := Split(TrimDot(ref)); var rest := Undotted(segs);
      && rest != []
      && ((WildcardMatches(ref, Join(p)) <==> Covered(s, reader, ref, p)) <==>
          !(SegmentsMatch(rest, p, EndsDot(ref)) && ((segs[0] == "") != (rest[0] == "*"))))
  {
    hide WellFormed, Split, Join, Expansion, WildcardMatches, Plain, EndsDot, Covered, SegmentsMatch, TrimDot, Among;
    var segs, partial := Split(TrimDot(ref)), EndsDot(ref);
    var rest := Undotted(segs);
    WildcardSegments(ref);
    CoveredIsAmong(s, reader, ref, p);
    LeadingDotsAreDropped(s, reader, segs);
    MatchesBySegments(ref, p);
    if segs[0] == "" {
      LeadingDotMatchesNothing(segs, p, partial);
    }
    if rest[0] == "*" {
      forall y | y in Expansion(s, reader, rest, |rest|)
        ensures y != "" && y[0] == '.'
      {
        WildFirstIsDotted(s, reader, rest, |rest|, y);
      }
      DottedIsAmongNone(Expansion(s, reader, rest, |rest|), p, partial);
    } else {
      LiteralExpansion(s, reader, rest, p, partial);
    }
  }

  /** So they agree on every reference that starts with a name, as a device's own paths do:
      a parameter matches exactly when it is one of the paths the reference expands to, or,
      for a reference with a trailing dot, lies under one. */
  lemma MatchingIsExpansion(s: Store, reader: Reader, ref: string, p: Path)
    requires WildcardReference(ref) && Split(TrimDot(ref))[0] != "" && Split(TrimDot(ref))[0] != "*"
    requires WellFormed(s) && p in s && p != [] && Plain(p)
    ensures WildcardMatches(ref, Join(p)) <==> Covered(s, reader, ref, p)
  {
    hide WellFormed, Split, Join, Expansion, WildcardMatches, Plain, EndsDot, Covered, SegmentsMatch, TrimDot, Among;
    MatchingDiffersExactly(s, reader, ref, p);
  }

  // ---------- A reference with a leading dot ----------

  const DEVICE: Store := map[[] := Cell(None, None, false), ["Device"] := Cell(None, None, true),
                             ["Device", TEMPLATE] := Cell(None, None, false),
                             ["Device", "1"] := Cell(None, None, false),
                             ["Device", "1", "X"] := Cell(Some(Value("string", "", false)), None, false)]

  lemma DeviceIsWellFormed()
    ensures WellFormed(DEVICE) && ["Device", "1", "X"] in DEVICE && Plain(["Device", "1", "X"])
  {
    assert Segment("Device") && Segment("1") && Segment("X");
    assert Parent(["Device"]) == [] && Parent(["Device", TEMPLATE]) == ["Device"];
    assert Parent(["Device", "1"]) == ["Device"];
    assert Parent(["Device", "1", "X"]) == ["Device", "1"] && ["Device"] + [TEMPLATE] == ["Device", TEMPLATE];
    forall p | p in DEVICE && p != []
      ensures ChildOk(DEVICE, p)
    {
      assert p == ["Device"] || p == ["Device", TEMPLATE] || p == ["Device", "1"] || p == ["Device", "1", "X"];
    }
  }

  /** ".Device.*.X" expands to Device.1.X and does not match it. */
  lemma LeadingDotDisagrees(reader: Reader)
    ensures Join(["", "Device", "*", "X"]) == ".Device.*.X" && Join(["Device", "1", "X"]) == "Device.1.X"
    ensures !WildcardMatches(".Device.*.X", "Device.1.X") && "Device.1.X" in Expanded(DEVICE, reader, ".Device.*.X")
  {
    hide WellFormed, Expanded, WildcardMatches, Split, Expansion;
    var ref, segs, p := ".Device.*.X", ["", "Device", "*", "X"], ["Device", "1", "X"];
    assert segs[1..][1..] == ["*", "X"] && segs[1..][1..][1..] == ["X"] && p[1..][1..] == ["X"];
    assert Join(segs) == ref && Join(p) == "Device.1.X";
    assert TrimDot(ref) == ref && ref[8] == '*';
    SplitJoin(segs);
    DeviceIsWellFormed();
    var rest := ["Device", "*", "X"];
    assert segs[1..] == rest && Undotted(segs) == rest;
    assert SegmentMatches(rest[0], p[0]) && SegmentMatches(rest[1], p[1]) && SegmentMatches(rest[2], p[2]);
    assert SegmentsMatch(rest, p, false);
    MatchingDiffersExactly(DEVICE, reader, ref, p);
    MatchesBySegments(ref, p);
    LeadingDotMatchesNothing(segs, p, false);
  }

  // ---------- The expansion as the agent computes it ----------

  method ChildInstanceNames(tree: Tree, tablePath: string) returns (names: set<string>)
    requires tree.Valid()
    ensures names == InstanceNames(tree.View(), tablePath)
  {
    hide Shaped, Content, ParsePath;
    names := {};
    var q := ParsePath(tablePath);
    if q.None? {
      return;
    }
    var n := tree.Lookup(q.value);
    if n == null {
      NoInstancesUnder(tree.at, tablePath, q.value);
      return;
    }
    var todo := n.children.Keys;
    while todo != {}
      invariant todo <= n.children.Keys
      invariant names == set k | k in n.children.Keys - todo && Digits(k)
    {
      var k :| k in todo;
      todo := todo - {k};
      if Digits(k) {
        names := names + {k};
      }
    }
    InstancesAreChildren(tree.at, tablePath, q.value);
  }

  lemma InstancesAreChildren(at: Region, tablePath: string, q: Path)
    requires Shaped(at, []) && ParsePath(tablePath) == Some(q) && q in at
    ensures InstanceNames(Content(at), tablePath) == set k | k in at[q].children && Digits(k)
  {
    hide Shaped, Content, ParsePath, InstanceNames;
    ContentKeys(at);
    forall k
      ensures k in InstanceNames(Content(at), tablePath) <==> k in at[q].children && Digits(k)
    {
      InInstanceNames(Content(at), tablePath, q, k);
      if Digits(k) {
        assert TEMPLATE[0] in TEMPLATE && !Digit(TEMPLATE[0]);
        ChildIsThere(at, q, k);
      }
    }
  }

  lemma NoInstancesUnder(at: Region, tablePath: string, q: Path)
    requires Shaped(at, []) && ParsePath(tablePath) == Some(q) && q !in at
    ensures InstanceNames(Content(at), tablePath) == {}
  {
    forall p | p in at && q < p
      ensures false
    {
      RegionPrefixClosed(at, [], q, p);
    }
  }

  method Match(tree: Tree, terms: seq<Term>, instPath: string) returns (all: bool)
    requires tree.Valid()
    ensures all == Satisfies(tree.View(), terms, instPath)
  {
    hide Shaped, Content, Readable;
    for i := 0 to |terms|
      invariant Satisfies(tree.View(), terms[..i], instPath)
    {
      var v := tree.Get(instPath + terms[i].key);
      assert terms[i] in terms && terms[..i + 1] == terms[..i] + [terms[i]];
      if v.Err? || (v.value.raw == terms[i].value) != terms[i].equal {
        return false;
      }
    }
    assert terms[..|terms|] == terms;
    return true;
  }

  /** What one segment grows one prefix into; nothing for an expression not understood. */
  method GrowPrefix(tree: Tree, reader: Reader, x: string, seg: string) returns (next: set<string>)
    requires tree.Valid()
    ensures next == GrownFrom(tree.View(), reader, x, seg)
  {
    hide Shaped, Content, InstanceNames, Satisfies;
    if !FansOut(seg) {
      return if x == "" then {seg} else {x + "." + seg};
    }
    var instances := ChildInstanceNames(tree, x + ".");
    var todo := instances;
    next := {};
    while todo != {}
      invariant todo <= instances
      invariant next == set k | k in instances - todo && Selected(tree.View(), reader, x, seg, k) :: x + "." + k
    {
      var inst :| inst in todo;
      var chosen := seg == "*";
      if seg != "*" && reader(seg).Some? {
        chosen := Match(tree, reader(seg).value, x + "." + inst + ".");
      }
      assert chosen == Selected(tree.View(), reader, x, seg, inst);
      todo := todo - {inst};
      if chosen {
        next := next + {x + "." + inst};
      }
    }
  }

  method ExpandSearchPath(tree: Tree, reader: Reader, path: string) returns (out: set<string>)
    requires tree.Valid()
    ensures out == Expanded(tree.View(), reader, path)
  {
    hide Shaped, Content, GrownFrom, SplitOutside;
    if '*' !in path && '[' !in path {
      return {path};
    }
    var segments := SplitSearchPath(TrimDot(path));
    var prefixes: set<string> := {""};
    for i := 0 to |segments|
      invariant prefixes == Expansion(tree.View(), reader, segments, i)
    {
      var next: set<string> := {};
      var todo := prefixes;
      while todo != {}
        invariant todo <= prefixes
        invariant next == Grown(tree.View(), reader, prefixes - todo, segments[i])
      {
        var x :| x in todo;
        var more := GrowPrefix(tree, reader, x, segments[i]);
        GrownOneMore(tree.View(), reader, prefixes - todo, x, segments[i]);
        todo := todo - {x};
        assert prefixes - todo == prefixes - (todo + {x}) + {x};
        next := next + more;
      }
      assert prefixes - todo == prefixes;
      prefixes := next;
    }
    out := set x | x in prefixes :: if EndsDot(path) then x + "." else x;
  }

  lemma GrownOneMore(s: Store, reader: Reader, prefixes: set<string>, x: string, seg: string)
    ensures Grown(s, reader, prefixes + {x}, seg) == Grown(s, reader, prefixes, seg) + GrownFrom(s, reader, x, seg)
  {
  }
}
