// Dotted parameter paths (internal/paramtree/path.go) and the instance numbers that
// name rows of a table.
module Paths {
  import opened Options

  type Path = seq<string>

  // ---------- Splitting and joining ----------

  function Split(s: string): (r: seq<string>)
    ensures r != []
  {
    if s == "" then [""]
    else
      var r := Split(s[1..]);
      if s[0] == '.' then [""] + r else [[s[0]] + r[0]] + r[1..]
  }

  function Join(segments: seq<string>): string {
    if segments == [] then ""
    else if |segments| == 1 then segments[0]
    else segments[0] + "." + Join(segments[1..])
  }

  predicate Dotless(segments: seq<string>) {
    forall i | 0 <= i < |segments| :: '.' !in segments[i]
  }

  lemma {:induction false} JoinSplit(s: string)
    ensures Join(Split(s)) == s
    ensures Dotless(Split(s))
  {
    if s != "" {
      JoinSplit(s[1..]);
      var r := Split(s[1..]);
      if s[0] == '.' {
        assert ([""] + r)[1..] == r;
      } else {
        assert ([[s[0]] + r[0]] + r[1..])[1..] == r[1..];
        assert Join([[s[0]] + r[0]] + r[1..]) == [s[0]] + Join(r) by {
          if |r| > 1 {
            assert [s[0]] + r[0] + "." + Join(r[1..]) == [s[0]] + (r[0] + "." + Join(r[1..]));
          }
        }
      }
    }
  }

  lemma {:induction false} SplitDotless(s: string)
    requires '.' !in s
    ensures Split(s) == [s]
  {
    if s != "" {
      SplitDotless(s[1..]);
      assert s[0] in s;
      assert [s[0]] + s[1..] == s;
    }
  }

  lemma {:induction false} SplitAppend(s: string, t: string)
    requires '.' !in s
    ensures Split(s + "." + t) == [s] + Split(t)
  {
    if s == "" {
      assert (s + "." + t)[1..] == t;
    } else {
      SplitAppend(s[1..], t);
      assert (s + "." + t)[1..] == s[1..] + "." + t;
      assert s[0] in s && (s + "." + t)[0] == s[0];
      assert [s[0]] + s[1..] == s;
      assert ([s[1..]] + Split(t))[1..] == Split(t);
    }
  }

  lemma {:induction false} SplitJoin(segments: seq<string>)
    requires segments != [] && Dotless(segments)
    ensures Split(Join(segments)) == segments
  {
    if |segments| == 1 {
      SplitDotless(segments[0]);
    } else {
      SplitJoin(segments[1..]);
      SplitAppend(segments[0], Join(segments[1..]));
    }
  }

  /** Extending a joined path by one segment. */
  lemma {:induction false} JoinSnoc(segments: seq<string>, x: string)
    requires segments != []
    ensures Join(segments + [x]) == Join(segments) + "." + x
  {
    if |segments| > 1 {
      JoinSnoc(segments[1..], x);
      assert (segments + [x])[1..] == segments[1..] + [x];
      assert segments[0] + "." + (Join(segments[1..]) + "." + x) == segments[0] + "." + Join(segments[1..]) + "." + x;
    }
  }

  // ---------- Parsing ----------

  predicate EndsDot(path: string) {
    path != "" && path[|path| - 1] == '.'
  }

  function TrimDot(s: string): string {
    if s != "" && s[|s| - 1] == '.' then s[..|s| - 1] else s
  }

  predicate SegmentChar(c: char) {
    'a' <= c <= 'z' || 'A' <= c <= 'Z' || '0' <= c <= '9' || c == '_' || c == '-'
  }

  predicate Segment(s: string) {
    s != "" && forall c <- s :: SegmentChar(c)
  }

  predicate Plain(p: Path) {
    forall i | 0 <= i < |p| :: Segment(p[i])
  }

  /** The segments of a path; one trailing dot is dropped, and "" and "." are the root. */
  function ParsePath(path: string): (r: Option<Path>)
    ensures r.Some? ==> Plain(r.value)
  {
    var s := TrimDot(path);
    if s == "" then Some([])
    else if forall i | 0 <= i < |Split(s)| :: Segment(Split(s)[i]) then Some(Split(s))
    else None
  }

  lemma SegmentIsDotless(s: string)
    requires Segment(s)
    ensures '.' !in s
  {
  }

  lemma PlainIsDotless(p: Path)
    requires Plain(p)
    ensures Dotless(p)
  {
  }

  lemma {:induction false} JoinEndsInSegment(p: Path)
    requires p != [] && Plain(p)
    ensures Join(p) != "" && Join(p)[|Join(p)| - 1] != '.'
  {
    if |p| > 1 {
      JoinEndsInSegment(p[1..]);
    } else {
      assert Segment(p[0]);
      assert p[0][|p[0]| - 1] in p[0];
    }
  }

  /** Joining canonical segments and parsing, with or without the trailing dot, gives
      them back: canonical paths and plain segment lists correspond one to one. */
  lemma ParseJoin(p: Path)
    requires Plain(p)
    ensures ParsePath(Join(p)) == Some(p)
    ensures ParsePath(Join(p) + ".") == Some(p)
  {
    if p == [] {
      assert TrimDot("" + ".") == "";
    } else {
      JoinEndsInSegment(p);
      PlainIsDotless(p);
      SplitJoin(p);
      assert TrimDot(Join(p)) == Join(p);
      assert TrimDot(Join(p) + ".") == Join(p);
    }
  }

  /** A name below a path. */
  lemma ParseBelow(p: Path, name: string)
    requires p != [] && Plain(p) && Segment(name)
    ensures ParsePath(Join(p) + "." + name) == Some(p + [name])
  {
    JoinSnoc(p, name);
    ParseJoin(p + [name]);
  }

  lemma JoinInjective(p: Path, q: Path)
    requires Plain(p) && Plain(q) && Join(p) == Join(q)
    ensures p == q
  {
    ParseJoin(p);
    ParseJoin(q);
  }

  // ---------- Numbers ----------

  predicate Digit(c: char) {
    '0' <= c <= '9'
  }

  predicate Digits(s: string) {
    s != "" && forall c <- s :: Digit(c)
  }

  function Number(s: string): nat
    requires forall c <- s :: Digit(c)
  {
    if s == "" then 0
    else
      var c := s[|s| - 1];
      assert c in s && Digit(c);
      Number(s[..|s| - 1]) * 10 + (c as int - '0' as int)
  }

  /** Decimal integers with an optional sign; anything else is no number. */
  function Atoi(s: string): Option<int> {
    if Digits(s) then Some(Number(s))
    else if s != "" && s[0] == '-' && Digits(s[1..]) then Some(0 - Number(s[1..]))
    else if s != "" && s[0] == '+' && Digits(s[1..]) then Some(Number(s[1..]))
    else None
  }

  function Itoa(n: nat): (s: string)
    ensures Digits(s)
  {
    var last := ['0' + (n % 10) as char];
    if n < 10 then last else Itoa(n / 10) + last
  }

  lemma {:induction false} NumberOfItoa(n: nat)
    ensures Number(Itoa(n)) == n
  {
    if n >= 10 {
      NumberOfItoa(n / 10);
      assert Itoa(n)[..|Itoa(n)| - 1] == Itoa(n / 10);
    } else {
      assert Itoa(n)[..|Itoa(n)| - 1] == "";
    }
  }

  lemma AtoiOfItoa(n: nat)
    ensures Atoi(Itoa(n)) == Some(n)
    ensures Segment(Itoa(n))
  {
    NumberOfItoa(n);
  }

  /** A child name that names a row of a table. */
  predicate InstanceName(s: string) {
    Atoi(s).Some? && Atoi(s).value > 0
  }

  // ---------- Which texts are paths ----------

  ghost predicate Spells(path: string, p: Path) {
    Plain(p) && (path == Join(p) || path == Join(p) + ".")
  }

  /** A text leads to p exactly when it is p's segments joined, with or without a dot behind. */
  lemma PathsParseExactly(path: string, p: Path)
    ensures ParsePath(path) == Some(p) <==> Spells(path, p)
  {
    if ParsePath(path) == Some(p) {
      var s := TrimDot(path);
      if s != "" {
        JoinSplit(s);
      }
      assert s == Join(p);
    }
    if Plain(p) {
      ParseJoin(p);
    }
  }

  /** A segment's characters by their codes: a-z, A-Z, 0-9, underscore and hyphen. */
  lemma SegmentsExactly(s: string)
    ensures Segment(s) <==> s != "" && forall c <- s :: InSegment(c as int)
  {
    forall c <- s
      ensures SegmentChar(c) <==> InSegment(c as int)
    {
    }
  }

  ghost predicate InSegment(code: int) {
    97 <= code <= 122 || 65 <= code <= 90 || 48 <= code <= 57 || code == 95 || code == 45
  }

  /** A segment is a row's name exactly when its characters are digits and not all are 0. */
  lemma RowNamesExactly(s: string)
    requires Segment(s)
    ensures InstanceName(s) <==> (forall c <- s :: '0' <= c <= '9') && (exists c <- s :: c != '0')
  {
    assert s[0] in s;
    if Digits(s) {
      NumberIsPositive(s);
    } else if s[0] == '-' && Digits(s[1..]) {
      assert Atoi(s).value <= 0;
    }
  }

  lemma {:induction false} NumberIsPositive(s: string)
    requires forall c <- s :: Digit(c)
    ensures Number(s) > 0 <==> exists c <- s :: c != '0'
  {
    if s != "" {
      var n := |s| - 1;
      NumberIsPositive(s[..n]);
      assert s == s[..n] + [s[n]] && s[n] in s;
      if Number(s) > 0 && s[n] == '0' {
        var c :| c in s[..n] && c != '0';
        assert c in s;
      }
      if c :| c in s && c != '0' && c != s[n] {
        assert c in s[..n];
      }
    }
  }
}
