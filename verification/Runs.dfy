// Finite runs of a transition system whose steps a relation describes.
module Runs {

  ghost predicate Run<S(!new), A(!new)>(step: (S, A, S) -> bool, from: S, actions: seq<A>, to: S)
    decreases |actions|
  {
    if actions == [] then from == to
    else exists mid :: step(from, actions[0], mid) && Run(step, mid, actions[1..], to)
  }

  ghost predicate Reaches<S(!new), A(!new)>(step: (S, A, S) -> bool, from: S, to: S) {
    exists actions :: Run(step, from, actions, to)
  }

  lemma {:induction false} RunsCompose<S(!new), A(!new)>(
    step: (S, A, S) -> bool, a: S, s: seq<A>, b: S, t: seq<A>, c: S)
    requires Run(step, a, s, b) && Run(step, b, t, c)
    ensures Run(step, a, s + t, c)
    decreases |s|
  {
    if s == [] {
      assert s + t == t;
    } else {
      var mid :| step(a, s[0], mid) && Run(step, mid, s[1..], b);
      RunsCompose(step, mid, s[1..], b, t, c);
      assert (s + t)[1..] == s[1..] + t;
    }
  }

  lemma ReachesTransitively<S(!new), A(!new)>(step: (S, A, S) -> bool, a: S, b: S, c: S)
    requires Reaches(step, a, b) && Reaches(step, b, c)
    ensures Reaches(step, a, c)
  {
    var s :| Run(step, a, s, b);
    var t :| Run(step, b, t, c);
    RunsCompose(step, a, s, b, t, c);
  }

  lemma ReachesItself<S(!new), A(!new)>(step: (S, A, S) -> bool, a: S)
    ensures Reaches(step, a, a)
  {
    assert Run(step, a, [], a);
  }

  lemma ReachesNext<S(!new), A(!new)>(step: (S, A, S) -> bool, a: S, b: S, action: A, c: S)
    requires Reaches(step, a, b) && step(b, action, c)
    ensures Reaches(step, a, c)
  {
    var s :| Run(step, a, s, b);
    assert [action][1..] == [];
    assert Run(step, c, [], c);
    assert Run(step, b, [action], c);
    RunsCompose(step, a, s, b, [action], c);
  }

  /** A function applied n times. */
  function Iterate<S>(f: S -> S, x: S, n: nat): S
    decreases n
  {
    if n == 0 then x else Iterate(f, f(x), n - 1)
  }

  lemma {:induction false} FixpointsIterate<S>(f: S -> S, x: S, n: nat)
    requires f(x) == x
    ensures Iterate(f, x, n) == x
    decreases n
  {
    if n > 0 {
      FixpointsIterate(f, x, n - 1);
    }
  }
}
