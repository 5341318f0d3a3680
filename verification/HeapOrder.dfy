// The order of container/heap over (due, registration order) keys: what its sift-up and sift-down keep.
module HeapOrders {

  datatype Key = Key(due: int, order: nat)

  /** Earlier due first; registration order breaks ties. */
  predicate Less(a: Key, b: Key) {
    a.due < b.due || (a.due == b.due && a.order < b.order)
  }

  function Above(k: nat): nat
    requires k > 0
  {
    (k - 1) / 2
  }

  ghost predicate OrderedAt(ks: seq<Key>, k: nat)
    requires 0 < k < |ks|
  {
    !Less(ks[k], ks[Above(k)])
  }

  /** Every key but the first is no less than the one above it. */
  ghost predicate Heap(ks: seq<Key>) {
    forall k | 0 < k < |ks| :: OrderedAt(ks, k)
  }

  function Swapped(ks: seq<Key>, i: nat, j: nat): seq<Key>
    requires i < |ks| && j < |ks|
  {
    ks[i := ks[j]][j := ks[i]]
  }

  /** The first key of a heap is a least one. */
  lemma {:induction false} FirstIsLeast(ks: seq<Key>, k: nat)
    requires Heap(ks) && k < |ks|
    ensures !Less(ks[k], ks[0])
  {
    if k > 0 {
      assert OrderedAt(ks, k);
      FirstIsLeast(ks, Above(k));
    }
  }

  // ---------- Sifting up ----------

  /** A heap, except that the key at j may be less than those above it. */
  ghost predicate HeapButLow(ks: seq<Key>, j: nat) {
    && j < |ks|
    && (forall k | 0 < k < |ks| && k != j :: OrderedAt(ks, k))
    && (forall k | 0 < k < |ks| && j > 0 && Above(k) == j :: !Less(ks[k], ks[Above(j)]))
  }

  lemma SiftUpStep(ks: seq<Key>, j: nat)
    requires HeapButLow(ks, j) && j > 0 && Less(ks[j], ks[Above(j)])
    ensures HeapButLow(Swapped(ks, Above(j), j), Above(j))
  {
    var i := Above(j);
    var t := Swapped(ks, i, j);
    forall k | 0 < k < |t| && k != i
      ensures OrderedAt(t, k)
    {
      assert k != j ==> OrderedAt(ks, k);
      assert i > 0 ==> OrderedAt(ks, i);
    }
    forall k | 0 < k < |t| && i > 0 && Above(k) == i
      ensures !Less(t[k], t[Above(i)])
    {
      assert k != j ==> OrderedAt(ks, k);
      assert OrderedAt(ks, i);
    }
  }

  lemma SiftUpDone(ks: seq<Key>, j: nat)
    requires HeapButLow(ks, j) && (j == 0 || !Less(ks[j], ks[Above(j)]))
    ensures Heap(ks)
  {
  }

  lemma AppendedLow(ks: seq<Key>, x: Key)
    requires Heap(ks)
    ensures HeapButLow(ks + [x], |ks|)
  {
    forall k | 0 < k < |ks|
      ensures OrderedAt(ks + [x], k)
    {
      assert OrderedAt(ks, k);
    }
  }

  // ---------- Sifting down ----------

  /** The first n keys are a heap, except that the one at i may exceed those below it. */
  ghost predicate HeapButHigh(ks: seq<Key>, n: nat, i: nat) {
    && n <= |ks|
    && (forall k | 0 < k < n && Above(k) != i :: OrderedAt(ks, k))
    && (forall k | 0 < k < n && i > 0 && Above(k) == i :: !Less(ks[k], ks[Above(i)]))
  }

  /** The lesser of the two keys below i. */
  ghost predicate LesserBelow(ks: seq<Key>, n: nat, i: nat, j: nat) {
    && n <= |ks| && 0 < j < n && Above(j) == i
    && (forall k | 0 < k < n && Above(k) == i :: !Less(ks[k], ks[j]))
  }

  lemma SiftDownStep(ks: seq<Key>, n: nat, i: nat, j: nat)
    requires HeapButHigh(ks, n, i) && LesserBelow(ks, n, i, j) && Less(ks[j], ks[i])
    ensures HeapButHigh(Swapped(ks, i, j), n, j)
  {
    var t := Swapped(ks, i, j);
    forall k | 0 < k < n && Above(k) != j
      ensures OrderedAt(t, k)
    {
      assert Above(k) != i ==> OrderedAt(ks, k);
    }
    forall k | 0 < k < n && j > 0 && Above(k) == j
      ensures !Less(t[k], t[Above(j)])
    {
      assert OrderedAt(ks, k);
    }
  }

  lemma SiftDownDone(ks: seq<Key>, n: nat, i: nat)
    requires HeapButHigh(ks, n, i)
    requires forall k | 0 < k < n && Above(k) == i :: !Less(ks[k], ks[i])
    ensures Heap(ks[..n])
  {
    forall k | 0 < k < n
      ensures OrderedAt(ks[..n], k)
    {
      assert Above(k) != i ==> OrderedAt(ks, k);
    }
  }

  lemma RootReplaced(ks: seq<Key>)
    requires Heap(ks) && |ks| > 0
    ensures HeapButHigh(Swapped(ks, 0, |ks| - 1), |ks| - 1, 0)
  {
    var t := Swapped(ks, 0, |ks| - 1);
    forall k | 0 < k < |ks| - 1 && Above(k) != 0
      ensures OrderedAt(t, k)
    {
      assert OrderedAt(ks, k);
    }
  }
}
