/** The binary heap of Go's container/heap package, over a sequence that is
    swapped in place. Both the nonce index and the two price heaps rest on it. */
module Heaps {

  /** A strict weak order: what sort.Interface asks of Less. */
  ghost predicate StrictWeakOrder<T(!new)>(less: (T, T) -> bool) {
    && (forall x, y :: less(x, y) ==> !less(y, x))
    && (forall x, y, z :: !less(y, x) && !less(z, y) ==> !less(z, x))
  }

  function Parent(j: nat): nat {
    if j == 0 then 0 else (j - 1) / 2
  }

  /** The pair (parent of j, j) is in order. */
  ghost predicate OrderedAt<T>(h: seq<T>, less: (T, T) -> bool, j: nat)
    requires j < |h|
  {
    !less(h[j], h[Parent(j)])
  }

  ghost predicate IsHeap<T>(h: seq<T>, less: (T, T) -> bool) {
    forall j {:trigger OrderedAt(h, less, j)} :: 0 < j < |h| ==> OrderedAt(h, less, j)
  }

  /** The first element of a heap is a minimum. */
  lemma {:induction false} RootIsMinimal<T(!new)>(h: seq<T>, less: (T, T) -> bool, k: nat)
    requires StrictWeakOrder(less) && IsHeap(h, less) && k < |h|
    ensures !less(h[k], h[0])
    decreases k
  {
    if k > 0 {
      RootIsMinimal(h, less, Parent(k));
      assert OrderedAt(h, less, k);
    }
  }

  /** Swapping keeps the elements. */
  function Swap<T>(h: seq<T>, i: nat, j: nat): (r: seq<T>)
    requires i < |h| && j < |h|
    ensures multiset(r) == multiset(h)
  {
    h[i := h[j]][j := h[i]]
  }

  /** Everything is in order except possibly the pair above `i`, and the children
      of `i` are in order with respect to the parent of `i`. */
  ghost predicate OrderedButAbove<T>(h: seq<T>, less: (T, T) -> bool, i: nat)
    requires i < |h|
  {
    && (forall j {:trigger OrderedAt(h, less, j)} :: 0 < j < |h| && j != i ==> OrderedAt(h, less, j))
    && (forall j {:trigger Parent(j)} :: 0 < j < |h| && Parent(j) == i && i > 0 ==> !less(h[j], h[Parent(i)]))
  }

  method Up<T(!new)>(h0: seq<T>, less: (T, T) -> bool, j0: nat) returns (h: seq<T>)
    requires StrictWeakOrder(less)
    requires j0 < |h0| && OrderedButAbove(h0, less, j0)
    ensures IsHeap(h, less) && multiset(h) == multiset(h0)
  {
    h := h0;
    var j: nat := j0;
    while true
      invariant j < |h| == |h0|
      invariant OrderedButAbove(h, less, j)
      invariant multiset(h) == multiset(h0)
      decreases j
    {
      var i := Parent(j);
      if i == j || !less(h[j], h[i]) {
        break;
      }
      SwapUp(h, less, j);
      h := Swap(h, i, j);
      j := i;
    }
  }

  lemma SwapUp<T(!new)>(h: seq<T>, less: (T, T) -> bool, j: nat)
    requires StrictWeakOrder(less)
    requires 0 < j < |h| && OrderedButAbove(h, less, j) && less(h[j], h[Parent(j)])
    ensures OrderedButAbove(Swap(h, Parent(j), j), less, Parent(j))
  {
    var i := Parent(j);
    var r := Swap(h, i, j);
    forall k | 0 < k < |r| && k != i
      ensures OrderedAt(r, less, k)
    {
      assert OrderedAt(h, less, k) || k == j;
    }
    forall k | 0 < k < |r| && Parent(k) == i && i > 0
      ensures !less(r[k], r[Parent(i)])
    {
      assert OrderedAt(h, less, i);
      assert k == j || OrderedAt(h, less, k);
    }
  }

  /** In order at every pair whose parent is at least `lo`, except the pairs that
      touch `i`; the children of `i` are in order with respect to its parent. */
  ghost predicate OrderedAround<T>(h: seq<T>, less: (T, T) -> bool, lo: nat, i: nat, above: bool)
    requires i < |h|
  {
    && (forall j {:trigger OrderedAt(h, less, j)} ::
          0 < j < |h| && Parent(j) >= lo && Parent(j) != i && (above || j != i) ==> OrderedAt(h, less, j))
    && (forall j {:trigger Parent(j)} ::
          0 < j < |h| && Parent(j) == i && i > 0 && Parent(i) >= lo ==> !less(h[j], h[Parent(i)]))
  }

  ghost predicate OrderedFrom<T>(h: seq<T>, less: (T, T) -> bool, lo: nat) {
    forall j {:trigger OrderedAt(h, less, j)} :: 0 < j < |h| && Parent(j) >= lo ==> OrderedAt(h, less, j)
  }

  method Down<T(!new)>(h0: seq<T>, less: (T, T) -> bool, lo: nat, i0: nat) returns (h: seq<T>, moved: bool)
    requires StrictWeakOrder(less)
    requires lo <= i0 < |h0| && OrderedAround(h0, less, lo, i0, false)
    ensures multiset(h) == multiset(h0) && |h| == |h0|
    ensures moved ==> OrderedFrom(h, less, lo)
    ensures !moved ==> h == h0 && forall j {:trigger OrderedAt(h, less, j)} ::
              0 < j < |h| && Parent(j) >= lo && j != i0 ==> OrderedAt(h, less, j)
  {
    h := h0;
    var i := i0;
    while true
      invariant i0 <= i < |h| == |h0|
      invariant OrderedAround(h, less, lo, i, i != i0)
      invariant i == i0 ==> h == h0
      invariant multiset(h) == multiset(h0)
      decreases |h| - i
    {
      var j1 := 2 * i + 1;
      if j1 >= |h| {
        break;
      }
      var j := j1;
      if j1 + 1 < |h| && less(h[j1 + 1], h[j1]) {
        j := j1 + 1;
      }
      if !less(h[j], h[i]) {
        NothingBelow(h, less, i, j);
        break;
      }
      SwapDown(h, less, lo, i, j, i != i0);
      h := Swap(h, i, j);
      i := j;
    }
    moved := i > i0;
  }

  /** `j` is a least child of `i`. */
  ghost predicate LeastChild<T>(h: seq<T>, less: (T, T) -> bool, i: nat, j: nat) {
    && 0 < j < |h| && Parent(j) == i < |h|
    && forall k {:trigger Parent(k)} :: 0 < k < |h| && Parent(k) == i ==> !less(h[k], h[j])
  }

  lemma NothingBelow<T(!new)>(h: seq<T>, less: (T, T) -> bool, i: nat, j: nat)
    requires StrictWeakOrder(less)
    requires LeastChild(h, less, i, j) && !less(h[j], h[i])
    ensures forall k {:trigger OrderedAt(h, less, k)} :: 0 < k < |h| && Parent(k) == i ==> OrderedAt(h, less, k)
  {
  }

  lemma SwapDown<T(!new)>(h: seq<T>, less: (T, T) -> bool, lo: nat, i: nat, j: nat, above: bool)
    requires StrictWeakOrder(less) && lo <= i
    requires LeastChild(h, less, i, j) && less(h[j], h[i])
    requires OrderedAround(h, less, lo, i, above)
    ensures OrderedAround(Swap(h, i, j), less, lo, j, true)
  {
    var r := Swap(h, i, j);
    forall k | 0 < k < |r| && Parent(k) >= lo && Parent(k) != j
      ensures OrderedAt(r, less, k)
    {
      if k != j && k != i && Parent(k) != i {
        assert OrderedAt(h, less, k);
      }
    }
    forall k | 0 < k < |r| && Parent(k) == j
      ensures !less(r[k], r[Parent(j)])
    {
      assert OrderedAt(h, less, k);
    }
  }

  method Push<T(!new)>(h0: seq<T>, less: (T, T) -> bool, x: T) returns (h: seq<T>)
    requires StrictWeakOrder(less) && IsHeap(h0, less)
    ensures IsHeap(h, less) && multiset(h) == multiset(h0) + multiset{x}
  {
    var a := h0 + [x];
    forall j | 0 < j < |a| && j != |h0|
      ensures OrderedAt(a, less, j)
    {
      assert OrderedAt(h0, less, j);
    }
    h := Up(a, less, |h0|);
  }

  method Pop<T(!new)>(h0: seq<T>, less: (T, T) -> bool) returns (h: seq<T>, x: T)
    requires StrictWeakOrder(less) && IsHeap(h0, less) && |h0| > 0
    ensures IsHeap(h, less) && multiset(h0) == multiset(h) + multiset{x}
    ensures x == h0[0] && |h| == |h0| - 1
    ensures forall y :: y in h0 ==> !less(y, x)
  {
    forall y | y in h0
      ensures !less(y, h0[0])
    {
      var k :| 0 <= k < |h0| && h0[k] == y;
      RootIsMinimal(h0, less, k);
    }
    var n := |h0| - 1;
    var s := Swap(h0, 0, n);
    x := s[n];
    assert s == s[..n] + [x];
    h := s[..n];
    if n > 0 {
      forall j | 0 < j < n && Parent(j) != 0
        ensures OrderedAt(h, less, j)
      {
        assert OrderedAt(h0, less, j);
      }
      var moved;
      h, moved := Down(h, less, 0, 0);
    }
  }

  method Remove<T(!new)>(h0: seq<T>, less: (T, T) -> bool, i: nat) returns (h: seq<T>)
    requires StrictWeakOrder(less) && IsHeap(h0, less) && i < |h0|
    ensures IsHeap(h, less) && multiset(h0) == multiset(h) + multiset{h0[i]}
  {
    var n := |h0| - 1;
    var s := Swap(h0, i, n);
    assert s == s[..n] + [h0[i]];
    h := s[..n];
    if n != i {
      RemoveLeavesOrder(h0, less, i);
      var moved;
      h, moved := Down(h, less, 0, i);
      if !moved {
        h := Up(h, less, i);
      }
    } else {
      forall j | 0 < j < |h|
        ensures OrderedAt(h, less, j)
      {
        assert OrderedAt(h0, less, j);
      }
    }
  }

  lemma RemoveLeavesOrder<T(!new)>(h0: seq<T>, less: (T, T) -> bool, i: nat)
    requires StrictWeakOrder(less) && IsHeap(h0, less) && i < |h0| - 1
    ensures OrderedAround(Swap(h0, i, |h0| - 1)[..|h0| - 1], less, 0, i, false)
  {
    var h := Swap(h0, i, |h0| - 1)[..|h0| - 1];
    forall j | 0 < j < |h| && Parent(j) != i && j != i
      ensures OrderedAt(h, less, j)
    {
      assert OrderedAt(h0, less, j);
    }
    forall j | 0 < j < |h| && Parent(j) == i && i > 0
      ensures !less(h[j], h[Parent(i)])
    {
      assert OrderedAt(h0, less, j) && OrderedAt(h0, less, i);
    }
  }

  method Init<T(!new)>(h0: seq<T>, less: (T, T) -> bool) returns (h: seq<T>)
    requires StrictWeakOrder(less)
    ensures IsHeap(h, less) && multiset(h) == multiset(h0) && |h| == |h0|
  {
    h := h0;
    var i := |h| / 2;
    while i > 0
      invariant 0 <= i <= |h| / 2 && |h| == |h0|
      invariant OrderedFrom(h, less, i)
      invariant multiset(h) == multiset(h0)
    {
      i := i - 1;
      var moved;
      h, moved := Down(h, less, i, i);
    }
  }
}
