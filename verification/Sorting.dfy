/** What sort.Sort promises, proved of an insertion sort by an integer key. */
module Sorting {

  ghost predicate SortedBy<T>(s: seq<T>, key: T -> int) {
    forall i, j :: 0 <= i < j < |s| ==> key(s[i]) <= key(s[j])
  }

  method Sort<T>(s: seq<T>, key: T -> int) returns (r: seq<T>)
    ensures SortedBy(r, key) && multiset(r) == multiset(s) && |r| == |s|
  {
    r := [];
    for n := 0 to |s|
      invariant SortedBy(r, key)
      invariant multiset(r) == multiset(s[..n]) && |r| == n
    {
      assert s[..n + 1] == s[..n] + [s[n]];
      r := Insert(r, s[n], key);
    }
    assert s[..|s|] == s;
  }

  method Insert<T>(s: seq<T>, x: T, key: T -> int) returns (r: seq<T>)
    requires SortedBy(s, key)
    ensures SortedBy(r, key) && multiset(r) == multiset(s) + multiset{x} && |r| == |s| + 1
  {
    var k := |s|;
    while k > 0 && key(s[k - 1]) > key(x)
      invariant 0 <= k <= |s|
      invariant forall i :: k <= i < |s| ==> key(s[i]) > key(x)
    {
      k := k - 1;
    }
    assert s == s[..k] + s[k..];
    InsertedIsSorted(s, x, key, k);
    r := s[..k] + [x] + s[k..];
  }

  lemma InsertedIsSorted<T>(s: seq<T>, x: T, key: T -> int, k: nat)
    requires SortedBy(s, key) && k <= |s|
    requires k > 0 ==> key(s[k - 1]) <= key(x)
    requires forall i :: k <= i < |s| ==> key(s[i]) > key(x)
    ensures SortedBy(s[..k] + [x] + s[k..], key)
  {
  }

  /** A sequence whose elements form a set repeats none of them. */
  lemma NoRepeats<T>(s: seq<T>, elements: set<T>)
    requires multiset(s) == multiset(elements)
    ensures forall i, j :: 0 <= i < j < |s| ==> s[i] != s[j]
    ensures |s| == |elements|
    ensures forall x :: x in s <==> x in elements
  {
    forall i, j | 0 <= i < j < |s|
      ensures s[i] != s[j]
    {
      assert s == s[..i] + [s[i]] + s[i + 1..j] + [s[j]] + s[j + 1..];
      assert multiset(s)[s[i]] <= 1;
    }
    assert |multiset(s)| == |s|;
    forall x
      ensures x in s <==> x in elements
    {
      assert x in s <==> x in multiset(s);
    }
  }

  lemma {:induction false} DistinctFormSet<T>(s: seq<T>, elements: set<T>)
    requires forall x :: x in s <==> x in elements
    requires forall i, j :: 0 <= i < j < |s| ==> s[i] != s[j]
    ensures multiset(s) == multiset(elements)
  {
    if s == [] {
      assert elements == {};
    } else {
      var last := s[|s| - 1];
      var front := s[..|s| - 1];
      SplitLast(s);
      assert forall x :: x in s <==> x in front || x == last;
      DistinctFormSet(front, elements - {last});
      assert elements == (elements - {last}) + {last};
    }
  }

  lemma PrefixOfPrefix<T>(s: seq<T>, n: nat, k: nat)
    requires k <= n <= |s|
    ensures s[..n][..k] == s[..k]
  {
  }

  lemma WholePrefix<T>(s: seq<T>)
    ensures s[..|s|] == s
  {
  }

  lemma SplitLast<T>(s: seq<T>)
    requires s != []
    ensures s == s[..|s| - 1] + [s[|s| - 1]]
  {
  }

  lemma CancelOne<T>(a: multiset<T>, b: multiset<T>, x: T)
    requires a + multiset{x} == b + multiset{x}
    ensures a == b
  {
    forall y
      ensures a[y] == b[y]
    {
      assert (a + multiset{x})[y] == (b + multiset{x})[y];
    }
  }
}
