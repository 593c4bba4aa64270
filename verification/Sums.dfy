/** Totals over the values of a map. */
module Sums {

  ghost function Total<K, V>(m: map<K, V>, weight: V -> nat): nat {
    if m == map[] then 0 else
      var k :| k in m;
      weight(m[k]) + Total(m - {k}, weight)
  }

  /** Any entry can be taken out of a total first. */
  lemma {:induction false} TotalWithout<K, V>(m: map<K, V>, weight: V -> nat, k: K)
    requires k in m
    ensures Total(m, weight) == weight(m[k]) + Total(m - {k}, weight)
    decreases |m|
  {
    var first :| first in m && Total(m, weight) == weight(m[first]) + Total(m - {first}, weight);
    if first != k {
      TotalWithout(m - {first}, weight, k);
      TotalWithout(m - {k}, weight, first);
      assert m - {first} - {k} == m - {k} - {first};
    }
  }

  lemma TotalUpdate<K, V>(m: map<K, V>, weight: V -> nat, k: K, v: V)
    ensures Total(m[k := v], weight) == Total(m - {k}, weight) + weight(v)
    ensures k in m ==> Total(m[k := v], weight) == Total(m, weight) - weight(m[k]) + weight(v)
    ensures k !in m ==> Total(m[k := v], weight) == Total(m, weight) + weight(v)
  {
    TotalWithout(m[k := v], weight, k);
    assert m[k := v] - {k} == m - {k};
    if k in m {
      TotalWithout(m, weight, k);
    } else {
      assert m - {k} == m;
    }
  }

  /** A part of a map has no higher a total. */
  lemma {:induction false} TotalOfPart<K, V>(part: map<K, V>, whole: map<K, V>, weight: V -> nat)
    requires forall k :: k in part ==> k in whole && part[k] == whole[k]
    ensures Total(part, weight) <= Total(whole, weight)
    decreases |part|
  {
    if part != map[] {
      var k :| k in part;
      TotalWithout(part, weight, k);
      TotalWithout(whole, weight, k);
      TotalOfPart(part - {k}, whole - {k}, weight);
    }
  }

  lemma {:induction false} TotalOfBoth<K, V>(m: map<K, V>, n: map<K, V>, weight: V -> nat)
    requires forall k :: k in m ==> k !in n
    ensures Total(m + n, weight) == Total(m, weight) + Total(n, weight)
    decreases |m|
  {
    NothingInAll<K, V>(weight);
    hide Total;
    if m == map[] {
      assert m + n == n;
    } else {
      var k :| k in m;
      TotalWithout(m, weight, k);
      TotalWithout(m + n, weight, k);
      MinusOfBoth(m, n, k);
      TotalOfBoth(m - {k}, n, weight);
    }
  }

  lemma MinusOfBoth<K, V>(m: map<K, V>, n: map<K, V>, k: K)
    requires (forall j :: j in m ==> j !in n) && k in m
    ensures m + n - {k} == (m - {k}) + n
  {
    var left, right := m + n - {k}, (m - {k}) + n;
    assert left.Keys == right.Keys;
  }

  lemma NothingInAll<K, V>(weight: V -> nat)
    ensures Total<K, V>(map[], weight) == 0
  {
  }
}
