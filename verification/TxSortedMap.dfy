/** The nonce-to-transaction map with a heap of nonces and a cached sort
    (core/tx_list.go). */
module TxSortedMaps {
  import opened Wrappers
  import opened Transactions
  import Heaps
  import Sorting

  function NonceLess(a: nat, b: nat): bool {
    a < b
  }

  function Nonce(tx: Tx): int {
    tx.nonce
  }

  /** The part of `items` at or above, and below, a nonce. */
  function From(items: map<nat, Tx>, n: nat): map<nat, Tx> {
    map k | k in items && k >= n :: items[k]
  }

  function Below(items: map<nat, Tx>, n: nat): map<nat, Tx> {
    map k | k in items && k < n :: items[k]
  }

  /** What remains of `items` when the transactions satisfying `f` are dropped. */
  function Without(items: map<nat, Tx>, f: Tx -> bool): map<nat, Tx> {
    map k | k in items && !f(items[k]) :: items[k]
  }

  /** The `threshold` lowest nonces of `items`, by dropping the highest one at a time. */
  function Capped(items: map<nat, Tx>, threshold: nat): map<nat, Tx>
    decreases |items|
  {
    if |items| <= threshold then items else Capped(items - {MaxKey(items)}, threshold)
  }

  /** The first nonce from `n` on that is not in `items`. */
  function RunEnd(items: map<nat, Tx>, n: nat): (e: nat)
    ensures n <= e && e !in items
    ensures forall k :: n <= k < e ==> k in items
    decreases if n in items then MaxKey(items) + 1 - n else 0
  {
    if n !in items then n else RunEnd(items, n + 1)
  }

  /** `lowest` is the lowest nonce of `items`. */
  ghost predicate IsLowest(items: map<nat, Tx>, lowest: nat) {
    lowest in items && forall n :: n in items ==> lowest <= n
  }

  /** `txs` lists exactly the transactions of `items`, in nonce order. */
  ghost predicate Flattens(txs: seq<Tx>, items: map<nat, Tx>) {
    && (forall i, j :: 0 <= i < j < |txs| ==> txs[i].nonce < txs[j].nonce)
    && (forall i :: 0 <= i < |txs| ==> txs[i].nonce in items && items[txs[i].nonce] == txs[i])
    && (forall n :: n in items ==> items[n] in txs)
  }

  /** There is only one way to sort a map from scratch. */
  lemma {:induction false} FlatteningIsUnique(a: seq<Tx>, b: seq<Tx>, items: map<nat, Tx>)
    requires Keyed(items) && Flattens(a, items) && Flattens(b, items)
    ensures a == b
    ensures |a| == |items|
    decreases |items|
  {
    if a != [] { NotEmpty(a, items); }
    if b != [] { NotEmpty(b, items); }
    if items != map[] {
      var n := MaxKey(items);
      FlatteningEndsAtMax(a, items);
      FlatteningEndsAtMax(b, items);
      OneKeyLess(items, n);
      FlatteningIsUnique(a[..|a| - 1], b[..|b| - 1], items - {n});
      Sorting.SplitLast(a);
      Sorting.SplitLast(b);
    }
  }

  lemma NotEmpty(txs: seq<Tx>, items: map<nat, Tx>)
    requires Flattens(txs, items) && txs != []
    ensures items != map[]
  {
    assert txs[0].nonce in items;
  }

  /** The last transaction of a flattened list is the one with the highest nonce. */
  lemma FlatteningEndsAtMax(txs: seq<Tx>, items: map<nat, Tx>)
    requires Keyed(items) && Flattens(txs, items) && items != map[]
    ensures txs != [] && txs[|txs| - 1] == items[MaxKey(items)]
    ensures Flattens(txs[..|txs| - 1], items - {MaxKey(items)})
  {
  }

  /** A prefix of the cached sort is the sort of the capped map. */
  lemma {:induction false} CappedFlattening(txs: seq<Tx>, items: map<nat, Tx>, threshold: nat)
    requires Keyed(items) && Flattens(txs, items) && threshold <= |items| == |txs|
    ensures Flattens(txs[..threshold], Capped(items, threshold))
    decreases |items|
  {
    if |items| <= threshold {
      assert txs[..threshold] == txs;
    } else {
      var front, rest := txs[..|txs| - 1], items - {MaxKey(items)};
      assert Flattens(front, rest) by { FlatteningEndsAtMax(txs, items); }
      assert |rest| == |items| - 1 by { OneKeyLess(items, MaxKey(items)); }
      CappedFlattening(front, rest, threshold);
      Sorting.PrefixOfPrefix(txs, |txs| - 1, threshold);
      assert Capped(items, threshold) == Capped(rest, threshold);
    }
  }

  /** What is left of the cached sort behind the forwarded transactions is the sort of
      what is left of the map. */
  lemma ForwardedFlattening(txs: seq<Tx>, removed: seq<Tx>, items: map<nat, Tx>, n: nat)
    requires Keyed(items) && Flattens(txs, items) && Flattens(removed, Below(items, n))
    ensures |removed| <= |txs| && Flattens(txs[|removed|..], From(items, n))
  {
    var k := 0;
    while k < |txs| && txs[k].nonce < n
      invariant 0 <= k <= |txs|
      invariant forall i :: 0 <= i < k ==> txs[i].nonce < n
    {
      k := k + 1;
    }
    FrontOfFlattening(txs, items, n, k);
    BackOfFlattening(txs, items, n, k);
    FlatteningIsUnique(removed, txs[..k], Below(items, n));
  }

  lemma FrontOfFlattening(txs: seq<Tx>, items: map<nat, Tx>, n: nat, k: nat)
    requires Keyed(items) && Flattens(txs, items) && k <= |txs|
    requires forall i :: 0 <= i < |txs| ==> (i < k <==> txs[i].nonce < n)
    ensures Flattens(txs[..k], Below(items, n))
  {
  }

  lemma BackOfFlattening(txs: seq<Tx>, items: map<nat, Tx>, n: nat, k: nat)
    requires Keyed(items) && Flattens(txs, items) && k <= |txs|
    requires forall i :: 0 <= i < |txs| ==> (i < k <==> txs[i].nonce < n)
    ensures Flattens(txs[k..], From(items, n))
  {
  }

  lemma OneKeyLess(items: map<nat, Tx>, n: nat)
    requires n in items
    ensures (items - {n}).Keys == items.Keys - {n} && |items - {n}| == |items| - 1
    ensures multiset(items.Keys) == multiset((items - {n}).Keys) + multiset{n}
  {
  }

  class TxSortedMap {
    var items: map<nat, Tx>
    var index: seq<nat>
    var cache: Option<seq<Tx>>

    /** The index is a duplicate-free min-heap of exactly the keys, and the cache,
        when there is one, is exactly the nonce-sorted contents. */
    ghost predicate Valid()
      reads this
    {
      && Keyed(items)
      && IndexCovers()
      && (cache.Some? ==> Flattens(cache.value, items))
    }

    ghost predicate IndexCovers()
      reads this
    {
      Heaps.IsHeap(index, NonceLess) && multiset(index) == multiset(items.Keys)
    }

    constructor ()
      ensures Valid() && items == map[]
    {
      items, index, cache := map[], [], None;
    }

    lemma IndexAgrees()
      requires IndexCovers()
      ensures |index| == |items|
      ensures forall n :: n in index <==> n in items
      ensures |index| > 0 ==> IsLowest(items, index[0])
    {
      Sorting.NoRepeats(index, items.Keys);
      if |index| > 0 {
        forall n | n in items
          ensures index[0] <= n
        {
          var k :| 0 <= k < |index| && index[k] == n;
          Heaps.RootIsMinimal(index, NonceLess, k);
        }
      }
    }

    method Put(tx: Tx)
      requires Valid()
      modifies this
      ensures Valid() && items == old(items)[tx.nonce := tx]
    {
      if tx.nonce !in items {
        assert (items[tx.nonce := tx]).Keys == items.Keys + {tx.nonce};
        index := Heaps.Push(index, NonceLess, tx.nonce);
      } else {
        assert (items[tx.nonce := tx]).Keys == items.Keys;
      }
      items, cache := items[tx.nonce := tx], None;
    }

    /** Pop the lowest nonce off the heap and out of the map. */
    method PopLowest() returns (nonce: nat, tx: Tx)
      requires Keyed(items) && IndexCovers() && |index| > 0
      modifies `items, `index
      ensures Keyed(items) && IndexCovers()
      ensures IsLowest(old(items), nonce) && nonce == old(index)[0] && tx == old(items)[nonce]
      ensures items == old(items) - {nonce} && |items| == |old(items)| - 1
    {
      IndexAgrees();
      index, nonce := Heaps.Pop(index, NonceLess);
      OneKeyLess(items, nonce);
      Sorting.CancelOne(multiset(index), multiset((items - {nonce}).Keys), nonce);
      tx, items := items[nonce], items - {nonce};
    }

    method Forward(threshold: nat) returns (removed: seq<Tx>)
      requires Valid()
      modifies this
      ensures Valid() && items == From(old(items), threshold)
      ensures Flattens(removed, Below(old(items), threshold))
    {
      removed := PopBelow(threshold);
      if cache.Some? {
        ForwardedFlattening(cache.value, removed, old(items), threshold);
        cache := Some(cache.value[|removed|..]);
      }
    }

    method PopBelow(threshold: nat) returns (removed: seq<Tx>)
      requires Keyed(items) && IndexCovers()
      modifies `items, `index
      ensures Keyed(items) && IndexCovers() && items == From(old(items), threshold)
      ensures Flattens(removed, Below(old(items), threshold))
    {
      removed := [];
      ghost var items0, cut: nat := items, 0;
      assert From(items0, 0) == items0;
      while |index| > 0 && index[0] < threshold
        invariant Keyed(items) && IndexCovers()
        invariant cut <= threshold && items == From(items0, cut)
        invariant Flattens(removed, Below(items0, cut))
        decreases |items|
      {
        var nonce, tx := PopLowest();
        ExtendForward(removed, items0, cut, nonce);
        removed := removed + [tx];
        cut := nonce + 1;
      }
      IndexAgrees();
      NothingBetween(items0, cut, threshold);
    }

    static lemma NothingBetween(items: map<nat, Tx>, cut: nat, threshold: nat)
      requires cut <= threshold && forall n :: n in From(items, cut) ==> n >= threshold
      ensures From(items, cut) == From(items, threshold) && Below(items, cut) == Below(items, threshold)
    {
      forall n | n in items && n >= cut
        ensures n >= threshold
      {
        assert n in From(items, cut);
      }
    }

    static lemma ExtendForward(removed: seq<Tx>, items: map<nat, Tx>, cut: nat, n: nat)
      requires Keyed(items) && Flattens(removed, Below(items, cut))
      requires IsLowest(From(items, cut), n)
      ensures Flattens(removed + [items[n]], Below(items, n + 1))
      ensures From(items, n + 1) == From(items, cut) - {n}
    {
      var r := removed + [items[n]];
      var b := Below(items, n + 1);
      forall k | k in b
        ensures k in Below(items, cut) || k == n
      {
        assert k >= cut ==> k in From(items, cut);
      }
      assert r[|removed|] == items[n];
      forall k | k in b
        ensures b[k] in r
      {
        if k in Below(items, cut) {
          assert Below(items, cut)[k] in removed;
        }
      }
    }

    /** Rebuild the heap from the map. */
    method Reheap()
      requires Keyed(items)
      modifies this
      ensures Valid() && items == old(items) && cache == None
    {
      index := [];
      var rest := items.Keys;
      while rest != {}
        invariant rest <= items.Keys
        invariant multiset(index) + multiset(rest) == multiset(items.Keys)
        invariant items == old(items)
        decreases |rest|
      {
        var nonce :| nonce in rest;
        assert rest == (rest - {nonce}) + {nonce};
        index, rest := index + [nonce], rest - {nonce};
      }
      index := Heaps.Init(index, NonceLess);
      cache := None;
    }

    /** Drop the transactions satisfying `f` without repairing the heap. */
    method FilterOnly(f: Tx -> bool) returns (removed: seq<Tx>)
      requires Keyed(items)
      modifies this
      ensures Keyed(items) && items == Without(old(items), f) && index == old(index)
      ensures forall t :: t in removed <==> t.nonce in old(items) && old(items)[t.nonce] == t && f(t)
      ensures cache == if removed == [] then old(cache) else None
      ensures |removed| + |items| == |old(items)|
    {
      removed := [];
      ghost var items0 := items;
      var rest := items.Keys;
      while rest != {}
        invariant rest <= items.Keys <= items0.Keys
        invariant items == Unfiltered(items0, rest, f)
        invariant forall t :: t in removed <==> t.nonce in items0 && items0[t.nonce] == t && f(t) && t.nonce !in rest
        invariant |removed| + |items| == |items0|
        invariant index == old(index) && cache == old(cache)
        decreases |rest|
      {
        var nonce :| nonce in rest;
        rest := rest - {nonce};
        if f(items[nonce]) {
          removed := removed + [items[nonce]];
          items := items - {nonce};
        }
      }
      if |removed| > 0 {
        cache := None;
      }
    }

    /** `items` after every nonce but those of `rest` has been put to `f`. */
    static ghost function Unfiltered(items: map<nat, Tx>, rest: set<nat>, f: Tx -> bool): map<nat, Tx> {
      map k | k in items && (k in rest || !f(items[k])) :: items[k]
    }

    method Filter(f: Tx -> bool) returns (removed: seq<Tx>)
      requires Valid()
      modifies this
      ensures Valid() && items == Without(old(items), f)
      ensures forall t :: t in removed <==> t.nonce in old(items) && old(items)[t.nonce] == t && f(t)
      ensures |removed| + |items| == |old(items)|
    {
      removed := FilterOnly(f);
      if |removed| > 0 {
        Reheap();
      } else {
        assert forall t :: t !in removed;
        assert items == old(items);
      }
    }

    /** Keep the `threshold` lowest nonces; the dropped transactions come highest first. */
    method Cap(threshold: nat) returns (drops: seq<Tx>)
      requires Valid()
      modifies this
      ensures Valid() && items == Capped(old(items), threshold)
      ensures |drops| + |items| == |old(items)|
      ensures DropsFrom(drops, old(items), items)
    {
      drops := [];
      if |items| <= threshold {
        return;
      }
      SortIndex();
      var kept;
      kept, drops := DropHighest(items, index, threshold);
      index := Heaps.Init(index[..threshold], NonceLess);
      if cache.Some? {
        FlatteningIsUnique(cache.value, cache.value, items);
        CappedFlattening(cache.value, items, threshold);
        cache := Some(cache.value[..|cache.value| - |drops|]);
      }
      items := kept;
    }

    method SortIndex()
      requires multiset(index) == multiset(items.Keys)
      modifies `index
      ensures Ascending(index) && multiset(index) == multiset(items.Keys) && |index| == |items|
    {
      index := Sorting.Sort(index, n => n as int);
      Sorting.NoRepeats(index, items.Keys);
    }

    static method DropHighest(items: map<nat, Tx>, sorted: seq<nat>, threshold: nat)
        returns (kept: map<nat, Tx>, drops: seq<Tx>)
      requires Keyed(items) && threshold <= |items|
      requires Ascending(sorted) && multiset(sorted) == multiset(items.Keys) && |sorted| == |items|
      ensures kept == Capped(items, threshold) && Keyed(kept) && |drops| + |kept| == |items|
      ensures multiset(sorted[..threshold]) == multiset(kept.Keys)
      ensures DropsFrom(drops, items, kept)
      ensures |kept| == threshold
    {
      Sorting.WholePrefix(sorted);
      var size := |items|;
      kept, drops := items, [];
      while size > threshold
        invariant threshold <= size <= |sorted|
        invariant CapAt(items, sorted, kept, size)
        invariant Capped(kept, threshold) == Capped(items, threshold)
        invariant |drops| + size == |items| && Descending(drops, items, sorted)
      {
        CapStep(items, sorted, kept, size);
        DescendingStep(drops, items, sorted, kept, size);
        drops := drops + [kept[sorted[size - 1]]];
        kept := kept - {sorted[size - 1]};
        size := size - 1;
      }
      assert |sorted| - |drops| == size;
      CapDone(items, sorted, kept, drops);
    }

    static ghost predicate Ascending(s: seq<nat>) {
      forall i, j :: 0 <= i < j < |s| ==> s[i] < s[j]
    }

    /** `kept` is `items` cut down to the first `size` nonces of its sorted index. */
    static ghost predicate CapAt(items: map<nat, Tx>, sorted: seq<nat>, kept: map<nat, Tx>, size: nat) {
      && size <= |sorted| && Ascending(sorted) && |kept| == size
      && multiset(sorted) == multiset(items.Keys)
      && multiset(sorted[..size]) == multiset(kept.Keys)
      && (forall n :: n in kept ==> n in items && items[n] == kept[n])
    }

    static ghost predicate Descending(drops: seq<Tx>, items: map<nat, Tx>, sorted: seq<nat>) {
      |drops| <= |sorted| && forall i :: 0 <= i < |drops| ==> DroppedAt(drops, items, sorted, i)
    }

    static ghost predicate DroppedAt(drops: seq<Tx>, items: map<nat, Tx>, sorted: seq<nat>, i: nat)
      requires i < |drops| <= |sorted|
    {
      var nonce := sorted[|sorted| - 1 - i];
      nonce in items && drops[i] == items[nonce]
    }

    /** `drops` are transactions of `items` left out of `kept`, highest nonce first. */
    static ghost predicate DropsFrom(drops: seq<Tx>, items: map<nat, Tx>, kept: map<nat, Tx>) {
      && (forall i :: 0 <= i < |drops| ==>
            && drops[i].nonce in items && items[drops[i].nonce] == drops[i]
            && drops[i].nonce !in kept)
      && forall i, j :: 0 <= i < j < |drops| ==> drops[i].nonce > drops[j].nonce
    }

    static lemma CapStep(items: map<nat, Tx>, sorted: seq<nat>, kept: map<nat, Tx>, size: nat)
      requires CapAt(items, sorted, kept, size) && size > 0 && Keyed(items)
      ensures Keyed(kept)
      ensures kept != map[] && sorted[size - 1] == MaxKey(kept)
      ensures CapAt(items, sorted, kept - {MaxKey(kept)}, size - 1)
    {
      var s := sorted[..size];
      Sorting.NoRepeats(s, kept.Keys);
      assert s[size - 1] in s;
      var n := MaxKey(kept);
      assert n in s;
      var i :| 0 <= i < |s| && s[i] == n;
      assert i == size - 1;
      Sorting.SplitLast(s);
      Sorting.PrefixOfPrefix(sorted, size, size - 1);
      OneKeyLess(kept, n);
      Sorting.CancelOne(multiset(sorted[..size - 1]), multiset((kept - {n}).Keys), n);
    }

    static lemma DescendingStep(drops: seq<Tx>, items: map<nat, Tx>, sorted: seq<nat>, kept: map<nat, Tx>, size: nat)
      requires Descending(drops, items, sorted) && |drops| + size == |sorted| && 0 < size
      requires forall n :: n in kept ==> n in items && items[n] == kept[n]
      requires sorted[size - 1] in kept
      ensures Descending(drops + [kept[sorted[size - 1]]], items, sorted)
    {
      var longer := drops + [kept[sorted[size - 1]]];
      forall i | 0 <= i < |longer|
        ensures DroppedAt(longer, items, sorted, i)
      {
        if i < |drops| {
          assert DroppedAt(drops, items, sorted, i);
        }
      }
    }

    static lemma CapDone(items: map<nat, Tx>, sorted: seq<nat>, kept: map<nat, Tx>, drops: seq<Tx>)
      requires Keyed(items) && |drops| <= |sorted|
      requires CapAt(items, sorted, kept, |sorted| - |drops|)
      requires Descending(drops, items, sorted)
      ensures Keyed(kept) && DropsFrom(drops, items, kept)
    {
      var front := sorted[..|sorted| - |drops|];
      Sorting.NoRepeats(front, kept.Keys);
      forall i | 0 <= i < |drops|
        ensures var n := drops[i].nonce;
                n == sorted[|sorted| - 1 - i] && n in items && items[n] == drops[i] && n !in kept
      {
        assert DroppedAt(drops, items, sorted, i);
        var n := sorted[|sorted| - 1 - i];
        assert forall k :: 0 <= k < |front| ==> front[k] == sorted[k] && front[k] < n;
      }
    }

    method Remove(nonce: nat) returns (found: bool)
      requires Valid()
      modifies this
      ensures Valid() && found == (nonce in old(items)) && items == old(items) - {nonce}
    {
      if nonce !in items {
        assert items - {nonce} == items;
        return false;
      }
      IndexAgrees();
      var i := Find(index, nonce);
      index := Heaps.Remove(index, NonceLess, i);
      OneKeyLess(items, nonce);
      Sorting.CancelOne(multiset(index), multiset((items - {nonce}).Keys), nonce);
      items, cache := items - {nonce}, None;
      return true;
    }

    static method Find(s: seq<nat>, x: nat) returns (i: nat)
      requires x in s
      ensures i < |s| && s[i] == x
    {
      i := 0;
      while s[i] != x
        invariant i < |s| && x in s[i..]
        decreases |s| - i
      {
        i := i + 1;
      }
    }

    /** Take the gap-free run that starts at the lowest nonce, if that is not above `start`. */
    method Ready(start: nat) returns (ready: seq<Tx>)
      requires Valid()
      modifies this
      ensures Valid()
      ensures (exists n :: n in old(items) && n <= start) || (ready == [] && items == old(items))
      ensures forall lowest: nat :: IsLowest(old(items), lowest) && lowest <= start ==>
                var end := RunEnd(old(items), lowest);
                items == From(old(items), end) && IsRun(ready, old(items), lowest, end)
    {
      ready := [];
      IndexAgrees();
      if |index| == 0 || index[0] > start {
        return;
      }
      ready := TakeRun();
      cache := None;
    }

    method TakeRun() returns (ready: seq<Tx>)
      requires Keyed(items) && IndexCovers() && |index| > 0
      modifies `items, `index
      ensures Keyed(items) && IndexCovers()
      ensures IsLowest(old(items), old(index)[0]) && IsRun(ready, old(items), old(index)[0], RunEnd(old(items), old(index)[0]))
      ensures items == From(old(items), RunEnd(old(items), old(index)[0]))
    {
      IndexAgrees();
      ready := [];
      ghost var items0, lowest := items, index[0];
      var next := index[0];
      assert From(items0, next) == items0;
      while |index| > 0 && index[0] == next
        invariant Keyed(items) && IndexCovers()
        invariant items == From(items0, next)
        invariant IsRun(ready, items0, lowest, next)
        decreases |items|
      {
        var _, tx := PopLowest();
        RunStep(ready, items0, lowest, next);
        ready := ready + [tx];
        next := next + 1;
      }
      IndexAgrees();
      assert next in items0 ==> next in items;
      RunEndIs(items0, lowest, next);
    }

    /** `run` lists the transactions at the nonces from `lo` up to but excluding `hi`. */
    static ghost predicate IsRun(run: seq<Tx>, items: map<nat, Tx>, lo: nat, hi: nat) {
      && lo <= hi && |run| == hi - lo
      && forall n :: lo <= n < hi ==> n in items && run[n - lo] == items[n]
    }

    static lemma EmptyRun(items: map<nat, Tx>, lo: nat)
      ensures IsRun([], items, lo, lo)
    {
    }

    static lemma RunStep(run: seq<Tx>, items: map<nat, Tx>, lo: nat, next: nat)
      requires IsRun(run, items, lo, next) && next in items
      ensures IsRun(run + [items[next]], items, lo, next + 1)
      ensures From(items, next + 1) == From(items, next) - {next}
    {
    }

    method Flatten() returns (txs: seq<Tx>)
      requires Valid()
      modifies `cache
      ensures Valid() && Flattens(txs, items)
    {
      if cache == None {
        var collected: seq<Tx> := [];
        var rest := items.Keys;
        while rest != {}
          invariant rest <= items.Keys && |collected| + |rest| == |items|
          invariant forall t :: t in collected <==> t.nonce in items && t.nonce !in rest && items[t.nonce] == t
          invariant forall i, j :: 0 <= i < j < |collected| ==> collected[i].nonce != collected[j].nonce
          decreases |rest|
        {
          var nonce :| nonce in rest;
          collected, rest := collected + [items[nonce]], rest - {nonce};
        }
        var sorted := Sorting.Sort(collected, Nonce);
        SortedFlattens(collected, sorted, items);
        cache := Some(sorted);
      }
      txs := cache.value;
    }

    static lemma SortedFlattens(collected: seq<Tx>, sorted: seq<Tx>, items: map<nat, Tx>)
      requires forall t :: t in collected <==> t.nonce in items && items[t.nonce] == t
      requires forall i, j :: 0 <= i < j < |collected| ==> collected[i].nonce != collected[j].nonce
      requires Sorting.SortedBy(sorted, Nonce) && multiset(sorted) == multiset(collected)
      requires Keyed(items)
      ensures Flattens(sorted, items)
    {
      assert forall t :: t in sorted <==> t in multiset(sorted);
      assert forall t :: t in collected <==> t in multiset(collected);
      var elements := set t | t in collected;
      Sorting.DistinctFormSet(collected, elements);
      Sorting.NoRepeats(sorted, elements);
      forall i, j | 0 <= i < j < |sorted|
        ensures sorted[i].nonce < sorted[j].nonce
      {
        assert sorted[i] in sorted && sorted[j] in sorted;
        assert Nonce(sorted[i]) <= Nonce(sorted[j]) && sorted[i] != sorted[j];
      }
      forall i | 0 <= i < |sorted|
        ensures sorted[i].nonce in items && items[sorted[i].nonce] == sorted[i]
      {
        assert sorted[i] in sorted;
      }
    }

    /** The transaction with the highest nonce. */
    method LastElement() returns (tx: Tx)
      requires Valid() && items != map[]
      modifies `cache
      ensures Valid() && tx == items[MaxKey(items)]
    {
      var txs := Flatten();
      FlatteningEndsAtMax(txs, items);
      tx := txs[|txs| - 1];
    }
  }

  lemma {:induction false} RunEndIs(items: map<nat, Tx>, n: nat, e: nat)
    requires n <= e && e !in items && forall k :: n <= k < e ==> k in items
    ensures RunEnd(items, n) == e
  {
  }
}
