/** The two price heaps that choose what to evict (txPricedList in core/tx_list.go). */
module TxPricedLists {
  import opened Wrappers
  import opened Transactions
  import opened TxLookups
  import Heaps
  import Sums

  const URGENT_RATIO: nat := 4
  const FLOATING_RATIO: nat := 1

  function EffectiveTip(tx: Tx, baseFee: int): int {
    if tx.tipCap < tx.feeCap - baseFee then tx.tipCap else tx.feeCap - baseFee
  }

  function Sign(a: int, b: int): int {
    if a < b then -1 else if a > b then 1 else 0
  }

  /** The price comparison of a heap: effective tip when there is a base fee, then fee
      cap, then tip cap. */
  function Cmp(baseFee: Option<int>, a: Tx, b: Tx): int {
    var tips := if baseFee.Some? then Sign(EffectiveTip(a, baseFee.value), EffectiveTip(b, baseFee.value)) else 0;
    if tips != 0 then tips
    else if a.feeCap != b.feeCap then Sign(a.feeCap, b.feeCap)
    else Sign(a.tipCap, b.tipCap)
  }

  /** Cheaper first; at the same price the higher nonce first. */
  predicate PriceLess(baseFee: Option<int>, a: Tx, b: Tx) {
    var c := Cmp(baseFee, a, b);
    c < 0 || (c == 0 && a.nonce > b.nonce)
  }

  function PriceOrder(baseFee: Option<int>): (Tx, Tx) -> bool {
    (a, b) => PriceLess(baseFee, a, b)
  }

  /** The price is the tip that a base fee leaves room for, then the fee cap, then the tip cap;
      at one price the higher nonce of two transactions goes first, so that an account keeps its
      lower ones. Whoever offers no more with either cap is never the dearer. */
  lemma PriceOrderMeans(fee: nat, a: Tx, b: Tx)
    ensures PriceLess(None, a, b) <==>
              || a.feeCap < b.feeCap || (a.feeCap == b.feeCap && a.tipCap < b.tipCap)
              || (a.feeCap == b.feeCap && a.tipCap == b.tipCap && a.nonce > b.nonce)
    ensures var tipA := if a.tipCap + fee <= a.feeCap then a.tipCap else a.feeCap - fee;
            var tipB := if b.tipCap + fee <= b.feeCap then b.tipCap else b.feeCap - fee;
            && (tipA != tipB ==> (PriceLess(Some(fee), a, b) <==> tipA < tipB) && (Cmp(Some(fee), a, b) < 0 <==> tipA < tipB))
            && (tipA == tipB ==> (PriceLess(Some(fee), a, b) <==> PriceLess(None, a, b)) && Cmp(Some(fee), a, b) == Cmp(None, a, b))
    ensures a.feeCap <= b.feeCap && a.tipCap <= b.tipCap ==> Cmp(None, a, b) <= 0 && Cmp(Some(fee), a, b) <= 0
    ensures Cmp(None, a, b) == 0 <==> a.feeCap == b.feeCap && a.tipCap == b.tipCap
    ensures Cmp(None, a, b) < 0 <==> a.feeCap < b.feeCap || (a.feeCap == b.feeCap && a.tipCap < b.tipCap)
  {
  }

  lemma PriceOrderIsStrictWeak(baseFee: Option<int>)
    ensures Heaps.StrictWeakOrder(PriceOrder(baseFee))
  {
  }

  /** What the slots of a list of transactions add up to. */
  function SlotSum(txs: seq<Tx>): nat {
    if txs == [] then 0 else SlotSum(txs[..|txs| - 1]) + txs[|txs| - 1].slots
  }

  class TxPricedList {
    var stales: int
    const all: TxLookup
    var baseFee: Option<int>
    var urgent: seq<Tx>
    var floating: seq<Tx>

    ghost predicate Valid()
      reads this
    {
      Heaps.IsHeap(urgent, PriceOrder(baseFee)) && Heaps.IsHeap(floating, PriceOrder(None))
    }

    /** A live entry: the lookup still knows the transaction as remote. */
    predicate Live(tx: Tx)
      reads this, all
    {
      all.IsRemote(tx)
    }

    ghost predicate Tracks(tx: Tx)
      reads this
    {
      tx in urgent || tx in floating
    }

    /** Every remote transaction can be found in one of the heaps. */
    ghost predicate Covers()
      reads this, all
    {
      forall tx :: HashOf(tx) in all.remotes ==> tx in urgent || tx in floating
    }

    constructor (all: TxLookup)
      ensures Valid() && this.all == all && urgent == [] && floating == []
    {
      this.all := all;
      stales, baseFee, urgent, floating := 0, None, [], [];
    }

    method Put(tx: Tx, local: bool)
      requires Valid()
      modifies `stales, `urgent, `floating
      ensures Valid()
      ensures forall t :: Tracks(t) <==> old(Tracks(t)) || (!local && t == tx)
      ensures local ==> unchanged(this)
      ensures !local ==> multiset(urgent) == multiset(old(urgent)) + multiset{tx} && floating == old(floating)
    {
      if local {
        return;
      }
      PriceOrderIsStrictWeak(baseFee);
      var before := urgent;
      urgent := Heaps.Push(urgent, PriceOrder(baseFee), tx);
      SameElements(urgent, before + [tx]);
      assert multiset(before + [tx]) == multiset(before) + multiset{tx};
    }

    static lemma SameElements<T>(a: seq<T>, b: seq<T>)
      requires multiset(a) == multiset(b)
      ensures forall x :: x in a <==> x in b
    {
      assert forall x :: x in a <==> x in multiset(a);
      assert forall x :: x in b <==> x in multiset(b);
    }

    /** Count stale entries and rebuild the heaps once a quarter of them are stale. */
    method Removed(count: nat)
      requires Valid() && Covers() && all.Valid()
      modifies `stales, `urgent, `floating
      ensures Valid() && Covers()
    {
      stales := stales + count;
      if stales <= (|urgent| + |floating|) / 4 {
        return;
      }
      Reheap();
    }

    method PopUrgent() returns (tx: Tx)
      requires Valid() && urgent != []
      modifies `urgent
      ensures Valid() && |urgent| == |old(urgent)| - 1
      ensures forall t :: t in old(urgent) <==> t in urgent || t == tx
      ensures tx == old(urgent)[0] && forall t :: t in urgent ==> !PriceLess(baseFee, t, tx)
    {
      PriceOrderIsStrictWeak(baseFee);
      var before := urgent;
      urgent, tx := Heaps.Pop(urgent, PriceOrder(baseFee));
      SameElements(before, urgent + [tx]);
    }

    method PopFloating() returns (tx: Tx)
      requires Valid() && floating != []
      modifies `floating
      ensures Valid() && |floating| == |old(floating)| - 1
      ensures multiset(floating) + multiset{tx} == multiset(old(floating))
      ensures forall t :: t in old(floating) <==> t in floating || t == tx
      ensures tx == old(floating)[0] && forall t :: t in floating ==> !PriceLess(None, t, tx)
    {
      PriceOrderIsStrictWeak(None);
      var before := floating;
      floating, tx := Heaps.Pop(floating, PriceOrder(None));
      SameElements(before, floating + [tx]);
      assert multiset(floating + [tx]) == multiset(floating) + multiset{tx};
    }

    method PushFloating(tx: Tx)
      requires Valid()
      modifies `floating
      ensures Valid() && |floating| == |old(floating)| + 1
      ensures multiset(floating) == multiset(old(floating)) + multiset{tx}
      ensures forall t :: t in floating <==> t in old(floating) || t == tx
    {
      PriceOrderIsStrictWeak(None);
      var before := floating;
      floating := Heaps.Push(floating, PriceOrder(None), tx);
      SameElements(floating, before + [tx]);
      assert multiset(before + [tx]) == multiset(before) + multiset{tx};
      assert |multiset(floating)| == |floating|;
      assert |multiset(before)| == |before|;
    }

    /** Drop stale entries off the top of a heap. */
    method Prune(h0: seq<Tx>, fee: Option<int>) returns (h: seq<Tx>)
      requires Heaps.IsHeap(h0, PriceOrder(fee))
      modifies `stales
      ensures Heaps.IsHeap(h, PriceOrder(fee))
      ensures h == [] || Live(h[0])
      ensures forall t :: t in h ==> t in h0
      ensures forall t :: t in h0 && Live(t) ==> t in h
    {
      h := h0;
      while |h| > 0
        invariant Heaps.IsHeap(h, PriceOrder(fee))
        invariant forall t :: t in h ==> t in h0
        invariant forall t :: t in h0 && Live(t) ==> t in h
        decreases |h|
      {
        if Live(h[0]) {
          break;
        }
        stales := stales - 1;
        PriceOrderIsStrictWeak(fee);
        var before := h;
        var tx;
        h, tx := Heaps.Pop(h, PriceOrder(fee));
        SameElements(before, h + [tx]);
      }
    }

    /** At least as dear as `tx`, by the comparison of a heap. */
    static ghost predicate AllDearer(h: seq<Tx>, fee: Option<int>, tx: Tx) {
      forall t :: t in h ==> Cmp(fee, t, tx) >= 0
    }

    static lemma TopDecides(h: seq<Tx>, fee: Option<int>, tx: Tx)
      requires h != [] && Heaps.IsHeap(h, PriceOrder(fee))
      ensures Cmp(fee, h[0], tx) >= 0 <==> AllDearer(h, fee, tx)
    {
      PriceOrderIsStrictWeak(fee);
      forall t | t in h
        ensures !PriceLess(fee, t, h[0])
      {
        var k :| 0 <= k < |h| && h[k] == t;
        Heaps.RootIsMinimal(h, PriceOrder(fee), k);
      }
    }

    ghost predicate CheaperHere(t: Tx, tx: Tx)
      reads this
    {
      (t in urgent && Cmp(baseFee, t, tx) < 0) || (t in floating && Cmp(None, t, tx) < 0)
    }

    /** A transaction is underpriced when something is tracked and nothing tracked, in
        either heap, is cheaper; when it is not, a live tracked entry is cheaper, or
        nothing live is left. */
    method Underpriced(tx: Tx) returns (worst: bool)
      requires Valid() && Covers()
      modifies `stales, `urgent, `floating
      ensures Valid() && Covers() && baseFee == old(baseFee)
      ensures worst ==> AllDearer(urgent, baseFee, tx) && AllDearer(floating, None, tx) && exists t :: Live(t)
      ensures !worst ==> (exists t :: Live(t) && CheaperHere(t, tx)) || forall t :: !Live(t)
    {
      urgent := Prune(urgent, baseFee);
      assert Covers();
      if |urgent| != 0 {
        TopDecides(urgent, baseFee, tx);
        if Cmp(baseFee, urgent[0], tx) < 0 {
          assert CheaperHere(urgent[0], tx);
          return false;
        }
      }
      floating := Prune(floating, None);
      assert Covers();
      if |floating| != 0 {
        TopDecides(floating, None, tx);
        if Cmp(None, floating[0], tx) < 0 {
          assert CheaperHere(floating[0], tx);
          return false;
        }
      }
      worst := |urgent| != 0 || |floating| != 0;
      assert !worst ==> forall t :: Live(t) ==> Tracks(t);
      assert urgent != [] ==> Live(urgent[0]);
      assert floating != [] ==> Live(floating[0]);
    }

    /** Every live transaction is in a heap or has been picked for dropping. */
    ghost predicate CoversWith(drop: seq<Tx>)
      reads this, all
    {
      forall tx :: HashOf(tx) in all.remotes ==> tx in urgent || tx in floating || tx in drop
    }

    /** Nothing of `left` comes before anything of `drop` in the order of the floating heap. */
    static ghost predicate NoneBefore(left: multiset<Tx>, drop: seq<Tx>) {
      forall t, p :: t in left && p in drop ==> !PriceLess(None, t, p)
    }

    /** The floating heap while transactions are picked: at most one entry, just moved there
        from the urgent heap, comes before what was picked, and it is then picked next. */
    static ghost predicate Picking(urgent: nat, floating: multiset<Tx>, drop: seq<Tx>) {
      && (drop != [] ==> urgent * FLOATING_RATIO <= (|floating| + 1) * URGENT_RATIO)
      && (NoneBefore(floating, drop) || (
            && urgent * FLOATING_RATIO <= |floating| * URGENT_RATIO
            && exists f :: f in floating && NoneBefore(floating - multiset{f}, drop)))
    }

    /** Moving an entry over from the urgent heap. */
    static lemma PickingMoved(urgent: nat, floating: multiset<Tx>, drop: seq<Tx>, tx: Tx)
      requires Picking(urgent + 1, floating, drop) && (urgent + 1) * FLOATING_RATIO > |floating| * URGENT_RATIO
      ensures Picking(urgent, floating + multiset{tx}, drop) && Picking(urgent, floating, drop)
    {
      assert floating + multiset{tx} - multiset{tx} == floating;
      assert tx in floating + multiset{tx};
    }

    /** Taking the first entry of the floating heap, to drop it unless it is stale. */
    static lemma PickingTaken(urgent: nat, floating: multiset<Tx>, drop: seq<Tx>, tx: Tx)
      requires Picking(urgent, floating + multiset{tx}, drop) && urgent * FLOATING_RATIO <= (|floating| + 1) * URGENT_RATIO
      requires forall t :: t in floating ==> !PriceLess(None, t, tx)
      ensures NoneBefore(floating, drop) && NoneBefore(floating, drop + [tx])
      ensures Picking(urgent, floating, drop) && Picking(urgent, floating, drop + [tx])
    {
      hide PriceLess;
      if !NoneBefore(floating + multiset{tx}, drop) {
        var f :| f in floating + multiset{tx} && NoneBefore(floating + multiset{tx} - multiset{f}, drop);
        if f == tx {
          assert floating + multiset{tx} - multiset{f} == floating;
        } else {
          assert tx in floating + multiset{tx} - multiset{f};
          forall t, p | t in floating && p in drop
            ensures !PriceLess(None, t, p)
          {
            assert t == f || t in floating + multiset{tx} - multiset{f};
            NotBeforeEither(t, tx, p);
          }
        }
      }
    }

    static lemma NotBeforeEither(a: Tx, b: Tx, c: Tx)
      ensures !PriceLess(None, a, b) && !PriceLess(None, b, c) ==> !PriceLess(None, a, c)
    {
    }

    /** Pick the cheapest remote transactions until they cover `slots`, and no more. Failing loses
        no live entry, and happens only when all remote transactions together do not cover the
        request; with force everything live is picked then. Nothing left in the floating heap
        comes before anything picked. */
    method Discard(slots: int, force: bool) returns (drop: seq<Tx>, success: bool)
      requires Valid() && Covers()
      modifies `stales, `urgent, `floating
      ensures Valid() && baseFee == old(baseFee)
      ensures !success ==> !force && drop == [] && Covers()
      ensures !success && old(all.Valid()) ==> Sums.Total(all.remotes, SlotsOf) < slots
      ensures drop != [] ==> SlotSum(drop[..|drop| - 1]) < slots
      ensures success ==> CoversWith(drop) && forall t :: t in drop ==> Live(t)
      ensures success ==> SlotSum(drop) >= slots || (force && forall t :: Live(t) ==> t in drop)
      ensures success ==> forall p, t :: p in drop && t in floating ==> !PriceLess(None, t, p) && Cmp(None, p, t) <= 0
    {
      drop := [];
      var need := slots;
      hide Picking, NoneBefore, PriceLess, Cmp;
      NothingPicked(|urgent|, multiset(floating));
      while need > 0
        invariant Valid() && baseFee == old(baseFee)
        invariant CoversWith(drop) && forall t :: t in drop ==> Live(t)
        invariant SlotSum(drop) + need == slots
        invariant drop != [] ==> SlotSum(drop[..|drop| - 1]) < slots
        invariant Picking(|urgent|, multiset(floating), drop)
        invariant need <= 0 ==> NoneBefore(multiset(floating), drop)
        decreases need > 0, 2 * |urgent| + |floating|
      {
        if |urgent| * FLOATING_RATIO > |floating| * URGENT_RATIO {
          ghost var left := multiset(floating);
          var tx := PopUrgent();
          PickingMoved(|urgent|, left, drop, tx);
          if !Live(tx) {
            stales := stales - 1;
            continue;
          }
          PushFloating(tx);
        } else {
          if |floating| == 0 {
            break;
          }
          var tx := PopFloating();
          PickingTaken(|urgent|, multiset(floating), drop, tx);
          if !Live(tx) {
            stales := stales - 1;
            continue;
          }
          SlotSumAppend(drop, tx);
          assert (drop + [tx])[..|drop|] == drop;
          drop := drop + [tx];
          need := need - tx.slots;
        }
      }
      if need > 0 && !force {
        if all.Valid() {
          AllPicked(all.remotes, drop);
        }
        PushBack(drop);
        return [], false;
      }
      NoneLeftCheaper(floating, drop);
      return drop, true;
    }

    /** Transactions that are all picked take up no more slots than the picked ones. */
    static lemma {:induction false} AllPicked(remotes: map<TxHash, Tx>, drop: seq<Tx>)
      requires Hashed(remotes) && forall t :: HashOf(t) in remotes ==> t in drop
      ensures Sums.Total(remotes, SlotsOf) <= SlotSum(drop)
      decreases |drop|
    {
      if drop == [] {
        assert forall h :: h in remotes ==> HashOf(remotes[h]) in remotes;
        assert remotes == map[];
      } else {
        var last, before := drop[|drop| - 1], drop[..|drop| - 1];
        assert drop == before + [last];
        var rest := remotes - {HashOf(last)};
        AllPicked(rest, before);
        if HashOf(last) in remotes {
          Sums.TotalWithout(remotes, SlotsOf, HashOf(last));
        } else {
          assert rest == remotes;
        }
      }
    }

    static lemma NothingPicked(urgent: nat, floating: multiset<Tx>)
      ensures Picking(urgent, floating, []) && NoneBefore(floating, [])
    {
    }

    static lemma NoneLeftCheaper(floating: seq<Tx>, drop: seq<Tx>)
      requires floating == [] || NoneBefore(multiset(floating), drop)
      ensures forall p, t :: p in drop && t in floating ==> !PriceLess(None, t, p) && Cmp(None, p, t) <= 0
    {
      forall p, t | p in drop && t in floating
        ensures !PriceLess(None, t, p)
      {
        assert t in multiset(floating);
      }
    }

    static lemma SlotSumAppend(txs: seq<Tx>, tx: Tx)
      ensures SlotSum(txs + [tx]) == SlotSum(txs) + tx.slots
    {
      assert (txs + [tx])[..|txs|] == txs;
    }

    method PushBack(drop: seq<Tx>)
      requires Valid() && CoversWith(drop)
      modifies `urgent
      ensures Valid() && Covers()
    {
      PriceOrderIsStrictWeak(baseFee);
      for i := 0 to |drop|
        invariant Valid()
        invariant forall t :: HashOf(t) in all.remotes ==> t in urgent || t in floating || t in drop[i..]
      {
        var before := urgent;
        urgent := Heaps.Push(urgent, PriceOrder(baseFee), drop[i]);
        SameElements(urgent, before + [drop[i]]);
        forall t | HashOf(t) in all.remotes
          ensures t in urgent || t in floating || t in drop[i + 1..]
        {
          assert t in before || t in floating || t in drop[i..];
          assert drop[i..] == [drop[i]] + drop[i + 1..];
        }
      }
    }

    /** Rebuild both heaps: together they hold every remote transaction exactly once, the
        cheapest fifth of them in the floating heap. */
    method Reheap()
      requires all.Valid()
      modifies `stales, `urgent, `floating
      ensures Valid() && Covers() && baseFee == old(baseFee) && stales == 0
      ensures multiset(urgent) + multiset(floating) == multiset(all.remotes.Values)
      ensures |floating| == (|urgent| + |floating|) / (URGENT_RATIO + FLOATING_RATIO)
      ensures forall f, u :: f in floating && u in urgent ==> !PriceLess(baseFee, u, f)
    {
      stales := 0;
      urgent := CollectRemotes(all);
      PriceOrderIsStrictWeak(baseFee);
      urgent := Heaps.Init(urgent, PriceOrder(baseFee));
      ghost var remotes := urgent;
      var floatingCount := |urgent| * FLOATING_RATIO / (URGENT_RATIO + FLOATING_RATIO);
      SplitOff(floatingCount);
      PriceOrderIsStrictWeak(None);
      var split := floating;
      floating := Heaps.Init(floating, PriceOrder(None));
      SameElements(floating, split);
      SameElements(urgent + floating, remotes);
      forall tx | HashOf(tx) in all.remotes
        ensures tx in urgent || tx in floating
      {
        assert tx == all.remotes[HashOf(tx)];
        assert tx in multiset(all.remotes.Values);
        assert tx in urgent + floating;
      }
    }

    /** Move the `count` cheapest transactions of the urgent heap over. */
    method SplitOff(count: nat)
      requires Heaps.IsHeap(urgent, PriceOrder(baseFee)) && count <= |urgent|
      modifies `urgent, `floating
      ensures Heaps.IsHeap(urgent, PriceOrder(baseFee))
      ensures multiset(urgent) + multiset(floating) == multiset(old(urgent))
      ensures |floating| == count && |urgent| == |old(urgent)| - count
      ensures forall f, u :: f in floating && u in urgent ==> !PriceLess(baseFee, u, f)
    {
      PriceOrderIsStrictWeak(baseFee);
      floating := [];
      for i := 0 to count
        invariant Heaps.IsHeap(urgent, PriceOrder(baseFee))
        invariant |floating| == i && |urgent| == |old(urgent)| - i
        invariant multiset(urgent) + multiset(floating) == multiset(old(urgent))
        invariant forall f, u :: f in floating && u in urgent ==> !PriceLess(baseFee, u, f)
      {
        var before := urgent;
        var tx;
        urgent, tx := Heaps.Pop(urgent, PriceOrder(baseFee));
        SameElements(before, urgent + [tx]);
        assert forall u :: u in urgent ==> !PriceOrder(baseFee)(u, tx);
        floating := floating + [tx];
      }
    }

    static method CollectRemotes(all: TxLookup) returns (txs: seq<Tx>)
      requires all.Valid()
      ensures multiset(txs) == multiset(all.remotes.Values)
    {
      txs := [];
      var rest := all.remotes.Keys;
      ghost var seen := {};
      while rest != {}
        invariant rest <= all.remotes.Keys
        invariant multiset(txs) == multiset(seen)
        invariant forall t :: t in seen <==> HashOf(t) in all.remotes && HashOf(t) !in rest
        decreases |rest|
      {
        var hash :| hash in rest;
        var tx := all.remotes[hash];
        assert HashOf(tx) == hash;
        txs, rest := txs + [tx], rest - {hash};
        seen := seen + {tx};
      }
      forall t
        ensures t in seen <==> t in all.remotes.Values
      {
        if t in seen {
          assert all.remotes[HashOf(t)] == t;
        }
      }
      assert seen == all.remotes.Values;
    }

    /** A new base fee reorders the urgent heap. */
    method SetBaseFee(fee: int)
      requires all.Valid()
      modifies this
      ensures Valid() && Covers() && baseFee == Some(fee)
    {
      baseFee := Some(fee);
      Reheap();
    }
  }
}
