/** The per-account transaction list (core/tx_list.go): first as a value, which is how
    the pool reasons about it, then as the class that implements that value with the
    heap-indexed, cached and cap-shortcut map. */
module TxLists {
  import opened Transactions
  import opened TxSortedMaps

  /** `costcap` and `gascap` bound the cost and gas of every member. */
  datatype TxListState = TxListState(strict: bool, items: map<nat, Tx>, costcap: int, gascap: nat) {

    ghost predicate Valid() {
      Keyed(items) && forall n :: n in items ==> items[n].cost <= costcap && items[n].gas <= gascap
    }

    /** Whether `tx` may go in: its nonce is free, or it pays `priceBump` percent more. */
    predicate Accepts(tx: Tx, priceBump: nat) {
      tx.nonce in items ==> Outbids(tx, items[tx.nonce], priceBump)
    }

    function Added(tx: Tx): TxListState {
      TxListState(strict, items[tx.nonce := tx],
                  if costcap < tx.cost then tx.cost else costcap,
                  if gascap < tx.gas then tx.gas else gascap)
    }

    function Forwarded(threshold: nat): TxListState {
      this.(items := From(items, threshold))
    }

    /** What Filter leaves: nothing over a limit and, in strict mode, nothing above a
        nonce that went over. The caps decide whether there is anything to look at. */
    function Filtered(costLimit: int, gasLimit: nat): TxListState {
      if costcap <= costLimit && gascap <= gasLimit then this
      else TxListState(strict, Affordable(strict, items, costLimit, gasLimit), costLimit, gasLimit)
    }

    function CappedAt(threshold: nat): TxListState {
      this.(items := Capped(items, threshold))
    }

    function Removed(nonce: nat): TxListState {
      this.(items := if strict && nonce in items then Below(items, nonce) else items - {nonce})
    }

    function ReadyTaken(start: nat): TxListState {
      this.(items := From(items, ReadyEnd(items, start)))
    }
  }

  const EMPTY_STRICT := TxListState(true, map[], 0, 0)
  const EMPTY_LOOSE := TxListState(false, map[], 0, 0)

  predicate Outbids(tx: Tx, previous: Tx, priceBump: nat) {
    && previous.feeCap < tx.feeCap && previous.tipCap < tx.tipCap
    && tx.feeCap >= previous.feeCap * (100 + priceBump) / 100
    && tx.tipCap >= previous.tipCap * (100 + priceBump) / 100
  }

  /** Outbidding is going up with both caps, each by at least the bump in percent, rounded down;
      so a transaction never outbids itself, nor one that outbid it, directly or not. */
  lemma OutbidsByPercent(tx: Tx, previous: Tx, priceBump: nat)
    requires previous.feeCap >= 0 && previous.tipCap >= 0
    ensures Outbids(tx, previous, priceBump) <==>
              && tx.feeCap > previous.feeCap && 100 * (tx.feeCap - previous.feeCap + 1) > priceBump * previous.feeCap
              && tx.tipCap > previous.tipCap && 100 * (tx.tipCap - previous.tipCap + 1) > priceBump * previous.tipCap
    ensures !Outbids(tx, tx, priceBump)
  {
    PercentOf(tx.feeCap, previous.feeCap, priceBump);
    PercentOf(tx.tipCap, previous.tipCap, priceBump);
  }

  lemma PercentOf(cap: int, previous: nat, priceBump: nat)
    ensures cap >= previous * (100 + priceBump) / 100 <==> 100 * (cap - previous + 1) > priceBump * previous
  {
    assert previous * (100 + priceBump) == 100 * previous + priceBump * previous;
  }

  lemma OutbiddingGoesUp(a: Tx, b: Tx, c: Tx, priceBump: nat)
    requires Outbids(a, b, priceBump) && Outbids(b, c, priceBump) && c.feeCap >= 0 && c.tipCap >= 0
    ensures Outbids(a, c, priceBump) && !Outbids(c, a, priceBump)
  {
  }

  predicate Over(tx: Tx, costLimit: int, gasLimit: nat) {
    tx.gas > gasLimit || tx.cost > costLimit
  }

  function Affordable(strict: bool, items: map<nat, Tx>, costLimit: int, gasLimit: nat): map<nat, Tx> {
    map n | n in items && !Over(items[n], costLimit, gasLimit)
            && (strict ==> forall m :: m in items && m < n ==> !Over(items[m], costLimit, gasLimit)) :: items[n]
  }

  /** The nonce up to which Ready takes everything; 0 when it takes nothing. */
  function ReadyEnd(items: map<nat, Tx>, start: nat): nat {
    if exists n :: n in items && n <= start then RunEnd(items, MinKey(items)) else 0
  }

  function MinKey(items: map<nat, Tx>): (n: nat)
    requires items != map[]
    ensures IsLowest(items, n)
  {
    MinKeyExists(items.Keys);
    var n :| n in items && forall m :: m in items ==> n <= m;
    n
  }

  lemma MinKeyExists(keys: set<nat>)
    requires keys != {}
    ensures exists n :: n in keys && forall m :: m in keys ==> n <= m
  {
    var n := FindMinKey(keys);
  }

  lemma {:induction false} FindMinKey(keys: set<nat>) returns (n: nat)
    requires keys != {}
    ensures n in keys && forall m :: m in keys ==> n <= m
  {
    var k :| k in keys;
    n := k;
    var rest := keys - {k};
    assert forall m :: m in keys ==> m == k || m in rest;
    if rest != {} {
      var low := FindMinKey(rest);
      n := if low < k then low else k;
    }
  }

  /** No nonce is missing between two that are present. */
  ghost predicate GapFree(items: map<nat, Tx>) {
    forall lo, n, hi :: lo in items && hi in items && lo <= n <= hi ==> n in items
  }

  /** Whether or not the caps let Filter return early, exactly the transactions over a
      limit go, and with them in strict mode those above the lowest such nonce. */
  lemma FilterIsExact(l: TxListState, costLimit: int, gasLimit: nat)
    requires l.Valid()
    ensures l.Filtered(costLimit, gasLimit).Valid()
    ensures l.Filtered(costLimit, gasLimit).items == Affordable(l.strict, l.items, costLimit, gasLimit)
    ensures forall n :: n in l.items ==>
              (n in l.Filtered(costLimit, gasLimit).items <==>
                 if l.strict then forall m :: m in l.items && m <= n ==> !Over(l.items[m], costLimit, gasLimit)
                 else !Over(l.items[n], costLimit, gasLimit))
  {
  }

  /** A strict list without gaps is left without gaps by every operation that removes. */
  lemma StrictStaysGapFree(l: TxListState, n: nat, costLimit: int, gasLimit: nat)
    requires l.Valid() && l.strict && GapFree(l.items)
    ensures GapFree(From(l.items, n)) && l.Forwarded(n).items == From(l.items, n)
    ensures GapFree(l.Filtered(costLimit, gasLimit).items)
    ensures GapFree(l.Removed(n).items)
    ensures GapFree(l.CappedAt(n).items)
  {
    FilterStaysGapFree(l, costLimit, gasLimit);
    RemoveStaysGapFree(l, n);
    CapStaysGapFree(l.items, n);
  }

  lemma FilterStaysGapFree(l: TxListState, costLimit: int, gasLimit: nat)
    requires l.Valid() && l.strict && GapFree(l.items)
    ensures GapFree(l.Filtered(costLimit, gasLimit).items)
  {
  }

  lemma RemoveStaysGapFree(l: TxListState, n: nat)
    requires l.strict && GapFree(l.items)
    ensures GapFree(l.Removed(n).items)
  {
  }

  lemma CapStaysGapFree(items: map<nat, Tx>, n: nat)
    requires GapFree(items)
    ensures GapFree(Capped(items, n))
  {
  }

  /** Capping keeps a prefix of the nonces, of exactly the length asked for. */
  lemma {:induction false} CappedIsPrefix(items: map<nat, Tx>, threshold: nat)
    ensures var kept := Capped(items, threshold);
            && |kept| == (if |items| < threshold then |items| else threshold)
            && (forall n :: n in kept ==> n in items && kept[n] == items[n])
            && (forall n, m :: n in kept && m in items && m !in kept ==> n < m)
    decreases |items|
  {
    if |items| > threshold {
      var rest := items - {MaxKey(items)};
      OneKeyLess(items, MaxKey(items));
      CappedIsPrefix(rest, threshold);
      assert Capped(items, threshold) == Capped(rest, threshold);
      assert forall m :: m in items ==> m == MaxKey(items) || m in rest;
    }
  }

  class TxList {
    const strict: bool
    const txs: TxSortedMap
    var costcap: int
    var gascap: nat

    function State(): TxListState
      reads this, txs
    {
      TxListState(strict, txs.items, costcap, gascap)
    }

    ghost predicate Valid()
      reads this, txs
    {
      txs.Valid() && State().Valid()
    }

    constructor (strict: bool)
      ensures Valid() && fresh(txs)
      ensures State() == if strict then EMPTY_STRICT else EMPTY_LOOSE
    {
      this.strict := strict;
      txs := new TxSortedMap();
      costcap, gascap := 0, 0;
    }

    method Add(tx: Tx, priceBump: nat) returns (inserted: bool, previous: seq<Tx>)
      requires Valid()
      modifies this, txs
      ensures Valid()
      ensures inserted == old(State()).Accepts(tx, priceBump)
      ensures State() == if inserted then old(State()).Added(tx) else old(State())
      ensures previous == if inserted && tx.nonce in old(txs.items) then [old(txs.items)[tx.nonce]] else []
    {
      previous := [];
      if tx.nonce in txs.items {
        var other := txs.items[tx.nonce];
        if other.feeCap >= tx.feeCap || other.tipCap >= tx.tipCap {
          return false, [];
        }
        var thresholdFeeCap := other.feeCap * (100 + priceBump) / 100;
        var thresholdTip := other.tipCap * (100 + priceBump) / 100;
        if tx.feeCap < thresholdFeeCap || tx.tipCap < thresholdTip {
          return false, [];
        }
        previous := [other];
      }
      txs.Put(tx);
      if costcap < tx.cost {
        costcap := tx.cost;
      }
      if gascap < tx.gas {
        gascap := tx.gas;
      }
      return true, previous;
    }

    method Forward(threshold: nat) returns (removed: seq<Tx>)
      requires Valid()
      modifies this, txs
      ensures Valid() && State() == old(State()).Forwarded(threshold)
      ensures Flattens(removed, Below(old(txs.items), threshold))
    {
      removed := txs.Forward(threshold);
    }

    method Filter(costLimit: int, gasLimit: nat) returns (removed: seq<Tx>, invalids: seq<Tx>)
      requires Valid()
      modifies this, txs
      ensures Valid() && State() == old(State()).Filtered(costLimit, gasLimit)
      ensures forall t :: t in removed <==>
                t.nonce in old(txs.items) && old(txs.items)[t.nonce] == t && Over(t, costLimit, gasLimit)
      ensures forall t :: t in invalids <==>
                && t.nonce in old(txs.items) && old(txs.items)[t.nonce] == t
                && t.nonce !in txs.items && !Over(t, costLimit, gasLimit)
    {
      removed, invalids := [], [];
      if costcap <= costLimit && gascap <= gasLimit {
        return;
      }
      costcap, gascap := costLimit, gasLimit;
      removed, invalids := FilterItems(costLimit, gasLimit);
    }

    method FilterItems(costLimit: int, gasLimit: nat) returns (removed: seq<Tx>, invalids: seq<Tx>)
      requires txs.Valid()
      modifies txs
      ensures txs.Valid() && txs.items == Affordable(strict, old(txs.items), costLimit, gasLimit)
      ensures forall t :: t in removed <==>
                t.nonce in old(txs.items) && old(txs.items)[t.nonce] == t && Over(t, costLimit, gasLimit)
      ensures forall t :: t in invalids <==>
                && t.nonce in old(txs.items) && old(txs.items)[t.nonce] == t
                && t.nonce !in txs.items && !Over(t, costLimit, gasLimit)
    {
      invalids := [];
      removed := txs.Filter(tx => Over(tx, costLimit, gasLimit));
      if |removed| == 0 {
        assert forall t :: t !in removed;
        NothingOver(old(txs.items), strict, costLimit, gasLimit);
        return;
      }
      if strict {
        invalids := FilterAbove(removed, old(txs.items), costLimit, gasLimit);
      } else {
        LooseFilter(old(txs.items), txs.items, costLimit, gasLimit);
      }
      txs.Reheap();
    }

    /** Filter anything above the lowest removed nonce. */
    method FilterAbove(removed: seq<Tx>, ghost items: map<nat, Tx>, costLimit: int, gasLimit: nat) returns (invalids: seq<Tx>)
      requires Keyed(items) && Keyed(txs.items) && |removed| > 0
      requires txs.items == Without(items, tx => Over(tx, costLimit, gasLimit))
      requires forall t :: t in removed <==> t.nonce in items && items[t.nonce] == t && Over(t, costLimit, gasLimit)
      modifies txs
      ensures Keyed(txs.items) && txs.items == Affordable(true, items, costLimit, gasLimit)
      ensures forall t :: t in invalids <==>
                && t.nonce in items && items[t.nonce] == t
                && t.nonce !in txs.items && !Over(t, costLimit, gasLimit)
    {
      var lowest := LowestNonce(removed);
      ghost var kept := txs.items;
      invalids := txs.FilterOnly((tx: Tx) => tx.nonce > lowest);
      StrictFilter(items, kept, txs.items, lowest, costLimit, gasLimit);
    }

    static lemma LooseFilter(items: map<nat, Tx>, kept: map<nat, Tx>, costLimit: int, gasLimit: nat)
      requires kept == Without(items, tx => Over(tx, costLimit, gasLimit))
      ensures kept == Affordable(false, items, costLimit, gasLimit)
    {
    }

    static method LowestNonce(removed: seq<Tx>) returns (lowest: nat)
      requires |removed| > 0
      ensures forall t :: t in removed ==> lowest <= t.nonce
      ensures exists t :: t in removed && t.nonce == lowest
    {
      lowest := MAX_UINT64;
      for i := 0 to |removed|
        invariant forall k :: 0 <= k < i ==> lowest <= removed[k].nonce
        invariant lowest == MAX_UINT64 || exists t :: t in removed && t.nonce == lowest
      {
        if lowest > removed[i].nonce {
          lowest := removed[i].nonce;
        }
      }
      assert removed[0] in removed;
    }

    static lemma NothingOver(items: map<nat, Tx>, strict: bool, costLimit: int, gasLimit: nat)
      requires forall n :: n in items ==> !Over(items[n], costLimit, gasLimit)
      ensures Affordable(strict, items, costLimit, gasLimit) == items
    {
    }

    static lemma StrictFilter(items: map<nat, Tx>, kept: map<nat, Tx>, left: map<nat, Tx>, lowest: nat,
                              costLimit: int, gasLimit: nat)
      requires kept == Without(items, tx => Over(tx, costLimit, gasLimit))
      requires Keyed(items) && left == Without(kept, (tx: Tx) => tx.nonce > lowest)
      requires lowest in items && Over(items[lowest], costLimit, gasLimit)
      requires forall n :: n in items && Over(items[n], costLimit, gasLimit) ==> lowest <= n
      ensures left == Affordable(true, items, costLimit, gasLimit)
    {
      assert forall n :: n in left ==> n in kept && n < lowest;
    }

    static lemma BelowIsWithout(items: map<nat, Tx>, nonce: nat)
      requires Keyed(items)
      ensures Without(items - {nonce}, (tx: Tx) => tx.nonce > nonce) == Below(items, nonce)
    {
    }

    /** Remove a transaction, and in strict mode everything above it. */
    method Remove(tx: Tx) returns (removed: bool, invalids: seq<Tx>)
      requires Valid()
      modifies this, txs
      ensures Valid() && State() == old(State()).Removed(tx.nonce)
      ensures removed == (tx.nonce in old(txs.items))
      ensures forall t :: t in invalids <==>
                && t.nonce in old(txs.items) && old(txs.items)[t.nonce] == t
                && strict && removed && t.nonce > tx.nonce
    {
      var nonce := tx.nonce;
      invalids := [];
      removed := txs.Remove(nonce);
      if removed && strict {
        invalids := txs.Filter((tx: Tx) => tx.nonce > nonce);
        BelowIsWithout(old(txs.items), nonce);
      }
    }

    method Cap(threshold: nat) returns (drops: seq<Tx>)
      requires Valid()
      modifies this, txs
      ensures Valid() && State() == old(State()).CappedAt(threshold)
      ensures |drops| + |txs.items| == |old(txs.items)|
      ensures TxSortedMap.DropsFrom(drops, old(txs.items), txs.items)
    {
      CappedIsPrefix(txs.items, threshold);
      drops := txs.Cap(threshold);
    }

    method Ready(start: nat) returns (ready: seq<Tx>)
      requires Valid()
      modifies this, txs
      ensures Valid() && State() == old(State()).ReadyTaken(start)
      ensures ReadyEnd(old(txs.items), start) > 0 ==>
                TxSortedMap.IsRun(ready, old(txs.items), MinKey(old(txs.items)), ReadyEnd(old(txs.items), start))
      ensures ReadyEnd(old(txs.items), start) == 0 ==> ready == []
    {
      ghost var items := txs.items;
      ready := txs.Ready(start);
      if exists n :: n in items && n <= start {
        assert IsLowest(items, MinKey(items));
      } else {
        assert From(items, 0) == items;
      }
    }

    method Flatten() returns (flat: seq<Tx>)
      requires Valid()
      modifies txs`cache
      ensures Valid() && State() == old(State()) && Flattens(flat, txs.items)
    {
      flat := txs.Flatten();
    }
  }
}
