/** What the four structures of the transaction pool have to agree on, as a relation
    between values, and the moves of one account's transactions that keep it. */
module TxPoolModel {
  import opened Transactions
  import opened TxSortedMaps
  import opened TxLists
  import opened TxNoncers
  import Sums

  /** The chain state at a head: nonces and balances of the accounts, and its gas limit. */
  datatype ChainState = ChainState(nonces: map<Address, nat>, balances: map<Address, int>, gasLimit: nat) {
    function Nonce(a: Address): nat {
      StateNonce(nonces, a)
    }

    function Balance(a: Address): int {
      if a in balances then balances[a] else 0
    }
  }

  /** The lists of all accounts; an account without transactions has none. */
  type Lists = map<Address, TxListState>

  function ItemsAt(lists: Lists, a: Address): map<nat, Tx> {
    if a in lists then lists[a].items else map[]
  }

  ghost predicate Holds(items: map<nat, Tx>, tx: Tx) {
    tx.nonce in items && items[tx.nonce] == tx
  }

  ghost predicate OwnedBy(items: map<nat, Tx>, a: Address) {
    forall n :: n in items ==> items[n].sender == a
  }

  /** Each list holds valid entries of its own account. */
  ghost predicate WellFormed(lists: Lists, strict: bool) {
    forall a :: a in lists ==> lists[a].strict == strict && lists[a].Valid() && OwnedBy(lists[a].items, a)
  }

  /** No account is left with an empty list. */
  ghost predicate Tidy(lists: Lists) {
    forall a :: a in lists ==> lists[a].items != map[]
  }

  /** Transactions of account `a` on their way between two lists. */
  ghost predicate InTransit(limbo: map<nat, Tx>, a: Address, p: Lists, q: Lists) {
    && Keyed(limbo) && OwnedBy(limbo, a)
    && limbo.Keys !! ItemsAt(p, a).Keys && limbo.Keys !! ItemsAt(q, a).Keys
  }

  ghost predicate Known(locals: map<TxHash, Tx>, remotes: map<TxHash, Tx>, tx: Tx) {
    HashOf(tx) in locals || HashOf(tx) in remotes
  }

  ghost predicate Somewhere(p: Lists, q: Lists, a: Address, limbo: map<nat, Tx>, tx: Tx) {
    || Holds(ItemsAt(p, tx.sender), tx)
    || Holds(ItemsAt(q, tx.sender), tx)
    || (tx.sender == a && Holds(limbo, tx))
  }

  /** The known transactions are exactly the disjoint union of pending, queue and limbo:
      no account has the same nonce in two of them. */
  ghost predicate Consistent(p: Lists, q: Lists, locals: map<TxHash, Tx>, remotes: map<TxHash, Tx>,
                             a: Address, limbo: map<nat, Tx>) {
    && WellFormed(p, true) && WellFormed(q, false)
    && (forall b :: ItemsAt(p, b).Keys !! ItemsAt(q, b).Keys)
    && InTransit(limbo, a, p, q)
    && forall tx :: Known(locals, remotes, tx) <==> Somewhere(p, q, a, limbo, tx)
  }

  /** A transaction of the account is added to its list. */
  lemma WellFormedWith(lists: Lists, strict: bool, a: Address, l: TxListState, tx: Tx)
    requires WellFormed(lists, strict) && l == if a in lists then lists[a] else (if strict then EMPTY_STRICT else EMPTY_LOOSE)
    requires tx.sender == a
    ensures WellFormed(lists[a := l.Added(tx)], strict)
    ensures l.items == ItemsAt(lists, a)
    ensures forall b :: ItemsAt(lists[a := l.Added(tx)], b) == if b == a then l.items[tx.nonce as nat := tx] else ItemsAt(lists, b)
  {
  }

  /** No remote transaction is of a local account. */
  ghost predicate Foreign(remotes: map<TxHash, Tx>, locals: set<Address>) {
    forall h :: h in remotes ==> h.tx.sender !in locals
  }

  /** If accepted, a new transaction has been filed as local or as remote. No other became remote,
      and none became local but of an account whose new transaction is. */
  ghost predicate FiledAs(tx: Tx, local: bool, accepted: bool, locals: map<TxHash, Tx>, remotes: map<TxHash, Tx>,
                          locals': map<TxHash, Tx>, remotes': map<TxHash, Tx>) {
    && (accepted ==> (HashOf(tx) in locals' <==> local) && (HashOf(tx) in remotes' <==> !local))
    && (forall h :: h in remotes' ==> h in remotes || (accepted && h == HashOf(tx)))
    && forall h :: h in locals' ==> h in locals || (accepted && local && h.tx.sender == tx.sender)
  }

  lemma WhereFiled(tx: Tx, local: bool, accepted: bool, locals: map<TxHash, Tx>, remotes: map<TxHash, Tx>,
                   locals': map<TxHash, Tx>, remotes': map<TxHash, Tx>)
    requires FiledAs(tx, local, accepted, locals, remotes, locals', remotes')
    ensures accepted ==> (HashOf(tx) in locals' <==> local) && (HashOf(tx) in remotes' <==> !local)
  {
  }

  lemma NothingFiled(tx: Tx, local: bool, locals: map<TxHash, Tx>, remotes: map<TxHash, Tx>)
    ensures FiledAs(tx, local, false, locals, remotes, locals, remotes)
  {
  }

  /** The rest of the account may become local with it. */
  lemma StillFiled(tx: Tx, locals: map<TxHash, Tx>, remotes: map<TxHash, Tx>, locals1: map<TxHash, Tx>, remotes1: map<TxHash, Tx>,
                   locals2: map<TxHash, Tx>, remotes2: map<TxHash, Tx>)
    requires FiledAs(tx, true, true, locals, remotes, locals1, remotes1)
    requires locals1.Keys <= locals2.Keys && forall h :: h in remotes2 ==> h in remotes1
    requires forall h :: h in locals2 ==> h in locals1 || h.tx.sender == tx.sender
    ensures FiledAs(tx, true, true, locals, remotes, locals2, remotes2)
  {
  }

  /** A transaction on its way is put into the queue. */
  lemma IntoQueue(p: Lists, q: Lists, locals: map<TxHash, Tx>, remotes: map<TxHash, Tx>,
                  a: Address, limbo: map<nat, Tx>, l: TxListState, n: nat)
    requires Consistent(p, q, locals, remotes, a, limbo) && n in limbo
    requires l == if a in q then q[a] else EMPTY_LOOSE
    ensures n !in l.items
    ensures Consistent(p, q[a := l.Added(limbo[n])], locals, remotes, a, limbo - {n})
  {
    hide WellFormed, ItemsAt, TxListState.Added, Known;
    WellFormedWith(q, false, a, l, limbo[n]);
    var q' := q[a := l.Added(limbo[n])];
    forall tx
      ensures Somewhere(p, q', a, limbo - {n}, tx) <==> Somewhere(p, q, a, limbo, tx)
    {
    }
  }

  lemma IntoPending(p: Lists, q: Lists, locals: map<TxHash, Tx>, remotes: map<TxHash, Tx>,
                    a: Address, limbo: map<nat, Tx>, l: TxListState, n: nat)
    requires Consistent(p, q, locals, remotes, a, limbo) && n in limbo
    requires l == if a in p then p[a] else EMPTY_STRICT
    ensures n !in l.items
    ensures Consistent(p[a := l.Added(limbo[n])], q, locals, remotes, a, limbo - {n})
  {
    hide WellFormed, ItemsAt, TxListState.Added, Known;
    WellFormedWith(p, true, a, l, limbo[n]);
    var p' := p[a := l.Added(limbo[n])];
    forall tx
      ensures Somewhere(p', q, a, limbo - {n}, tx) <==> Somewhere(p, q, a, limbo, tx)
    {
    }
  }

  /** What `items` has and `kept` has not. */
  function Difference(items: map<nat, Tx>, kept: map<nat, Tx>): map<nat, Tx> {
    items - kept.Keys
  }

  /** `kept` is a part of `items`. */
  ghost predicate PartOf(kept: map<nat, Tx>, items: map<nat, Tx>) {
    forall n :: n in kept ==> n in items && kept[n] == items[n]
  }

  /** Transactions leave a pending list and are on their way. */
  lemma OutOfPending(p: Lists, q: Lists, locals: map<TxHash, Tx>, remotes: map<TxHash, Tx>,
                     a: Address, l: TxListState)
    requires Consistent(p, q, locals, remotes, a, map[]) && a in p
    requires l.strict && l.Valid() && PartOf(l.items, p[a].items)
    ensures Consistent(p[a := l], q, locals, remotes, a, Difference(p[a].items, l.items))
  {
  }

  lemma OutOfQueue(p: Lists, q: Lists, locals: map<TxHash, Tx>, remotes: map<TxHash, Tx>,
                   a: Address, l: TxListState)
    requires Consistent(p, q, locals, remotes, a, map[]) && a in q
    requires !l.strict && l.Valid() && PartOf(l.items, q[a].items)
    ensures Consistent(p, q[a := l], locals, remotes, a, Difference(q[a].items, l.items))
  {
  }

  /** A transaction on its way is forgotten. */
  lemma Forgotten(p: Lists, q: Lists, locals: map<TxHash, Tx>, remotes: map<TxHash, Tx>,
                  a: Address, limbo: map<nat, Tx>, n: nat)
    requires Consistent(p, q, locals, remotes, a, limbo) && n in limbo
    ensures Consistent(p, q, locals - {HashOf(limbo[n])}, remotes - {HashOf(limbo[n])}, a, limbo - {n})
  {
    var h := HashOf(limbo[n]);
    forall tx
      ensures Known(locals - {h}, remotes - {h}, tx) <==> Somewhere(p, q, a, limbo - {n}, tx)
    {
      assert Known(locals, remotes, tx) <==> Somewhere(p, q, a, limbo, tx);
    }
  }

  /** With nothing on its way, it does not matter whose it would be. */
  lemma NobodyInTransit(p: Lists, q: Lists, locals: map<TxHash, Tx>, remotes: map<TxHash, Tx>, a: Address, b: Address)
    requires Consistent(p, q, locals, remotes, a, map[])
    ensures Consistent(p, q, locals, remotes, b, map[])
  {
  }

  /** An empty list can be deleted. */
  lemma EmptyListDropped(p: Lists, q: Lists, locals: map<TxHash, Tx>, remotes: map<TxHash, Tx>,
                         a: Address, limbo: map<nat, Tx>, b: Address)
    requires Consistent(p, q, locals, remotes, a, limbo)
    ensures ItemsAt(p, b) == map[] ==> Consistent(p - {b}, q, locals, remotes, a, limbo)
    ensures ItemsAt(q, b) == map[] ==> Consistent(p, q - {b}, locals, remotes, a, limbo)
  {
  }

  /** What the pool has of one account: pending and queued items and the virtual nonce. */
  datatype Account = Account(pending: map<nat, Tx>, queued: map<nat, Tx>, virtual: nat)

  /** The account after one of its pooled transactions, at nonce `n`, has been removed. */
  function AfterRemoval(acc: Account, n: nat): Account {
    if n in acc.pending then
      Account(Below(acc.pending, n), acc.queued + From(acc.pending, n + 1), if acc.virtual <= n then acc.virtual else n)
    else
      acc.(queued := acc.queued - {n})
  }

  /** Whether a new transaction gets in: nothing is at its nonce, or it outbids what is. */
  predicate GetsIn(acc: Account, tx: Tx, priceBump: nat) {
    if tx.nonce in acc.pending then Outbids(tx, acc.pending[tx.nonce], priceBump)
    else tx.nonce !in acc.queued || Outbids(tx, acc.queued[tx.nonce], priceBump)
  }

  /** The account after a new transaction was offered: over a pending one, or else queued. */
  function AfterOffer(acc: Account, tx: Tx, priceBump: nat): Account {
    if !GetsIn(acc, tx, priceBump) then acc
    else if tx.nonce in acc.pending then acc.(pending := acc.pending[tx.nonce as nat := tx])
    else acc.(queued := acc.queued[tx.nonce as nat := tx])
  }

  predicate NonceIsFree(acc: Account, nonce: nat) {
    nonce !in acc.pending && nonce !in acc.queued
  }

  /** A transaction the pool has already is not let in over itself. */
  lemma NotOverItself(p: Lists, q: Lists, locals: map<TxHash, Tx>, remotes: map<TxHash, Tx>, tx: Tx, priceBump: nat)
    requires Consistent(p, q, locals, remotes, 0, map[]) && Known(locals, remotes, tx)
    ensures forall v :: !GetsIn(Account(ItemsAt(p, tx.sender), ItemsAt(q, tx.sender), v), tx, priceBump)
  {
    NobodyInTransit(p, q, locals, remotes, 0, tx.sender);
    assert Somewhere(p, q, tx.sender, map[], tx);
  }

  /** `items` has exactly the nonces from `lo` up to but excluding `hi`. */
  ghost predicate IsInterval(items: map<nat, Tx>, lo: nat, hi: nat) {
    lo <= hi && forall n :: n in items <==> lo <= n < hi
  }

  /** The pending nonces of an account run from its state nonce up to its virtual nonce. */
  ghost predicate ExecutableAt(acc: Account, nonce: nat) {
    IsInterval(acc.pending, nonce, acc.virtual)
  }

  /** From `lo` up to the highest nonce none is missing; below `lo` anything goes. */
  ghost predicate NoGapFrom(items: map<nat, Tx>, lo: nat) {
    forall n, m :: n in items && lo <= m <= n ==> m in items
  }

  /** The pending nonces are cut from `c` on, and the virtual nonce comes down with them. */
  ghost predicate CutFrom(acc: Account, acc': Account, c: nat) {
    (forall n: nat :: n in acc'.pending <==> n in acc.pending && n < c)
    && acc'.virtual == if acc.virtual <= c then acc.virtual else c
  }

  /** What additions and evictions leave of an account's pending nonces: all of them, or those
      below some pending one. */
  ghost predicate Shrunk(acc: Account, acc': Account) {
    || (acc'.pending.Keys == acc.pending.Keys && acc'.virtual == acc.virtual)
    || exists c :: c in acc.pending && CutFrom(acc, acc', c)
  }

  lemma NotShrunk(acc: Account)
    ensures Shrunk(acc, acc)
  {
  }

  lemma RemovalShrinks(acc: Account, n: nat)
    ensures Shrunk(acc, AfterRemoval(acc, n))
  {
    if n in acc.pending {
      assert CutFrom(acc, AfterRemoval(acc, n), n);
    }
  }

  lemma OfferShrinks(acc: Account, tx: Tx, priceBump: nat)
    ensures Shrunk(acc, AfterOffer(acc, tx, priceBump))
  {
    assert acc.pending[tx.nonce as nat := tx].Keys == acc.pending.Keys + {tx.nonce as nat};
  }

  lemma ShrunkFurther(acc: Account, acc': Account, acc'': Account)
    requires Shrunk(acc, acc') && Shrunk(acc', acc'')
    ensures Shrunk(acc, acc'')
  {
    if c :| c in acc'.pending && CutFrom(acc', acc'', c) {
      assert c in acc.pending && CutFrom(acc, acc'', c);
    }
  }

  /** An interval of pending nonces is cut together with its end. */
  lemma ShrunkKeepsInterval(acc: Account, acc': Account, lo: nat)
    requires Shrunk(acc, acc')
    ensures ExecutableAt(acc, lo) ==> ExecutableAt(acc', lo)
    ensures NoGapFrom(acc.pending, lo) ==> NoGapFrom(acc'.pending, lo)
    ensures acc'.virtual <= acc.virtual && acc'.pending.Keys <= acc.pending.Keys
  {
  }

  /** A new transaction takes the place of the pending one with its nonce. */
  lemma ReplacedInPending(p: Lists, q: Lists, locals: map<TxHash, Tx>, remotes: map<TxHash, Tx>,
                          locals': map<TxHash, Tx>, remotes': map<TxHash, Tx>, a: Address, tx: Tx)
    requires Consistent(p, q, locals, remotes, a, map[])
    requires !Known(locals, remotes, tx) && tx.nonce in ItemsAt(p, tx.sender)
    requires forall t :: Known(locals', remotes', t) <==>
               t == tx || (Known(locals, remotes, t) && t != p[tx.sender].items[tx.nonce])
    ensures Consistent(p[tx.sender := p[tx.sender].Added(tx)], q, locals', remotes', a, map[])
  {
  }

  /** A new transaction goes to the queue, where it may replace one with its nonce. */
  lemma AddedToQueue(p: Lists, q: Lists, locals: map<TxHash, Tx>, remotes: map<TxHash, Tx>,
                     locals': map<TxHash, Tx>, remotes': map<TxHash, Tx>, a: Address, tx: Tx, l: TxListState)
    requires Consistent(p, q, locals, remotes, a, map[])
    requires !Known(locals, remotes, tx) && tx.nonce !in ItemsAt(p, tx.sender)
    requires l == if tx.sender in q then q[tx.sender] else EMPTY_LOOSE
    requires forall t :: Known(locals', remotes', t) <==>
               t == tx || (Known(locals, remotes, t) && !(tx.nonce in l.items && t == l.items[tx.nonce]))
    ensures Consistent(p, q[tx.sender := l.Added(tx)], locals', remotes', a, map[])
  {
    var q' := q[tx.sender := l.Added(tx)];
    forall t
      ensures Known(locals', remotes', t) <==> Somewhere(p, q', a, map[], t)
    {
      assert Known(locals, remotes, t) <==> Somewhere(p, q, a, map[], t);
    }
  }

  /** Only whether a transaction is known matters, not whether it is local. */
  lemma KnownAlike(p: Lists, q: Lists, locals: map<TxHash, Tx>, remotes: map<TxHash, Tx>,
                   locals': map<TxHash, Tx>, remotes': map<TxHash, Tx>, a: Address, limbo: map<nat, Tx>)
    requires Consistent(p, q, locals, remotes, a, limbo)
    requires forall t :: Known(locals', remotes', t) <==> Known(locals, remotes, t)
    ensures Consistent(p, q, locals', remotes', a, limbo)
  {
  }

  /** Nothing becomes known but possibly `tx`. */
  ghost predicate GainsOnly(locals: map<TxHash, Tx>, remotes: map<TxHash, Tx>,
                            locals': map<TxHash, Tx>, remotes': map<TxHash, Tx>, tx: Tx, accepted: bool) {
    && (accepted ==> Known(locals', remotes', tx))
    && forall t :: Known(locals', remotes', t) ==> (accepted && t == tx) || Known(locals, remotes, t)
  }

  /** Nothing is forgotten but possibly a transaction that `tx` outbids at its nonce. */
  ghost predicate LosesOnly(locals: map<TxHash, Tx>, remotes: map<TxHash, Tx>,
                            locals': map<TxHash, Tx>, remotes': map<TxHash, Tx>,
                            tx: Tx, replaced: bool, priceBump: nat) {
    forall t :: Known(locals, remotes, t) ==>
      || Known(locals', remotes', t)
      || (replaced && t.sender == tx.sender && t.nonce == tx.nonce && Outbids(tx, t, priceBump))
  }

  /** No local transaction is forgotten but possibly one that `tx` outbids at its nonce. */
  ghost predicate SparesLocals(locals: map<TxHash, Tx>, locals': map<TxHash, Tx>, tx: Tx, replaced: bool, priceBump: nat) {
    forall h :: h in locals ==>
      h in locals' || (replaced && h.tx.sender == tx.sender && h.tx.nonce == tx.nonce && Outbids(tx, h.tx, priceBump))
  }

  lemma NothingGainedOrLost(locals: map<TxHash, Tx>, remotes: map<TxHash, Tx>, tx: Tx, priceBump: nat)
    ensures GainsOnly(locals, remotes, locals, remotes, tx, false)
    ensures LosesOnly(locals, remotes, locals, remotes, tx, false, priceBump)
    ensures SparesLocals(locals, locals, tx, false, priceBump)
  {
  }

  /** One transaction came in, perhaps over another that it outbids at its nonce. */
  lemma OnlySwapped(locals: map<TxHash, Tx>, remotes: map<TxHash, Tx>, locals': map<TxHash, Tx>, remotes': map<TxHash, Tx>,
                    tx: Tx, replaced: bool, other: Tx, priceBump: nat)
    requires forall t :: Known(locals', remotes', t) <==> t == tx || (Known(locals, remotes, t) && !(replaced && t == other))
    requires replaced ==> other.sender == tx.sender && other.nonce == tx.nonce && Outbids(tx, other, priceBump)
    requires locals.Keys - (if replaced then {HashOf(other)} else {}) <= locals'.Keys
    ensures GainsOnly(locals, remotes, locals', remotes', tx, true)
    ensures LosesOnly(locals, remotes, locals', remotes', tx, replaced, priceBump)
    ensures SparesLocals(locals, locals', tx, replaced, priceBump)
  {
    hide Outbids;
  }

  /** It does not matter then which of the transactions become local. */
  lemma StillSwapped(locals: map<TxHash, Tx>, remotes: map<TxHash, Tx>, locals1: map<TxHash, Tx>, remotes1: map<TxHash, Tx>,
                     locals2: map<TxHash, Tx>, remotes2: map<TxHash, Tx>, tx: Tx, replaced: bool, priceBump: nat)
    requires forall t :: Known(locals2, remotes2, t) <==> Known(locals1, remotes1, t)
    requires locals1.Keys <= locals2.Keys
    requires GainsOnly(locals, remotes, locals1, remotes1, tx, true)
    requires LosesOnly(locals, remotes, locals1, remotes1, tx, replaced, priceBump)
    requires SparesLocals(locals, locals1, tx, replaced, priceBump)
    ensures GainsOnly(locals, remotes, locals2, remotes2, tx, true)
    ensures LosesOnly(locals, remotes, locals2, remotes2, tx, replaced, priceBump)
    ensures SparesLocals(locals, locals2, tx, replaced, priceBump)
  {
    hide Outbids, Known;
  }

  lemma GainsCompose(locals0: map<TxHash, Tx>, remotes0: map<TxHash, Tx>, locals1: map<TxHash, Tx>, remotes1: map<TxHash, Tx>,
                     locals2: map<TxHash, Tx>, remotes2: map<TxHash, Tx>, tx: Tx, accepted: bool)
    requires GainsOnly(locals0, remotes0, locals1, remotes1, tx, false)
    requires GainsOnly(locals1, remotes1, locals2, remotes2, tx, accepted)
    ensures GainsOnly(locals0, remotes0, locals2, remotes2, tx, accepted)
  {
  }

  /** The queued items of an account that are neither too old nor too costly. */
  function Payable(q: map<nat, Tx>, nonce: nat, balance: int, maxGas: nat): map<nat, Tx> {
    Affordable(false, From(q, nonce), balance, maxGas)
  }

  /** The account without the queued transactions that are too old or too costly. */
  function AfterCleaning(acc: Account, nonce: nat, balance: int, maxGas: nat): Account {
    acc.(queued := Payable(acc.queued, nonce, balance, maxGas))
  }

  lemma CleaningKeepsPending(acc: Account, nonce: nat, balance: int, maxGas: nat)
    ensures AfterCleaning(acc, nonce, balance, maxGas).pending == acc.pending
  {
  }

  /** The account after the gap-free run of its queue at or below its virtual nonce has
      moved over. */
  function AfterPromotion(acc: Account): Account {
    var end := ReadyEnd(acc.queued, acc.virtual);
    Account(acc.pending + Below(acc.queued, end), From(acc.queued, end), if end > 0 then end else acc.virtual)
  }

  function AfterCapping(acc: Account, local: bool, limit: nat): Account {
    if local then acc else acc.(queued := Capped(acc.queued, limit))
  }

  /** What a round of promotion makes of account `a`: what is neither too old nor too costly
      in its queue is promoted as far as it is executable, and what remains is capped unless
      the account is local. */
  function AfterRound(acc: Account, state: ChainState, a: Address, local: bool, limit: nat): Account {
    AfterCapping(AfterPromotion(AfterCleaning(acc, state.Nonce(a), state.Balance(a), state.gasLimit)), local, limit)
  }

  lemma NoQueueNoRound(acc: Account, state: ChainState, a: Address, local: bool, limit: nat)
    requires acc.queued == map[]
    ensures AfterRound(acc, state, a, local, limit) == acc
  {
  }

  /** Promoting the executable run of the queue moves the end of the pending interval, and
      the virtual nonce with it. */
  lemma PromotionExtends(acc: Account, state: ChainState, a: Address, local: bool, limit: nat)
    requires acc.pending.Keys !! acc.queued.Keys
    ensures var acc' := AfterRound(acc, state, a, local, limit);
            var nonce := state.Nonce(a);
            && (ExecutableAt(acc, nonce) ==> ExecutableAt(acc', nonce))
            && (NoGapFrom(acc.pending, nonce) && acc.virtual <= nonce ==> NoGapFrom(acc'.pending, nonce))
  {
    var payable := Payable(acc.queued, state.Nonce(a), state.Balance(a), state.gasLimit);
    RunExtends(acc.pending, payable, state.Nonce(a), acc.virtual);
  }

  lemma RunExtends(p: map<nat, Tx>, payable: map<nat, Tx>, nonce: nat, virtual: nat)
    requires payable.Keys !! p.Keys && forall n :: n in payable ==> nonce <= n
    ensures var end := ReadyEnd(payable, virtual);
            && (IsInterval(p, nonce, virtual) ==> IsInterval(p + Below(payable, end), nonce, if end > 0 then end else virtual))
            && (NoGapFrom(p, nonce) && virtual <= nonce ==> NoGapFrom(p + Below(payable, end), nonce))
  {
  }

  /** The transaction at a nonce may stay: it is not too old, and it can be paid for. */
  predicate MayStay(items: map<nat, Tx>, n: nat, nonce: nat, balance: int, maxGas: nat) {
    n in items && nonce <= n && items[n].gas <= maxGas && items[n].cost <= balance
  }

  /** What a round of promotion promises of an account. Nothing pending changes. A run of queued
      transactions that may stay moves over, from the lowest of them, if that is not above the
      virtual nonce, up to the new virtual nonce, which is not queued afterwards. Of the queue
      exactly what is too old or cannot be paid for is forgotten and, beyond the limit of a
      remote account, the highest nonces. */
  ghost predicate Promotes(acc: Account, acc': Account, nonce: nat, balance: int, maxGas: nat, local: bool, limit: nat) {
    && PartOf(acc.pending, acc'.pending)
    && (forall n :: n in acc'.pending && n !in acc.pending ==>
          MayStay(acc.queued, n, nonce, balance, maxGas) && acc'.pending[n] == acc.queued[n])
    && (forall n :: n in acc'.queued ==>
          MayStay(acc.queued, n, nonce, balance, maxGas) && acc'.queued[n] == acc.queued[n] && n !in acc'.pending)
    && MovesRun(acc, acc', nonce, balance, maxGas)
    && acc'.virtual !in acc'.queued
    && (!local ==> |acc'.queued| <= limit)
    && (forall n: nat :: MayStay(acc.queued, n, nonce, balance, maxGas) && n !in acc'.pending && n !in acc'.queued ==>
          CappedOff(acc', n, local, limit))
  }

  /** The nonces that became pending are a run that ends at the new virtual nonce; there are none
      if all that may stay is above the old one. */
  ghost predicate MovesRun(acc: Account, acc': Account, nonce: nat, balance: int, maxGas: nat) {
    if exists n: nat :: n <= acc.virtual && MayStay(acc.queued, n, nonce, balance, maxGas) then
      exists lo: nat :: lo <= acc.virtual && lo < acc'.virtual && !MayStay(acc.queued, acc'.virtual, nonce, balance, maxGas)
                   && StartsRun(acc, lo, nonce, balance, maxGas)
                   && forall n: nat :: n in acc'.pending && n !in acc.pending <==> lo <= n < acc'.virtual
    else
      acc'.pending == acc.pending && acc'.virtual == acc.virtual
  }

  ghost predicate StartsRun(acc: Account, lo: nat, nonce: nat, balance: int, maxGas: nat) {
    && MayStay(acc.queued, lo, nonce, balance, maxGas)
    && forall n: nat :: MayStay(acc.queued, n, nonce, balance, maxGas) ==> lo <= n
  }

  /** The queue of a remote account is full with lower nonces. */
  ghost predicate CappedOff(acc: Account, n: nat, local: bool, limit: nat) {
    !local && |acc.queued| == limit && forall m :: m in acc.queued ==> m < n
  }

  /** A round of promotion keeps that promise. */
  lemma RoundPromotes(acc: Account, state: ChainState, a: Address, local: bool, limit: nat)
    requires acc.pending.Keys !! acc.queued.Keys
    ensures Promotes(acc, AfterRound(acc, state, a, local, limit), state.Nonce(a), state.Balance(a), state.gasLimit, local, limit)
  {
    hide *;
    var nonce, balance, maxGas := state.Nonce(a), state.Balance(a), state.gasLimit;
    var payable := Payable(acc.queued, nonce, balance, maxGas);
    var moved := AfterPromotion(acc.(queued := payable));
    PayableMayStay(acc, nonce, balance, maxGas);
    PromotionMoves(acc, payable, nonce, balance, maxGas);
    CappingDrops(moved, local, limit);
    CappingKeepsPending(moved, local, limit);
    PromotesAfterCap(acc, payable, moved, AfterCapping(moved, local, limit), nonce, balance, maxGas, local, limit);
    RoundIs(acc, state, a, local, limit);
  }

  lemma RoundIs(acc: Account, state: ChainState, a: Address, local: bool, limit: nat)
    ensures AfterRound(acc, state, a, local, limit) ==
            AfterCapping(AfterPromotion(acc.(queued := Payable(acc.queued, state.Nonce(a), state.Balance(a), state.gasLimit))),
                         local, limit)
  {
  }

  /** The payable run has moved over, and the rest of what is payable is still queued. */
  ghost predicate RunMoved(acc: Account, payable: map<nat, Tx>, moved: Account, nonce: nat, balance: int, maxGas: nat) {
    && PartOf(acc.pending, moved.pending) && MovesRun(acc, moved, nonce, balance, maxGas) && moved.virtual !in moved.queued
    && (forall n :: n in moved.pending && n !in acc.pending ==> n in payable && moved.pending[n] == payable[n])
    && (forall n :: n in moved.queued <==> n in payable && n !in moved.pending)
    && (forall n :: n in moved.queued ==> moved.queued[n] == payable[n])
  }

  ghost predicate Kept(moved: Account, kept: Account, local: bool, limit: nat) {
    && PartOf(kept.queued, moved.queued) && (!local ==> |kept.queued| <= limit)
    && forall n :: n in moved.queued && n !in kept.queued ==> CappedOff(kept, n, local, limit)
  }

  lemma PromotesAfterCap(acc: Account, payable: map<nat, Tx>, moved: Account, kept: Account, nonce: nat, balance: int, maxGas: nat,
                         local: bool, limit: nat)
    requires ArePayable(acc, payable, nonce, balance, maxGas) && RunMoved(acc, payable, moved, nonce, balance, maxGas)
    requires Kept(moved, kept, local, limit) && kept.pending == moved.pending && kept.virtual == moved.virtual
    ensures Promotes(acc, kept, nonce, balance, maxGas, local, limit)
  {
    hide MayStay, MovesRun, CappedOff;
    SameRun(acc, moved, kept, nonce, balance, maxGas);
  }

  lemma SameRun(acc: Account, moved: Account, kept: Account, nonce: nat, balance: int, maxGas: nat)
    requires MovesRun(acc, moved, nonce, balance, maxGas) && kept.pending == moved.pending && kept.virtual == moved.virtual
    ensures MovesRun(acc, kept, nonce, balance, maxGas)
  {
  }

  lemma PayableMayStay(acc: Account, nonce: nat, balance: int, maxGas: nat)
    ensures ArePayable(acc, Payable(acc.queued, nonce, balance, maxGas), nonce, balance, maxGas)
  {
  }

  /** `payable` are the queued transactions that may stay. */
  ghost predicate ArePayable(acc: Account, payable: map<nat, Tx>, nonce: nat, balance: int, maxGas: nat) {
    && (forall n: nat :: n in payable <==> MayStay(acc.queued, n, nonce, balance, maxGas))
    && forall n :: n in payable ==> n in acc.queued && payable[n] == acc.queued[n]
  }

  lemma PromotionMoves(acc: Account, payable: map<nat, Tx>, nonce: nat, balance: int, maxGas: nat)
    requires acc.pending.Keys !! acc.queued.Keys && ArePayable(acc, payable, nonce, balance, maxGas)
    ensures RunMoved(acc, payable, AfterPromotion(acc.(queued := payable)), nonce, balance, maxGas)
  {
    var moved := AfterPromotion(acc.(queued := payable));
    RunFrom(payable, acc.virtual);
    hide ReadyEnd, MayStay, MovesRun;
    var end := ReadyEnd(payable, acc.virtual);
    RunIsMoved(acc, payable, moved, end, nonce, balance, maxGas);
  }

  lemma RunIsMoved(acc: Account, payable: map<nat, Tx>, moved: Account, end: nat, nonce: nat, balance: int, maxGas: nat)
    requires acc.pending.Keys !! payable.Keys && ArePayable(acc, payable, nonce, balance, maxGas)
    requires end == ReadyEnd(payable, acc.virtual) && moved.pending == acc.pending + Below(payable, end)
    requires moved.virtual == if end > 0 then end else acc.virtual
    ensures MovesRun(acc, moved, nonce, balance, maxGas)
  {
    hide ReadyEnd, MayStay;
    RunFrom(payable, acc.virtual);
    if n: nat :| n <= acc.virtual && MayStay(acc.queued, n, nonce, balance, maxGas) {
      assert n in payable;
      assert StartsRun(acc, MinKey(payable), nonce, balance, maxGas);
    } else {
      assert forall n :: n in payable ==> MayStay(acc.queued, n, nonce, balance, maxGas);
      assert end == 0 && moved.pending == acc.pending;
    }
  }

  lemma RunFrom(items: map<nat, Tx>, virtual: nat)
    ensures var end := ReadyEnd(items, virtual);
            if exists n :: n in items && n <= virtual then
              && MinKey(items) <= virtual && MinKey(items) < end && end !in items
              && forall n: nat :: n in items && n < end <==> MinKey(items) <= n < end
            else end == 0
  {
  }

  lemma CappingDrops(acc: Account, local: bool, limit: nat)
    ensures Kept(acc, AfterCapping(acc, local, limit), local, limit)
  {
    CappedIsPrefix(acc.queued, limit);
  }

  /** A queued transaction that a round of promotion forgets: it is too old, cannot be paid for,
      or is neither promoted nor fits into the queue. */
  ghost predicate DroppedInRound(acc: Account, acc': Account, t: Tx, nonce: nat, balance: int, maxGas: nat, local: bool, limit: nat) {
    && Holds(acc.queued, t)
    && (t.nonce < nonce || t.gas > maxGas || t.cost > balance
        || (t.nonce !in acc'.pending && CappedOff(acc', t.nonce, local, limit)))
  }

  lemma WhatPromotionForgets(acc: Account, acc': Account, t: Tx, nonce: nat, balance: int, maxGas: nat, local: bool, limit: nat)
    requires Promotes(acc, acc', nonce, balance, maxGas, local, limit) && acc.pending.Keys !! acc.queued.Keys
    requires Keyed(acc.pending) && Keyed(acc.queued) && Keyed(acc'.pending) && Keyed(acc'.queued)
    ensures Holds(acc'.pending, t) || Holds(acc'.queued, t) <==>
              && (Holds(acc.pending, t) || Holds(acc.queued, t))
              && !DroppedInRound(acc, acc', t, nonce, balance, maxGas, local, limit)
  {
    hide MovesRun;
  }

  /** An executable account whose queue has a transaction that may stay at its virtual nonce gets
      it pending, and all that follow it without a gap; any other keeps what it has pending. */
  lemma NextIsPromoted(acc: Account, acc': Account, nonce: nat, balance: int, maxGas: nat, local: bool, limit: nat)
    requires ExecutableAt(acc, nonce) && acc.pending.Keys !! acc.queued.Keys
    requires Promotes(acc, acc', nonce, balance, maxGas, local, limit)
    ensures if MayStay(acc.queued, acc.virtual, nonce, balance, maxGas) then
              && acc.virtual < acc'.virtual && IsInterval(acc'.pending, nonce, acc'.virtual)
              && (forall n :: acc.virtual <= n < acc'.virtual ==>
                    MayStay(acc.queued, n, nonce, balance, maxGas) && acc'.pending[n] == acc.queued[n])
              && !MayStay(acc.queued, acc'.virtual, nonce, balance, maxGas)
            else acc'.pending == acc.pending && acc'.virtual == acc.virtual
  {
    assert forall n: nat :: MayStay(acc.queued, n, nonce, balance, maxGas) ==> acc.virtual <= n;
    hide MayStay;
  }

  ghost predicate NoRepeats(txs: seq<Tx>) {
    forall i, j :: 0 <= i < j < |txs| ==> txs[i] != txs[j]
  }

  /** `txs` lists, each once, what account `a` has in `p1` but had not in `p0`. */
  ghost predicate AreNew(txs: seq<Tx>, a: Address, p0: map<nat, Tx>, p1: map<nat, Tx>) {
    NoRepeats(txs) && forall t :: t in txs <==> t.sender == a && Holds(p1, t) && !Holds(p0, t)
  }

  lemma NothingNew()
    ensures NoRepeats([])
  {
  }

  lemma RunIsNew(run: seq<Tx>, a: Address, p: map<nat, Tx>, readies: map<nat, Tx>)
    requires (forall t :: t in run <==> Holds(readies, t)) && NoRepeats(run) && OwnedBy(readies, a)
    requires readies.Keys !! p.Keys && Keyed(readies)
    ensures AreNew(run, a, p, p + readies)
  {
  }

  lemma OneBatchMore(txs: seq<Tx>, batch: seq<Tx>, a: Address, p0: map<nat, Tx>, p1: map<nat, Tx>)
    requires NoRepeats(txs) && AreNew(batch, a, p0, p1) && forall t :: t in txs ==> t.sender != a
    ensures NoRepeats(txs + batch)
    ensures forall t :: t in txs + batch <==> t in txs || (t.sender == a && Holds(p1, t) && !Holds(p0, t))
  {
    forall i, j | 0 <= i < j < |txs + batch|
      ensures (txs + batch)[i] != (txs + batch)[j]
    {
      assert i < |txs| ==> (txs + batch)[i] in txs;
      assert j >= |txs| ==> (txs + batch)[j] in batch;
    }
  }

  /** Exactly the transactions `gone` of account `a` have been forgotten. */
  ghost predicate Forgets(locals: map<TxHash, Tx>, remotes: map<TxHash, Tx>,
                          locals': map<TxHash, Tx>, remotes': map<TxHash, Tx>, a: Address, gone: map<nat, Tx>) {
    forall t :: Known(locals', remotes', t) <==> Known(locals, remotes, t) && !(t.sender == a && Holds(gone, t))
  }

  lemma ForgetsOneMore(locals: map<TxHash, Tx>, remotes: map<TxHash, Tx>, locals': map<TxHash, Tx>, remotes': map<TxHash, Tx>,
                       a: Address, limbo: map<nat, Tx>, rest: map<nat, Tx>, n: nat)
    requires PartOf(rest, limbo) && n in rest && Keyed(limbo) && OwnedBy(limbo, a)
    requires Forgets(locals, remotes, locals', remotes', a, limbo - rest.Keys)
    ensures Forgets(locals, remotes, locals' - {HashOf(rest[n])}, remotes' - {HashOf(rest[n])}, a, limbo - (rest - {n}).Keys)
  {
  }

  /** The pending items of an account that are still payable, up to the first that is not. */
  function StillPending(p: map<nat, Tx>, nonce: nat, balance: int, maxGas: nat): map<nat, Tx> {
    Affordable(true, From(p, nonce), balance, maxGas)
  }

  /** The items that are payable but come after one that is not. */
  function Stranded(items: map<nat, Tx>, balance: int, maxGas: nat): map<nat, Tx> {
    map n | n in items && n !in Affordable(true, items, balance, maxGas) && !Over(items[n], balance, maxGas) :: items[n]
  }

  /** The account without its pending transactions below the state nonce. */
  function WithoutOld(acc: Account, nonce: nat): Account {
    acc.(pending := From(acc.pending, nonce))
  }

  /** The account without its too costly pending transactions; those after them are queued. */
  function WithoutCostly(acc: Account, balance: int, maxGas: nat): Account {
    acc.(pending := Affordable(true, acc.pending, balance, maxGas), queued := acc.queued + Stranded(acc.pending, balance, maxGas))
  }

  /** The account with everything queued, if its pending list does not start at `nonce`. */
  function WithoutGapped(acc: Account, nonce: nat): Account {
    if acc.pending != map[] && nonce !in acc.pending then acc.(pending := map[], queued := acc.queued + acc.pending) else acc
  }

  /** What demotion makes of account `a`: too old or too costly pending transactions are
      gone, payable ones after those are queued, and if what is left does not start at the
      state nonce it is queued as well. */
  function AfterDemotion(acc: Account, state: ChainState, a: Address): Account {
    WithoutGapped(WithoutCostly(WithoutOld(acc, state.Nonce(a)), state.Balance(a), state.gasLimit), state.Nonce(a))
  }

  lemma DemotionIs(acc: Account, state: ChainState, a: Address)
    ensures AfterDemotion(acc, state, a) ==
            WithoutGapped(WithoutCostly(WithoutOld(acc, state.Nonce(a)), state.Balance(a), state.gasLimit), state.Nonce(a))
  {
  }

  /** What a demotion promises of an account. Nothing queued is lost, and of what was pending
      exactly what is too old or cannot be paid for is forgotten. Still pending is, if the
      transaction at the state nonce may stay, all up to the first that may not. */
  ghost predicate Demotes(acc: Account, acc': Account, nonce: nat, balance: int, maxGas: nat) {
    && PartOf(acc.queued, acc'.queued) && PartOf(acc'.pending, acc.pending) && acc'.virtual == acc.virtual
    && acc'.pending.Keys !! acc'.queued.Keys
    && (forall n :: n in acc'.queued && n !in acc.queued ==>
          MayStay(acc.pending, n, nonce, balance, maxGas) && acc'.queued[n] == acc.pending[n])
    && (forall n: nat :: n in acc.pending ==>
          (n in acc'.pending || n in acc'.queued <==> MayStay(acc.pending, n, nonce, balance, maxGas)))
    && (forall n: nat :: n in acc'.pending <==>
          && MayStay(acc.pending, nonce, nonce, balance, maxGas) && MayStay(acc.pending, n, nonce, balance, maxGas)
          && forall m :: m in acc.pending && nonce <= m < n ==> MayStay(acc.pending, m, nonce, balance, maxGas))
  }

  lemma WhatDemotionForgets(acc: Account, acc': Account, t: Tx, nonce: nat, balance: int, maxGas: nat)
    requires Demotes(acc, acc', nonce, balance, maxGas) && acc.pending.Keys !! acc.queued.Keys
    requires Keyed(acc.pending) && Keyed(acc.queued) && Keyed(acc'.pending) && Keyed(acc'.queued)
    ensures Holds(acc'.pending, t) || Holds(acc'.queued, t) <==>
              && (Holds(acc.pending, t) || Holds(acc.queued, t))
              && !(Holds(acc.pending, t) && (t.nonce < nonce || t.gas > maxGas || t.cost > balance))
  {
  }

  /** A demotion keeps that promise. */
  lemma DemotionDemotes(acc: Account, state: ChainState, a: Address)
    requires acc.pending.Keys !! acc.queued.Keys
    ensures Demotes(acc, AfterDemotion(acc, state, a), state.Nonce(a), state.Balance(a), state.gasLimit)
  {
    var nonce, balance, maxGas := state.Nonce(a), state.Balance(a), state.gasLimit;
    LeftAndStranded(acc.pending, nonce, balance, maxGas);
    hide MayStay, Affordable, Stranded, From;
    var left, stranded := StillPending(acc.pending, nonce, balance, maxGas), Stranded(From(acc.pending, nonce), balance, maxGas);
    DemotedToQueue(acc, left, stranded, nonce, balance, maxGas);
  }

  /** Of `items` those still pending, and those that may stay but come after one that may not. */
  lemma LeftAndStranded(items: map<nat, Tx>, nonce: nat, balance: int, maxGas: nat)
    ensures AreSplit(items, StillPending(items, nonce, balance, maxGas), Stranded(From(items, nonce), balance, maxGas),
                     nonce, balance, maxGas)
  {
    var left := StillPending(items, nonce, balance, maxGas);
    var from := From(items, nonce);
    assert forall m: nat :: m in from <==> m in items && nonce <= m;
    assert forall m: nat :: m in from ==> (MayStay(items, m, nonce, balance, maxGas) <==> !Over(from[m], balance, maxGas));
    forall n: nat
      ensures n in left ==> forall m :: m in items && nonce <= m < n ==> MayStay(items, m, nonce, balance, maxGas)
      ensures MayStay(items, n, nonce, balance, maxGas) ==>
                n in left || exists m :: m in items && nonce <= m < n && !MayStay(items, m, nonce, balance, maxGas)
    {
      assert n in left <==> && n in from && !Over(from[n], balance, maxGas)
                            && forall m :: m in from && m < n ==> !Over(from[m], balance, maxGas);
    }
  }

  ghost predicate AreSplit(items: map<nat, Tx>, left: map<nat, Tx>, stranded: map<nat, Tx>, nonce: nat, balance: int, maxGas: nat) {
    && PartOf(left, items) && PartOf(stranded, items)
    && (forall n: nat :: n in left <==> && MayStay(items, n, nonce, balance, maxGas)
                                        && forall m :: m in items && nonce <= m < n ==> MayStay(items, m, nonce, balance, maxGas))
    && (forall n: nat :: n in stranded <==> MayStay(items, n, nonce, balance, maxGas) && n !in left)
    && (forall n: nat :: MayStay(items, n, nonce, balance, maxGas) ==> n in items && nonce <= n)
  }

  lemma DemotedToQueue(acc: Account, left: map<nat, Tx>, stranded: map<nat, Tx>, nonce: nat, balance: int, maxGas: nat)
    requires acc.pending.Keys !! acc.queued.Keys && AreSplit(acc.pending, left, stranded, nonce, balance, maxGas)
    ensures var costly := Account(left, acc.queued + stranded, acc.virtual);
            Demotes(acc, WithoutGapped(costly, nonce), nonce, balance, maxGas)
  {
    hide MayStay;
    var costly := Account(left, acc.queued + stranded, acc.virtual);
    if left != map[] {
      var n :| n in left;
      assert nonce in acc.pending && MayStay(acc.pending, nonce, nonce, balance, maxGas) ==> nonce in left;
    }
  }

  /** The nonce after the highest of `items`, or `nonce` when there are none. */
  function EndOf(items: map<nat, Tx>, nonce: nat): nat {
    if items == map[] then nonce else MaxKey(items) + 1
  }

  /** Demotion leaves an interval of pending nonces when there was no gap above the state
      nonce. */
  lemma NoGapIsEnough(acc: Account, state: ChainState, a: Address)
    requires NoGapFrom(acc.pending, state.Nonce(a))
    ensures var p := AfterDemotion(acc, state, a).pending;
            IsInterval(p, state.Nonce(a), EndOf(p, state.Nonce(a)))
  {
  }

  /** The account with its virtual nonce just above its highest pending one. */
  function AfterUpdate(acc: Account, nonce: nat): Account {
    acc.(virtual := EndOf(acc.pending, nonce))
  }

  /** The virtual nonce comes right after the highest pending one; without any it is the state
      nonce. */
  ghost predicate NextAfter(acc: Account, nonce: nat) {
    if acc.pending == map[] then acc.virtual == nonce
    else acc.virtual > 0 && acc.virtual - 1 in acc.pending && forall n :: n in acc.pending ==> n < acc.virtual
  }

  lemma UpdatedIsNext(acc: Account, nonce: nat)
    ensures NextAfter(AfterUpdate(acc, nonce), nonce)
  {
  }

  lemma DemotesWithVirtual(acc: Account, demoted: Account, acc': Account, nonce: nat, balance: int, maxGas: nat)
    requires Demotes(acc, demoted, nonce, balance, maxGas) && acc' == demoted.(virtual := acc'.virtual)
    ensures Demotes(acc.(virtual := acc'.virtual), acc', nonce, balance, maxGas)
  {
    hide MayStay;
  }

  /** A reset leaves in the queue of `a` the transaction at its virtual nonce: promotion starts
      again from the state nonce and does not get to it, because what is pending is in between. */
  ghost predicate StaysBehind(found: Account, round: Account, state: ChainState, a: Address) {
    var nonce := state.Nonce(a);
    || nonce in round.queued
    || (nonce in round.pending && exists e :: e in round.queued && EndsAt(found.pending, e, nonce, state.Balance(a), state.gasLimit))
  }

  /** What is pending from `nonce` on ends right before `e`, and all of it may stay. */
  ghost predicate EndsAt(items: map<nat, Tx>, e: nat, nonce: nat, balance: int, maxGas: nat) {
    && nonce < e && e - 1 in items
    && forall n :: n in items && nonce <= n ==> n < e && MayStay(items, n, nonce, balance, maxGas)
  }

  lemma LeftBehind(found: Account, round: Account, after: Account, nonce0: nat, state: ChainState, a: Address, local: bool, limit: nat)
    requires found.pending.Keys !! found.queued.Keys && (found.virtual <= state.Nonce(a) || ExecutableAt(found, state.Nonce(a)))
    requires NoGapFrom(found.pending, nonce0) && forall n :: n in found.pending ==> nonce0 <= n
    requires Promotes(found, round, state.Nonce(a), state.Balance(a), state.gasLimit, local, limit)
    requires Demotes(round.(virtual := after.virtual), after, state.Nonce(a), state.Balance(a), state.gasLimit)
    requires NextAfter(after, state.Nonce(a))
    ensures after.virtual in after.queued <==> StaysBehind(found, round, state, a)
  {
    var nonce, balance, maxGas := state.Nonce(a), state.Balance(a), state.gasLimit;
    var v := after.virtual;
    NewMayStay(found, round, nonce, balance, maxGas, local, limit);
    if MayStay(round.pending, nonce, nonce, balance, maxGas) {
      if v in after.queued {
        EndIsQueued(found, round, after, nonce0, nonce, balance, maxGas, local, limit);
      }
      if e: nat :| e in round.queued && EndsAt(found.pending, e, nonce, balance, maxGas) {
        QueuedIsEnd(found, round, after, e, nonce, balance, maxGas, local, limit);
      }
    } else {
      hide MovesRun, MayStay;
      assert after.pending == map[];
    }
  }

  /** What was promoted may stay, and what was pending is as it was. */
  lemma NewMayStay(found: Account, round: Account, nonce: nat, balance: int, maxGas: nat, local: bool, limit: nat)
    requires Promotes(found, round, nonce, balance, maxGas, local, limit)
    ensures forall n :: n in round.pending && n !in found.pending ==> MayStay(round.pending, n, nonce, balance, maxGas)
    ensures forall n :: n in found.pending ==>
              n in round.pending && (MayStay(round.pending, n, nonce, balance, maxGas) <==> MayStay(found.pending, n, nonce, balance, maxGas))
    ensures round.pending.Keys !! round.queued.Keys
  {
    hide MovesRun;
  }

  lemma EndIsQueued(found: Account, round: Account, after: Account, nonce0: nat, nonce: nat, balance: int, maxGas: nat,
                    local: bool, limit: nat)
    requires NoGapFrom(found.pending, nonce0) && forall n :: n in found.pending ==> nonce0 <= n
    requires Promotes(found, round, nonce, balance, maxGas, local, limit)
    requires Demotes(round.(virtual := after.virtual), after, nonce, balance, maxGas) && NextAfter(after, nonce)
    requires MayStay(round.pending, nonce, nonce, balance, maxGas) && after.virtual in after.queued
    ensures after.virtual in round.queued && EndsAt(found.pending, after.virtual, nonce, balance, maxGas)
  {
    var v: nat := after.virtual;
    NewMayStay(found, round, nonce, balance, maxGas, local, limit);
    hide MovesRun, MayStay, Promotes, Demotes;
    StillQueued(round.(virtual := after.virtual), after, nonce, balance, maxGas);
    RunEndsAtVirtual(found, round, v, nonce, balance, maxGas, local, limit);
    forall n | n in found.pending && nonce <= n
      ensures n < v && MayStay(found.pending, n, nonce, balance, maxGas)
    {
      assert n in round.pending && v !in round.pending && v - 1 in found.pending && nonce0 <= v - 1;
      assert n < v;
    }
  }

  /** What is queued at the virtual nonce after a demotion was queued before, and all that was
      pending below may stay. */
  lemma StillQueued(round: Account, after: Account, nonce: nat, balance: int, maxGas: nat)
    requires Demotes(round, after, nonce, balance, maxGas) && NextAfter(after, nonce)
    requires MayStay(round.pending, nonce, nonce, balance, maxGas) && after.virtual in after.queued
    ensures nonce < after.virtual && after.virtual - 1 in round.pending && after.virtual in round.queued
    ensures forall n: nat :: n in round.pending && nonce <= n < after.virtual ==> MayStay(round.pending, n, nonce, balance, maxGas)
  {
    var v: nat := after.virtual;
    assert nonce in after.pending by { OnlyFrom(round.pending, nonce, balance, maxGas); }
    hide MayStay;
    assert v - 1 in after.pending;
  }

  lemma OnlyFrom(items: map<nat, Tx>, nonce: nat, balance: int, maxGas: nat)
    ensures forall n: nat :: MayStay(items, n, nonce, balance, maxGas) ==> n in items && nonce <= n
  {
  }

  /** What was promoted does not end right before a nonce that is still queued. */
  lemma RunEndsAtVirtual(found: Account, round: Account, v: nat, nonce: nat, balance: int, maxGas: nat, local: bool, limit: nat)
    requires Promotes(found, round, nonce, balance, maxGas, local, limit) && v in round.queued && v > 0
    ensures v - 1 in round.pending ==> v - 1 in found.pending
  {
    hide MayStay;
    assert v !in round.pending;
  }

  lemma QueuedIsEnd(found: Account, round: Account, after: Account, e: nat, nonce: nat, balance: int, maxGas: nat,
                    local: bool, limit: nat)
    requires found.pending.Keys !! found.queued.Keys && (found.virtual <= nonce || ExecutableAt(found, nonce))
    requires Promotes(found, round, nonce, balance, maxGas, local, limit)
    requires Demotes(round.(virtual := after.virtual), after, nonce, balance, maxGas) && NextAfter(after, nonce)
    requires MayStay(round.pending, nonce, nonce, balance, maxGas)
    requires e in round.queued && EndsAt(found.pending, e, nonce, balance, maxGas)
    ensures after.virtual == e && e in after.queued
  {
    NewMayStay(found, round, nonce, balance, maxGas, local, limit);
    NothingPast(found, round, e, nonce, balance, maxGas, local, limit);
    hide MovesRun, MayStay, Promotes;
    assert forall n :: n in round.pending && nonce <= n ==> MayStay(round.pending, n, nonce, balance, maxGas);
    assert e - 1 in after.pending;
    assert forall n :: n in after.pending ==> n in round.pending && n < e;
  }

  /** Nothing is pending past a queued nonce that comes right after what was pending. */
  lemma NothingPast(found: Account, round: Account, e: nat, nonce: nat, balance: int, maxGas: nat, local: bool, limit: nat)
    requires found.pending.Keys !! found.queued.Keys && (found.virtual <= nonce || ExecutableAt(found, nonce))
    requires Promotes(found, round, nonce, balance, maxGas, local, limit)
    requires e in round.queued && EndsAt(found.pending, e, nonce, balance, maxGas)
    ensures forall n :: n in round.pending && nonce <= n ==> n < e
  {
    hide MayStay;
    assert e !in round.pending && found.virtual <= e by {
      if found.virtual > nonce {
        assert e - 1 in found.pending;
        assert found.virtual - 1 in found.pending;
      }
    }
  }

  /** What the promotion, demotion and update of a reset make of account `a`. */
  function AfterReset(acc: Account, state: ChainState, a: Address, local: bool, limit: nat): Account {
    AfterUpdate(AfterDemotion(AfterRound(acc, state, a, local, limit), state, a), state.Nonce(a))
  }

  /** A reset that lowers the nonce of `a` from `nonce0` leaves a gap: the new state nonce is
      queued and can be paid for, and so is promoted; the transaction at the old nonce stays
      pending; and some nonce between them is not queued or cannot be paid for. */
  ghost predicate LeavesGap(acc: Account, nonce0: nat, state: ChainState, a: Address) {
    var nonce := state.Nonce(a);
    var payable := Payable(acc.queued, nonce, state.Balance(a), state.gasLimit);
    && nonce < nonce0 && nonce in payable
    && nonce0 in acc.pending && !Over(acc.pending[nonce0], state.Balance(a), state.gasLimit)
    && exists m :: nonce < m < nonce0 && m !in payable
  }

  /** A reset makes an account executable exactly if it does not leave a gap. What it finds
      after the lost transactions were put back is `acc`: the nonces were pending from `nonce0`
      on, and its virtual nonce was brought down to the new state nonce at most. */
  lemma ResetLeavesGap(acc: Account, nonce0: nat, state: ChainState, a: Address, local: bool, limit: nat)
    requires acc.pending.Keys !! acc.queued.Keys
    requires NoGapFrom(acc.pending, nonce0) && forall n :: n in acc.pending ==> nonce0 <= n
    requires acc.virtual <= state.Nonce(a) && (state.Nonce(a) < nonce0 ==> acc.virtual == state.Nonce(a))
    ensures ExecutableAt(AfterReset(acc, state, a, local, limit), state.Nonce(a)) <==> !LeavesGap(acc, nonce0, state, a)
  {
    if nonce0 <= state.Nonce(a) {
      PromotionExtends(acc, state, a, local, limit);
      NoGapIsEnough(AfterRound(acc, state, a, local, limit), state, a);
    } else {
      LoweredGap(acc, nonce0, state, a, local, limit);
    }
  }

  /** Without a new state nothing has become unexecutable. */
  lemma ResetWithoutNews(acc: Account, state: ChainState, a: Address, local: bool, limit: nat)
    requires acc.pending.Keys !! acc.queued.Keys && ExecutableAt(acc, state.Nonce(a))
    ensures ExecutableAt(AfterReset(acc, state, a, local, limit), state.Nonce(a))
  {
    PromotionExtends(acc, state, a, local, limit);
    NoGapIsEnough(AfterRound(acc, state, a, local, limit), state, a);
  }

  lemma LoweredGap(acc: Account, nonce0: nat, state: ChainState, a: Address, local: bool, limit: nat)
    requires acc.pending.Keys !! acc.queued.Keys
    requires NoGapFrom(acc.pending, nonce0) && forall n :: n in acc.pending ==> nonce0 <= n
    requires acc.virtual == state.Nonce(a) < nonce0
    ensures ExecutableAt(AfterReset(acc, state, a, local, limit), state.Nonce(a)) <==> !LeavesGap(acc, nonce0, state, a)
  {
    var nonce, balance, maxGas := state.Nonce(a), state.Balance(a), state.gasLimit;
    var payable := Payable(acc.queued, nonce, balance, maxGas);
    RoundFromLowered(acc, state, a, local, limit);
    var round := AfterRound(acc, state, a, local, limit);
    hide AfterRound, StillPending, Payable, ReadyEnd, RunEnd;
    DemotionFrom(round, state, a);
    if nonce in payable {
      var e := ReadyEnd(payable, nonce);
      PayableFacts(acc, nonce, balance, maxGas);
      JoinedDemotion(acc.pending, Below(payable, e), nonce, e, nonce0, balance, maxGas);
      GapBelow(payable, nonce, e, nonce0);
    } else {
      NothingLeftAt(acc.pending, nonce, balance, maxGas);
    }
  }

  lemma GapBelow(payable: map<nat, Tx>, nonce: nat, e: nat, nonce0: nat)
    requires nonce in payable && e == RunEnd(payable, nonce)
    ensures e < nonce0 <==> exists m :: nonce < m < nonce0 && m !in payable
  {
  }

  lemma NothingLeftAt(p: map<nat, Tx>, nonce: nat, balance: int, maxGas: nat)
    requires nonce !in p
    ensures nonce !in StillPending(p, nonce, balance, maxGas)
  {
  }

  /** The payable transactions are at the state nonce or above, and none is over a limit. */
  lemma PayableFacts(acc: Account, nonce: nat, balance: int, maxGas: nat)
    ensures var payable := Payable(acc.queued, nonce, balance, maxGas);
            && payable.Keys <= acc.queued.Keys
            && forall n :: n in payable ==> nonce <= n && !Over(payable[n], balance, maxGas)
  {
  }

  lemma ReadyFromLowest(items: map<nat, Tx>, nonce: nat)
    requires forall n :: n in items ==> nonce <= n
    ensures if nonce in items then IsReadyRun(items, nonce, ReadyEnd(items, nonce))
            else ReadyEnd(items, nonce) == 0 && Below(items, 0) == map[]
  {
    if nonce in items {
      assert MinKey(items) == nonce;
    }
  }

  /** The items below `e` are the run from `nonce` up to the first nonce missing. */
  ghost predicate IsReadyRun(items: map<nat, Tx>, nonce: nat, e: nat) {
    nonce < e == RunEnd(items, nonce) && IsInterval(Below(items, e), nonce, e)
  }

  lemma CappingKeepsPending(acc: Account, local: bool, limit: nat)
    ensures AfterCapping(acc, local, limit).pending == acc.pending
    ensures AfterCapping(acc, local, limit).virtual == acc.virtual
  {
  }

  /** With the virtual nonce at the state nonce, the payable run from there on is promoted. */
  lemma RoundFromLowered(acc: Account, state: ChainState, a: Address, local: bool, limit: nat)
    requires acc.virtual == state.Nonce(a)
    ensures var nonce, round := state.Nonce(a), AfterRound(acc, state, a, local, limit);
            var payable := Payable(acc.queued, nonce, state.Balance(a), state.gasLimit);
            var e := ReadyEnd(payable, nonce);
            if nonce in payable then IsReadyRun(payable, nonce, e) && round.pending == acc.pending + Below(payable, e)
            else round.pending == acc.pending
  {
    hide Payable, ReadyEnd, Below, IsReadyRun, AfterCapping, Over;
    var nonce, balance := state.Nonce(a), state.Balance(a);
    PayableFacts(acc, nonce, balance, state.gasLimit);
    ReadyFromLowest(Payable(acc.queued, nonce, balance, state.gasLimit), nonce);
    CappingKeepsPending(AfterPromotion(AfterCleaning(acc, nonce, balance, state.gasLimit)), local, limit);
    assert acc.pending + map[] == acc.pending;
  }

  /** Demotion leaves what is still payable if it starts at the state nonce, and else nothing. */
  lemma DemotionFrom(acc: Account, state: ChainState, a: Address)
    ensures var left := StillPending(acc.pending, state.Nonce(a), state.Balance(a), state.gasLimit);
            AfterDemotion(acc, state, a).pending == if state.Nonce(a) in left then left else map[]
  {
  }

  /** A payable run up to `e` joined to what was pending from `nonce0` on. */
  lemma JoinedDemotion(p: map<nat, Tx>, run: map<nat, Tx>, nonce: nat, e: nat, nonce0: nat, balance: int, maxGas: nat)
    requires NoGapFrom(p, nonce0) && (forall n :: n in p ==> nonce0 <= n) && run.Keys !! p.Keys
    requires IsInterval(run, nonce, e) && nonce < e && nonce < nonce0
    requires forall n :: n in run ==> !Over(run[n], balance, maxGas)
    ensures var left := StillPending(p + run, nonce, balance, maxGas);
            && nonce in left
            && (IsInterval(left, nonce, EndOf(left, nonce)) <==>
                  !(e < nonce0 && nonce0 in p && !Over(p[nonce0], balance, maxGas)))
  {
    var left := StillPending(p + run, nonce, balance, maxGas);
    JoinedLeft(p, run, nonce, e, nonce0, balance, maxGas);
    hide StillPending;
    if nonce0 in p && !Over(p[nonce0], balance, maxGas) {
      if e == nonce0 {
        RunToEnd(left, nonce);
      } else {
        assert e !in left && nonce0 in left;
      }
    } else {
      assert left.Keys == run.Keys;
      RunToEnd(left, nonce);
    }
  }

  lemma JoinedLeft(p: map<nat, Tx>, run: map<nat, Tx>, nonce: nat, e: nat, nonce0: nat, balance: int, maxGas: nat)
    requires NoGapFrom(p, nonce0) && (forall n :: n in p ==> nonce0 <= n) && run.Keys !! p.Keys
    requires IsInterval(run, nonce, e) && nonce < e && nonce < nonce0
    requires forall n :: n in run ==> !Over(run[n], balance, maxGas)
    ensures var left := StillPending(p + run, nonce, balance, maxGas);
            && (forall n :: n in run ==> n in left) && (forall n :: n in left ==> n in run || n in p)
            && (forall n, m :: n in left && nonce0 <= m <= n && m in p ==> m in left)
            && (nonce0 in p ==> e <= nonce0 && (nonce0 in left <==> !Over(p[nonce0], balance, maxGas)))
  {
  }

  /** Items without a gap from `nonce` on are the interval up to their highest. */
  lemma RunToEnd(items: map<nat, Tx>, nonce: nat)
    requires nonce in items && (forall n :: n in items ==> nonce <= n) && NoGapFrom(items, nonce)
    ensures IsInterval(items, nonce, EndOf(items, nonce))
  {
  }

  function ListLen(l: TxListState): nat {
    |l.items|
  }

  function LenAt(lists: Lists, a: Address): nat {
    |ItemsAt(lists, a)|
  }

  /** `kept` are the lowest nonces of `items`. */
  ghost predicate IsCut(items: map<nat, Tx>, kept: map<nat, Tx>) {
    PartOf(kept, items) && forall n, m :: n in kept && m in items && m !in kept ==> n < m
  }

  ghost predicate AllCut(p: Lists, p': Lists) {
    forall a :: IsCut(ItemsAt(p, a), ItemsAt(p', a))
  }

  lemma CutsCompose(p: Lists, p': Lists, p'': Lists)
    requires AllCut(p, p') && AllCut(p', p'')
    ensures AllCut(p, p'')
  {
  }

  lemma NothingCut(p: Lists)
    ensures AllCut(p, p)
  {
  }

  /** The account without its highest pending nonce, to which the virtual nonce drops. */
  function WithoutLast(acc: Account): Account {
    if acc.pending == map[] then acc else
    var n := MaxKey(acc.pending);
    acc.(pending := acc.pending - {n}, virtual := if acc.virtual <= n then acc.virtual else n)
  }

  lemma WithoutLastStaysExecutable(acc: Account, nonce: nat)
    requires acc.pending != map[]
    ensures ExecutableAt(acc, nonce) ==> ExecutableAt(WithoutLast(acc), nonce)
    ensures IsCut(acc.pending, WithoutLast(acc).pending) && |WithoutLast(acc).pending| == |acc.pending| - 1
  {
  }

  /** The total depends on the items only, not on the caps nor on empty lists. */
  lemma {:induction false} TotalByItems(p: Lists, p': Lists)
    requires forall a :: ItemsAt(p, a) == ItemsAt(p', a)
    ensures Sums.Total(p, ListLen) == Sums.Total(p', ListLen)
    decreases |p| + |p'|
  {
    if p != map[] {
      var a :| a in p;
      DroppedFromBoth(p, p', a);
    } else if p' != map[] {
      var a :| a in p';
      DroppedFromBoth(p, p', a);
    }
  }

  lemma {:induction false} DroppedFromBoth(p: Lists, p': Lists, a: Address)
    requires (forall b :: ItemsAt(p, b) == ItemsAt(p', b)) && (a in p || a in p')
    ensures Sums.Total(p, ListLen) == Sums.Total(p', ListLen)
    decreases |p| + |p'|, 0
  {
    TotalAt(p, a);
    TotalAt(p', a);
    ItemsWithout(p, a);
    ItemsWithout(p', a);
    hide ItemsAt;
    assert LenAt(p, a) == LenAt(p', a);
    MinusSize(p, a);
    MinusSize(p', a);
    TotalByItems(p - {a}, p' - {a});
  }

  lemma MinusSize(p: Lists, a: Address)
    ensures |p - {a}| == |p| - if a in p then 1 else 0
  {
  }

  lemma TotalAt(p: Lists, a: Address)
    ensures Sums.Total(p, ListLen) == LenAt(p, a) + Sums.Total(p - {a}, ListLen)
  {
    if a in p {
      Sums.TotalWithout(p, ListLen, a);
    } else {
      assert p - {a} == p;
    }
  }

  /** When one account's items change, the total changes with them. */
  lemma TotalChanges(p: Lists, p': Lists, a: Address)
    requires forall b :: b != a ==> ItemsAt(p, b) == ItemsAt(p', b)
    ensures Sums.Total(p', ListLen) == Sums.Total(p, ListLen) - LenAt(p, a) + LenAt(p', a)
  {
    TotalAt(p, a);
    TotalAt(p', a);
    ItemsWithout(p, a);
    ItemsWithout(p', a);
    hide ItemsAt;
    TotalByItems(p - {a}, p' - {a});
  }

  lemma ItemsWithout(p: Lists, a: Address)
    ensures forall b :: ItemsAt(p - {a}, b) == if b == a then map[] else ItemsAt(p, b)
  {
  }
}
