/** The transaction pool (core/tx_pool.go): the methods that run with the pool lock held. */
module TxPools {
  import opened Wrappers
  import opened Transactions
  import opened TxSortedMaps
  import opened TxLists
  import opened TxNoncers
  import opened TxLookups
  import opened TxPricedLists
  import opened TxPoolModel
  import opened TxPoolTruncation
  import Sums
  import Sorting

  datatype PoolError = AlreadyKnown | InvalidSender | Underpriced | TxPoolOverflow | ReplaceUnderpriced
                     | GasLimit | FeeCapVeryHigh | TipVeryHigh | TipAboveFeeCap | NonceTooLow
                     | InsufficientFunds | IntrinsicGas | NotAcceptable

  datatype Config = Config(priceBump: nat, accountSlots: nat, globalSlots: nat, accountQueue: nat, globalQueue: nat) {
    /** The configuration with unworkable values replaced by the defaults. */
    function Sanitized(): (c: Config)
      ensures c.Workable() && (Workable() ==> c == this)
      ensures KeptOr(priceBump, c.priceBump, DEFAULTS.priceBump) && KeptOr(accountSlots, c.accountSlots, DEFAULTS.accountSlots)
      ensures KeptOr(globalSlots, c.globalSlots, DEFAULTS.globalSlots)
      ensures KeptOr(accountQueue, c.accountQueue, DEFAULTS.accountQueue) && KeptOr(globalQueue, c.globalQueue, DEFAULTS.globalQueue)
    {
      Config(if priceBump < 1 then 10 else priceBump, if accountSlots < 1 then 16 else accountSlots,
             if globalSlots < 1 then 4096 + 1024 else globalSlots, if accountQueue < 1 then 64 else accountQueue,
             if globalQueue < 1 then 1024 else globalQueue)
    }

    predicate Workable() {
      priceBump >= 1 && accountSlots >= 1 && globalSlots >= 1 && accountQueue >= 1 && globalQueue >= 1
    }
  }

  const DEFAULTS := Config(10, 16, 5120, 64, 1024)

  /** A workable value is kept, and zero becomes the default. */
  predicate KeptOr(value: nat, kept: nat, standard: nat) {
    if value > 0 then kept == value else kept == standard
  }

  class TxPool {
    const config: Config
    var gasPrice: int
    var state: ChainState
    var pendingNonces: TxNoncer
    var locals: set<Address>
    var pending: Lists
    var queue: Lists
    var beats: map<Address, int>
    const all: TxLookup
    const priced: TxPricedList
    var changesSinceReorg: int

    /** The four structures agree, with `limbo` of account `a` on its way between lists; and what
        belongs to a local account is not filed as remote. */
    ghost predicate Sound(a: Address, limbo: map<nat, Tx>)
      reads this, all, priced
    {
      && all.Valid() && priced.Valid() && priced.all == all
      && Consistent(pending, queue, all.locals, all.remotes, a, limbo)
      && queue.Keys <= beats.Keys && Foreign(all.remotes, locals)
    }

    lemma SoundForAnyone(a: Address, b: Address)
      requires Sound(a, map[])
      ensures Sound(b, map[])
    {
    }

    /** What holds between any two steps of the pool: the structures agree with nothing on
        its way, no list is empty, and every remote transaction has a price entry. */
    ghost predicate Valid()
      reads this, all, priced
    {
      Sound(0, map[]) && Tidy(pending) && Tidy(queue) && priced.Covers() && config.Workable()
    }

    ghost function View(a: Address): Account
      reads this, pendingNonces
    {
      Account(ItemsAt(pending, a), ItemsAt(queue, a), pendingNonces.Value(a))
    }

    /** Every account's pending nonces are exactly those from its state nonce up to its
        virtual nonce. */
    ghost predicate Executable()
      reads this, pendingNonces
    {
      pendingNonces.fallback == state.nonces && forall a :: ExecutableAt(View(a), state.Nonce(a))
    }

    function PendingList(a: Address): TxListState
      reads this
    {
      if a in pending then pending[a] else EMPTY_STRICT
    }

    function QueueList(a: Address): TxListState
      reads this
    {
      if a in queue then queue[a] else EMPTY_LOOSE
    }

    constructor (config: Config, gasPrice: int, locals: set<Address>, state: ChainState)
      ensures Valid() && Executable() && pending == map[] && queue == map[] && all.slots == 0
      ensures this.config == config.Sanitized() && this.gasPrice == gasPrice && this.locals == locals && this.state == state
      ensures fresh(all) && fresh(priced) && fresh(pendingNonces)
    {
      this.config, this.gasPrice, this.locals, this.state := config.Sanitized(), gasPrice, locals, state;
      pendingNonces := new TxNoncer(state.nonces);
      pending, queue, beats, changesSinceReorg := map[], map[], map[], 0;
      var lookup := new TxLookup();
      all := lookup;
      priced := new TxPricedList(lookup);
    }

    /** Add a transaction to the lookup and, if it is remote, to the price heaps. */
    method MakeKnown(tx: Tx, local: bool)
      requires all.Valid() && priced.Valid() && priced.all == all && !Known(all.locals, all.remotes, tx)
      modifies all, priced`stales, priced`urgent, priced`floating
      ensures all.Valid() && priced.Valid()
      ensures forall t :: Known(all.locals, all.remotes, t) <==> old(Known(all.locals, all.remotes, t)) || t == tx
      ensures all.locals == if local then old(all.locals)[HashOf(tx) := tx] else old(all.locals)
      ensures all.remotes == if local then old(all.remotes) else old(all.remotes)[HashOf(tx) := tx]
      ensures local ==> unchanged(priced)
      ensures old(priced.Covers()) ==> priced.Covers()
    {
      all.Add(tx, local);
      priced.Put(tx, local);
      forall t | HashOf(t) in all.remotes && old(priced.Covers())
        ensures t in priced.urgent || t in priced.floating
      {
        assert priced.Tracks(t) by {
          assert HashOf(t) in old(all.remotes) || (t == tx && !local);
          assert HashOf(t) in old(all.remotes) ==> old(priced.Tracks(t));
        }
      }
    }

    /** Remove a replaced transaction from the lookup and count its stale price entry. */
    method ForgetReplaced(tx: Tx)
      requires all.Valid() && priced.Valid() && priced.all == all && priced.Covers()
      modifies all, priced`stales, priced`urgent, priced`floating
      ensures all.Valid() && priced.Valid() && priced.Covers()
      ensures forall t :: Known(all.locals, all.remotes, t) <==> old(Known(all.locals, all.remotes, t)) && t != tx
      ensures all.locals == old(all.locals) - {HashOf(tx)} && all.remotes == old(all.remotes) - {HashOf(tx)}
    {
      all.Remove(HashOf(tx));
      priced.Removed(1);
    }

    method SwapKnown(other: Tx, tx: Tx, local: bool)
      requires all.Valid() && priced.Valid() && priced.all == all && priced.Covers() && !Known(all.locals, all.remotes, tx)
      modifies all, priced`stales, priced`urgent, priced`floating
      ensures all.Valid() && priced.Valid() && priced.Covers()
      ensures forall t :: Known(all.locals, all.remotes, t) <==> t == tx || (old(Known(all.locals, all.remotes, t)) && t != other)
      ensures old(all.locals).Keys - {HashOf(other)} <= all.locals.Keys
      ensures FiledAs(tx, local, true, old(all.locals), old(all.remotes), all.locals, all.remotes)
    {
      ForgetReplaced(other);
      MakeKnown(tx, local);
    }

    /** Insert a transaction into the queue. Replacing an older one forgets that one; a
        transaction new to the pool is also made known. */
    method EnqueueTx(tx: Tx, local: bool, addAll: bool, now: int) returns (replaced: bool, err: Option<PoolError>)
      requires all.Valid() && priced.Valid() && priced.all == all && queue.Keys <= beats.Keys
      requires addAll ==> !Known(all.locals, all.remotes, tx)
      requires Keyed(QueueList(tx.sender).items)
      requires tx.nonce in QueueList(tx.sender).items ==> priced.Covers()
      modifies this`queue, this`beats, all, priced`stales, priced`urgent, priced`floating
      ensures all.Valid() && priced.Valid() && queue.Keys <= beats.Keys
      ensures err == if old(QueueList(tx.sender)).Accepts(tx, config.priceBump) then None else Some(ReplaceUnderpriced)
      ensures replaced <==> err == None && tx.nonce in old(QueueList(tx.sender)).items
      ensures err == None ==> queue == old(queue)[tx.sender := old(QueueList(tx.sender)).Added(tx)]
      ensures err != None ==> queue == old(queue) && all.locals == old(all.locals) && all.remotes == old(all.remotes)
      ensures err == None ==> forall t :: Known(all.locals, all.remotes, t) <==>
                || (addAll && t == tx)
                || (old(Known(all.locals, all.remotes, t)) && !(replaced && t == old(QueueList(tx.sender)).items[tx.nonce]))
      ensures err == None ==>
                old(all.locals).Keys - (if replaced then {HashOf(old(QueueList(tx.sender)).items[tx.nonce])} else {}) <= all.locals.Keys
      ensures addAll ==> FiledAs(tx, local, err == None, old(all.locals), old(all.remotes), all.locals, all.remotes)
      ensures beats == if err == None && tx.sender !in old(beats) then old(beats)[tx.sender := now] else old(beats)
      ensures old(priced.Covers()) ==> priced.Covers()
      ensures !addAll && !replaced ==> unchanged(priced) && all.locals == old(all.locals) && all.remotes == old(all.remotes)
    {
      var from := tx.sender;
      var list := QueueList(from);
      if !list.Accepts(tx, config.priceBump) {
        return false, Some(ReplaceUnderpriced);
      }
      queue := queue[from := list.Added(tx)];
      if tx.nonce in list.items {
        ForgetReplaced(list.items[tx.nonce]);
      }
      if addAll {
        MakeKnown(tx, local);
      }
      if from !in beats {
        beats := beats[from := now];
      }
      return tx.nonce in list.items, None;
    }

    /** Insert a transaction into the pending list, unless an older one was better. */
    method PromoteTx(addr: Address, tx: Tx, now: int) returns (inserted: bool)
      requires all.Valid() && priced.Valid() && priced.all == all
      requires Keyed(PendingList(addr).items)
      requires tx.nonce in PendingList(addr).items ==> priced.Covers()
      modifies this`pending, this`beats, all, pendingNonces, priced`stales, priced`urgent, priced`floating
      ensures all.Valid() && priced.Valid() && (old(priced.Covers()) ==> priced.Covers())
      ensures beats == if inserted then old(beats)[addr := now] else old(beats)
      ensures inserted == old(PendingList(addr)).Accepts(tx, config.priceBump)
      ensures inserted ==> pending == old(pending)[addr := old(PendingList(addr)).Added(tx)]
      ensures inserted ==> pendingNonces.Value(addr) == tx.nonce + 1
      ensures !inserted ==> pending == old(pending) && forall t :: Known(all.locals, all.remotes, t) <==>
                old(Known(all.locals, all.remotes, t)) && t != tx
      ensures inserted ==> forall t :: Known(all.locals, all.remotes, t) <==>
                && old(Known(all.locals, all.remotes, t))
                && !(tx.nonce in old(PendingList(addr)).items && t == old(PendingList(addr)).items[tx.nonce])
      ensures tx.nonce !in old(PendingList(addr)).items ==>
                inserted && unchanged(priced) && all.locals == old(all.locals) && all.remotes == old(all.remotes)
      ensures forall b :: b != addr || !inserted ==> pendingNonces.Value(b) == old(pendingNonces.Value(b))
    {
      var list := PendingList(addr);
      if !list.Accepts(tx, config.priceBump) {
        ForgetReplaced(tx);
        return false;
      }
      pending := pending[addr := list.Added(tx)];
      if tx.nonce in list.items {
        ForgetReplaced(list.items[tx.nonce]);
      }
      pendingNonces.Set(addr, tx.nonce + 1);
      beats := beats[addr := now];
      return true;
    }

    /** Put one transaction on its way into the queue, which does not have its nonce. */
    method EnqueueInternal(a: Address, ghost limbo: map<nat, Tx>, tx: Tx, now: int)
      requires Sound(a, limbo) && Holds(limbo, tx)
      modifies this`queue, this`beats, all, priced`stales, priced`urgent, priced`floating
      ensures Sound(a, limbo - {tx.nonce}) && unchanged(priced)
      ensures all.locals == old(all.locals) && all.remotes == old(all.remotes)
      ensures tx.nonce !in ItemsAt(old(queue), a)
      ensures ItemsAt(queue, a) == ItemsAt(old(queue), a)[tx.nonce := tx]
      ensures forall b :: b != a ==> ItemsAt(queue, b) == ItemsAt(old(queue), b)
      ensures Tidy(old(queue)) ==> Tidy(queue)
    {
      IntoQueue(pending, queue, all.locals, all.remotes, a, limbo, QueueList(a), tx.nonce);
      var replaced, err := EnqueueTx(tx, false, false, now);
    }

    /** Put transactions on their way, none of which the queue has the nonce of, into the
        queue. Internal shuffling does not touch the lookup or the price heaps. */
    method EnqueueAll(a: Address, invalids: map<nat, Tx>, now: int)
      requires Sound(a, invalids)
      modifies this`queue, this`beats, all, priced`stales, priced`urgent, priced`floating
      ensures Sound(a, map[]) && unchanged(priced)
      ensures old(priced.Covers()) ==> priced.Covers()
      ensures all.locals == old(all.locals) && all.remotes == old(all.remotes)
      ensures ItemsAt(queue, a) == ItemsAt(old(queue), a) + invalids
      ensures forall b :: b != a ==> ItemsAt(queue, b) == ItemsAt(old(queue), b)
      ensures Tidy(old(queue)) ==> Tidy(queue)
    {
      assert Keyed(invalids);
      hide Consistent, ItemsAt, Tidy;
      var rest := invalids;
      while rest != map[]
        invariant Keyed(rest) && Sound(a, rest) && unchanged(priced)
        invariant all.locals == old(all.locals) && all.remotes == old(all.remotes)
        invariant ItemsAt(queue, a) + rest == ItemsAt(old(queue), a) + invalids
        invariant forall b :: b != a ==> ItemsAt(queue, b) == ItemsAt(old(queue), b)
        invariant Tidy(old(queue)) ==> Tidy(queue)
        decreases |rest|
      {
        var n :| n in rest;
        OneKeyLess(rest, n);
        MoveOne(ItemsAt(queue, a), rest, n);
        EnqueueInternal(a, rest, rest[n], now);
        rest := rest - {n};
      }
      assert ItemsAt(queue, a) + rest == ItemsAt(queue, a);
    }

    /** Remove a transaction by hash; everything above it in the pending list goes back to
        the queue. Exactly the hash asked for leaves the pool. */
    method RemoveTx(hash: TxHash, outOfBound: bool, now: int)
      requires Sound(0, map[]) && Tidy(pending) && Tidy(queue)
      requires outOfBound ==> priced.Covers()
      modifies this`pending, this`queue, this`beats, all, pendingNonces, priced`stales, priced`urgent, priced`floating
      ensures Sound(0, map[]) && Tidy(pending) && Tidy(queue)
      ensures all.locals == old(all.locals) - {hash} && all.remotes == old(all.remotes) - {hash}
      ensures if outOfBound then priced.Covers() else unchanged(priced)
      ensures View(hash.tx.sender) == if old(Known(all.locals, all.remotes, hash.tx))
                                      then AfterRemoval(old(View(hash.tx.sender)), hash.tx.nonce)
                                      else old(View(hash.tx.sender))
      ensures forall b :: b != hash.tx.sender ==> View(b) == old(View(b))
      ensures forall b :: Shrunk(old(View(b)), View(b))
      ensures old(Executable()) ==> Executable()
    {
      hide Consistent, AfterRemoval, ExecutableAt, Shrunk;
      var found := all.Get(hash);
      if found == None {
        assert all.locals - {hash} == all.locals && all.remotes - {hash} == all.remotes;
      } else {
        RemoveKnown(found.value, outOfBound, now);
        RemovalShrinks(old(View(hash.tx.sender)), hash.tx.nonce);
      }
      forall b | b != hash.tx.sender || found == None
        ensures Shrunk(old(View(b)), View(b))
      {
        NotShrunk(View(b));
      }
      ShrunkStaysExecutable();
    }

    /** Accounts whose pending nonces were only cut stay executable. */
    twostate lemma ShrunkStaysExecutable()
      requires state == old(state) && pendingNonces == old(pendingNonces) && forall b :: Shrunk(old(View(b)), View(b))
      ensures old(Executable()) ==> Executable()
    {
      hide ExecutableAt, Shrunk, TxPool.View;
      forall b
        ensures ExecutableAt(old(View(b)), state.Nonce(b)) ==> ExecutableAt(View(b), state.Nonce(b))
      {
        ShrunkKeepsInterval(old(View(b)), View(b), state.Nonce(b));
      }
    }

    method RemoveKnown(tx: Tx, outOfBound: bool, now: int)
      requires Sound(0, map[]) && Tidy(pending) && Tidy(queue)
      requires outOfBound ==> priced.Covers()
      requires Known(all.locals, all.remotes, tx)
      modifies this`pending, this`queue, this`beats, all, pendingNonces, priced`stales, priced`urgent, priced`floating
      ensures Sound(0, map[]) && Tidy(pending) && Tidy(queue)
      ensures all.locals == old(all.locals) - {HashOf(tx)} && all.remotes == old(all.remotes) - {HashOf(tx)}
      ensures if outOfBound then priced.Covers() else unchanged(priced)
      ensures View(tx.sender) == AfterRemoval(old(View(tx.sender)), tx.nonce)
      ensures forall b :: b != tx.sender ==> View(b) == old(View(b))
    {
      hide Consistent, AfterRemoval;
      NobodyInTransit(pending, queue, all.locals, all.remotes, 0, tx.sender);
      all.Remove(HashOf(tx));
      if outOfBound {
        priced.Removed(1);
      }
      if tx.sender in pending && tx.nonce in pending[tx.sender].items {
        RemovePending(tx, now, old(all.locals), old(all.remotes));
      } else {
        RemoveQueued(tx, old(all.locals), old(all.remotes));
      }
      NobodyInTransit(pending, queue, all.locals, all.remotes, tx.sender, 0);
    }

    /** The lookup has just forgotten `tx`, which the lists still hold. */
    ghost predicate JustForgotten(tx: Tx, locals: map<TxHash, Tx>, remotes: map<TxHash, Tx>)
      reads this, all, priced
    {
      && all.Valid() && priced.Valid() && priced.all == all && queue.Keys <= beats.Keys && Foreign(all.remotes, this.locals)
      && Known(locals, remotes, tx) && Consistent(pending, queue, locals, remotes, tx.sender, map[])
      && all.locals == locals - {HashOf(tx)} && all.remotes == remotes - {HashOf(tx)}
    }

    method RemovePending(tx: Tx, now: int, ghost locals: map<TxHash, Tx>, ghost remotes: map<TxHash, Tx>)
      requires JustForgotten(tx, locals, remotes) && tx.nonce in ItemsAt(pending, tx.sender)
      modifies this`pending, this`queue, this`beats, all, pendingNonces, priced`stales, priced`urgent, priced`floating
      ensures Sound(tx.sender, map[]) && unchanged(priced)
      ensures Tidy(old(pending)) ==> Tidy(pending)
      ensures Tidy(old(queue)) ==> Tidy(queue)
      ensures all.locals == old(all.locals) && all.remotes == old(all.remotes)
      ensures View(tx.sender) == AfterRemoval(old(View(tx.sender)), tx.nonce)
      ensures forall b :: b != tx.sender ==> View(b) == old(View(b))
    {
      hide Consistent, From, Below, Tidy;
      var invalids := TakePending(tx, locals, remotes);
      EnqueueAll(tx.sender, invalids, now);
      pendingNonces.SetIfLower(tx.sender, tx.nonce);
    }

    /** Remove `tx` and everything above it from the pending list. */
    method TakePending(tx: Tx, ghost locals: map<TxHash, Tx>, ghost remotes: map<TxHash, Tx>) returns (invalids: map<nat, Tx>)
      requires JustForgotten(tx, locals, remotes) && tx.nonce in ItemsAt(pending, tx.sender)
      modifies this`pending
      ensures Sound(tx.sender, invalids) && invalids == From(ItemsAt(old(pending), tx.sender), tx.nonce + 1)
      ensures ItemsAt(pending, tx.sender) == Below(ItemsAt(old(pending), tx.sender), tx.nonce)
      ensures forall b :: b != tx.sender ==> ItemsAt(pending, b) == ItemsAt(old(pending), b)
      ensures Tidy(old(pending)) ==> Tidy(pending)
    {
      var list := pending[tx.sender].Removed(tx.nonce);
      invalids := From(pending[tx.sender].items, tx.nonce + 1);
      RemovedFromPending(pending, queue, locals, remotes, tx);
      hide Consistent;
      pending := if list.items == map[] then pending - {tx.sender} else pending[tx.sender := list];
    }

    method RemoveQueued(tx: Tx, ghost locals: map<TxHash, Tx>, ghost remotes: map<TxHash, Tx>)
      requires JustForgotten(tx, locals, remotes) && tx.nonce !in ItemsAt(pending, tx.sender)
      modifies this`queue, this`beats
      ensures Sound(tx.sender, map[])
      ensures Tidy(old(queue)) ==> Tidy(queue)
      ensures View(tx.sender) == AfterRemoval(old(View(tx.sender)), tx.nonce)
      ensures forall b :: b != tx.sender ==> View(b) == old(View(b))
      ensures beats == if tx.sender in queue then old(beats) else old(beats) - {tx.sender}
    {
      var addr := tx.sender;
      RemovedFromQueue(pending, queue, locals, remotes, tx);
      hide Consistent;
      var list := queue[addr].Removed(tx.nonce);
      if list.items == map[] {
        queue, beats := queue - {addr}, beats - {addr};
      } else {
        queue := queue[addr := list];
      }
    }

    /** Kick out the transactions picked by the price heaps. */
    method DropAll(drop: seq<Tx>, now: int)
      requires Sound(0, map[]) && Tidy(pending) && Tidy(queue) && priced.CoversWith(drop) && config.Workable()
      modifies this`pending, this`queue, this`beats, all, pendingNonces, priced`stales, priced`urgent, priced`floating
      ensures Valid()
      ensures forall t :: Known(all.locals, all.remotes, t) <==> old(Known(all.locals, all.remotes, t)) && t !in drop
      ensures (forall t :: t in drop ==> HashOf(t) !in old(all.locals)) ==> all.locals == old(all.locals)
      ensures all.remotes.Keys <= old(all.remotes).Keys
      ensures forall a :: Shrunk(old(View(a)), View(a))
      ensures old(Executable()) ==> Executable()
    {
      hide Consistent, AfterRemoval, TxPool.Executable, Shrunk, Tidy, TxPool.View;
      NoneShrunk();
      for i := 0 to |drop|
        invariant Sound(0, map[]) && Tidy(pending) && Tidy(queue) && unchanged(priced)
        invariant forall t :: HashOf(t) in all.remotes ==> HashOf(t) in old(all.remotes) && t !in drop[..i]
        invariant all.remotes.Keys <= old(all.remotes).Keys
        invariant forall t :: Known(all.locals, all.remotes, t) <==> old(Known(all.locals, all.remotes, t)) && t !in drop[..i]
        invariant (forall t :: t in drop ==> HashOf(t) !in old(all.locals)) ==> all.locals == old(all.locals)
        invariant forall a :: Shrunk(old(View(a)), View(a))
      {
        label Before:
        RemoveTx(HashOf(drop[i]), false, now);
        forall a
          ensures Shrunk(old(View(a)), View(a))
        {
          ShrunkFurther(old(View(a)), old@Before(View(a)), View(a));
        }
        assert drop[..i + 1] == drop[..i] + [drop[i]];
      }
      assert drop[..|drop|] == drop;
      ShrunkStaysExecutable();
    }

    lemma NoneShrunk()
      ensures forall a :: Shrunk(View(a), View(a))
    {
    }

    /** No remote transaction is cheaper by the price comparison of either heap. */
    ghost predicate NoneCheaper(tx: Tx)
      reads this, all, priced
    {
      forall t :: HashOf(t) in all.remotes ==> Cmp(priced.baseFee, t, tx) >= 0 || Cmp(None, t, tx) >= 0
    }

    /** When the pool is over its slot limits, evict cheap remote transactions to make room, as
        many as it takes and no more. No local transaction goes. A remote transaction is turned
        away if no remote one is cheaper, if too much was evicted since the last run, or if all
        remote transactions together would not make the room. */
    method MakeRoom(tx: Tx, isLocal: bool, now: int) returns (err: Option<PoolError>, ghost drop: seq<Tx>)
      requires Valid()
      modifies this`pending, this`queue, this`beats, this`changesSinceReorg, all, pendingNonces
      modifies priced`stales, priced`urgent, priced`floating
      ensures Valid() && all.locals == old(all.locals) && all.remotes.Keys <= old(all.remotes).Keys
      ensures old(Executable()) ==> Executable()
      ensures forall a :: Shrunk(old(View(a)), View(a))
      ensures GainsOnly(old(all.locals), old(all.remotes), all.locals, all.remotes, tx, false)
      ensures err != None ==> LosesOnly(old(all.locals), old(all.remotes), all.locals, all.remotes, tx, false, config.priceBump)
      ensures err == None || err == Some(Underpriced) || err == Some(TxPoolOverflow)
      ensures err == Some(Underpriced) ==> !isLocal && NoneCheaper(tx)
      ensures isLocal && old(changesSinceReorg) <= config.globalSlots / 4 ==> err == None
      ensures !isLocal && err != Some(Underpriced) ==> old(SomeCheaper(tx)) || old(all.remotes) == map[]
      ensures err == Some(TxPoolOverflow) && old(changesSinceReorg) <= config.globalSlots / 4 ==>
                !isLocal && Sums.Total(old(all.remotes), SlotsOf) < old(Excess(tx))
      ensures changesSinceReorg == old(changesSinceReorg) + |drop| && (err != None ==> drop == [])
      ensures forall t :: Known(all.locals, all.remotes, t) <==> old(Known(all.locals, all.remotes, t)) && t !in drop
      ensures err == None ==> SlotSum(drop) >= old(Excess(tx)) || (isLocal && forall t :: HashOf(t) in old(all.remotes) ==> t in drop)
      ensures drop != [] ==> SlotSum(drop[..|drop| - 1]) < old(Excess(tx))
    {
      hide Consistent, ExecutableAt, Shrunk, Tidy, TxPool.NoneCheaper, TxPool.SomeCheaper, SlotSum;
      NoneShrunk();
      if !isLocal {
        var worst := TooCheap(tx);
        if worst {
          return Some(Underpriced), [];
        }
      }
      if changesSinceReorg > config.globalSlots / 4 {
        return Some(TxPoolOverflow), [];
      }
      ghost var remotes := all.remotes;
      var picked, success := priced.Discard(all.slots - (config.globalSlots + config.globalQueue) + tx.slots, isLocal);
      if !isLocal && !success {
        return Some(TxPoolOverflow), [];
      }
      changesSinceReorg := changesSinceReorg + |picked|;
      DropAll(picked, now);
      return None, picked;
    }

    /** No remote transaction is cheaper. */
    method TooCheap(tx: Tx) returns (worst: bool)
      requires Valid()
      modifies priced`stales, priced`urgent, priced`floating
      ensures Valid() && priced.baseFee == old(priced.baseFee)
      ensures worst ==> NoneCheaper(tx)
      ensures !worst ==> old(SomeCheaper(tx)) || all.remotes == map[]
    {
      hide Consistent, Tidy, Cmp;
      worst := priced.Underpriced(tx);
      assert forall h :: h in all.remotes ==> priced.Live(all.remotes[h]);
    }

    /** The slots by which the pool would be over its limits with one more transaction. */
    function Excess(tx: Tx): int
      reads this, all
    {
      all.slots - (config.globalSlots + config.globalQueue) + tx.slots
    }

    /** A remote transaction is cheaper by the price comparison of one of the heaps. */
    ghost predicate SomeCheaper(tx: Tx)
      reads this, all, priced
    {
      exists t :: HashOf(t) in all.remotes && (Cmp(priced.baseFee, t, tx) < 0 || Cmp(None, t, tx) < 0)
    }

    /** Overwrite the pending transaction with the same nonce, if the new one pays enough more. */
    method ReplacePending(tx: Tx, isLocal: bool, now: int) returns (inserted: bool)
      requires Valid() && !Known(all.locals, all.remotes, tx) && (tx.sender in locals ==> isLocal)
      requires tx.nonce in ItemsAt(pending, tx.sender)
      modifies this`pending, this`beats, all, priced`stales, priced`urgent, priced`floating
      ensures Valid()
      ensures inserted == Outbids(tx, ItemsAt(old(pending), tx.sender)[tx.nonce], config.priceBump)
      ensures ItemsAt(pending, tx.sender) == if inserted then ItemsAt(old(pending), tx.sender)[tx.nonce as nat := tx]
                                             else ItemsAt(old(pending), tx.sender)
      ensures forall b :: b != tx.sender ==> ItemsAt(pending, b) == ItemsAt(old(pending), b)
      ensures GainsOnly(old(all.locals), old(all.remotes), all.locals, all.remotes, tx, inserted)
      ensures LosesOnly(old(all.locals), old(all.remotes), all.locals, all.remotes, tx, inserted, config.priceBump)
      ensures SparesLocals(old(all.locals), all.locals, tx, inserted, config.priceBump)
      ensures FiledAs(tx, isLocal, inserted, old(all.locals), old(all.remotes), all.locals, all.remotes)
      ensures beats == if inserted then old(beats)[tx.sender := now] else old(beats)
    {
      hide Consistent, Known, Tidy, GainsOnly, LosesOnly, SparesLocals, Outbids, FiledAs;
      NothingFiled(tx, isLocal, all.locals, all.remotes);
      NothingGainedOrLost(all.locals, all.remotes, tx, config.priceBump);
      var list := pending[tx.sender];
      var other := list.items[tx.nonce];
      OwnNonces(pending, queue, all.locals, all.remotes, tx.sender, tx.nonce);
      TidyWith(pending, tx.sender, list, tx);
      if !list.Accepts(tx, config.priceBump) {
        return false;
      }
      pending := pending[tx.sender := list.Added(tx)];
      SwapKnown(other, tx, isLocal);
      OnlySwapped(old(all.locals), old(all.remotes), all.locals, all.remotes, tx, true, other, config.priceBump);
      ReplacedInPending(old(pending), queue, old(all.locals), old(all.remotes), all.locals, all.remotes, 0, tx);
      beats := beats[tx.sender := now];
      return true;
    }

    /** Put a transaction new to the pool into the queue, where it may replace another. */
    method QueueNew(tx: Tx, isLocal: bool, now: int) returns (replaced: bool, err: Option<PoolError>)
      requires Valid() && !Known(all.locals, all.remotes, tx) && (tx.sender in locals ==> isLocal)
      requires tx.nonce !in ItemsAt(pending, tx.sender)
      modifies this`queue, this`beats, all, priced`stales, priced`urgent, priced`floating
      ensures Valid()
      ensures replaced <==> err == None && tx.nonce in ItemsAt(old(queue), tx.sender)
      ensures err == if old(QueueList(tx.sender)).Accepts(tx, config.priceBump) then None else Some(ReplaceUnderpriced)
      ensures ItemsAt(queue, tx.sender) == if err == None then ItemsAt(old(queue), tx.sender)[tx.nonce as nat := tx]
                                           else ItemsAt(old(queue), tx.sender)
      ensures forall b :: b != tx.sender ==> ItemsAt(queue, b) == ItemsAt(old(queue), b)
      ensures GainsOnly(old(all.locals), old(all.remotes), all.locals, all.remotes, tx, err == None)
      ensures LosesOnly(old(all.locals), old(all.remotes), all.locals, all.remotes, tx, replaced, config.priceBump)
      ensures SparesLocals(old(all.locals), all.locals, tx, replaced, config.priceBump)
      ensures FiledAs(tx, isLocal, err == None, old(all.locals), old(all.remotes), all.locals, all.remotes)
    {
      hide Consistent, Known, Keyed, GainsOnly, LosesOnly, SparesLocals, Outbids, ItemsAt, Tidy, TxListState.Added, TxListState.Accepts;
      ghost var list := QueueList(tx.sender);
      QueueListFacts(tx);
      OwnNonces(pending, queue, all.locals, all.remotes, tx.sender, tx.nonce);
      KeyedAt(pending, queue, all.locals, all.remotes, tx.sender);
      NothingGainedOrLost(all.locals, all.remotes, tx, config.priceBump);
      replaced, err := EnqueueTx(tx, isLocal, true, now);
      if err == None {
        ReplacedAt(old(queue), tx.sender, list.Added(tx));
        TidyWith(old(queue), tx.sender, list, tx);
        OnlySwapped(old(all.locals), old(all.remotes), all.locals, all.remotes, tx, replaced,
                    if replaced then list.items[tx.nonce] else tx, config.priceBump);
        AddedToQueue(pending, old(queue), old(all.locals), old(all.remotes), all.locals, all.remotes, 0, tx, list);
      }
    }

    lemma QueueListFacts(tx: Tx)
      ensures QueueList(tx.sender).items == ItemsAt(queue, tx.sender)
      ensures QueueList(tx.sender).Added(tx).items == ItemsAt(queue, tx.sender)[tx.nonce as nat := tx]
      ensures QueueList(tx.sender).Accepts(tx, config.priceBump) <==>
                tx.nonce !in ItemsAt(queue, tx.sender) || Outbids(tx, ItemsAt(queue, tx.sender)[tx.nonce], config.priceBump)
    {
    }

    /** Make an account local, and its remote transactions with it. */
    method MakeLocal(a: Address)
      requires Valid()
      modifies this`locals, all, priced`stales, priced`urgent, priced`floating
      ensures Valid() && locals == old(locals) + {a}
      ensures forall h :: h in all.remotes <==> h in old(all.remotes) && h.tx.sender !in locals
      ensures forall t :: Known(all.locals, all.remotes, t) <==> old(Known(all.locals, all.remotes, t))
      ensures old(all.locals).Keys <= all.locals.Keys
      ensures forall h :: h in all.locals ==> h in old(all.locals) || h.tx.sender == a
    {
      locals := locals + {a};
      ghost var locals0, remotes0 := all.locals, all.remotes;
      var migrated := all.RemoteToLocals(locals);
      assert forall t :: Known(all.locals, all.remotes, t) <==> all.Has(t);
      assert forall t :: Known(locals0, remotes0, t) <==> old(all.Has(t));
      KnownAlike(pending, queue, locals0, remotes0, all.locals, all.remotes, 0, map[]);
      priced.Removed(migrated);
      forall h
        ensures h in locals0 ==> h in all.locals
        ensures h in all.locals ==> h in locals0 || h.tx.sender == a
      {
        assert old(all.Has(h.tx)) <==> h in locals0 || h in remotes0;
        assert all.Has(h.tx) <==> h in all.locals || h in all.remotes;
      }
    }

    /** Set the least tip; raising it drops exactly the remote transactions below it. */
    method SetGasPrice(price: int, now: int)
      requires Valid()
      modifies this`gasPrice, this`pending, this`queue, this`beats, all, pendingNonces
      modifies priced`stales, priced`urgent, priced`floating
      ensures Valid() && gasPrice == price
      ensures forall t :: Known(all.locals, all.remotes, t) <==>
                && old(Known(all.locals, all.remotes, t))
                && !(price > old(gasPrice) && HashOf(t) in old(all.remotes) && t.tipCap < price)
      ensures old(Executable()) ==> Executable()
    {
      hide TxPool.Executable, Consistent, Tidy, Known;
      var before := gasPrice;
      SetPriceOnly(price);
      if price > before {
        var drop := all.RemotesBelowTip(price);
        DropAll(drop, now);
        priced.Removed(|drop|);
      }
    }

    method SetPriceOnly(price: int)
      requires Valid()
      modifies this`gasPrice
      ensures Valid() && gasPrice == price && (old(Executable()) ==> Executable())
    {
      gasPrice := price;
      assert forall a :: View(a) == old(View(a));
    }

    predicate HasRoomFor(slots: nat)
      reads this, all
    {
      all.slots + slots <= config.globalSlots + config.globalQueue
    }

    /** Insert a new transaction: over a pending one with its nonce, or else into the queue.
        Accepted, it is known and admissible; nothing else becomes known; and while there is
        room, all that is lost is a transaction it outbids at its nonce. Local transactions are
        never lost in another way. It is filed as local exactly if it is added as such or its account
        is local; and its account becomes local if it is added as such and goes to the queue. */
    method Add(sub: Submission, local: bool, now: int) returns (replaced: bool, err: Option<PoolError>)
      requires Valid()
      modifies this`pending, this`queue, this`beats, this`locals, this`changesSinceReorg, all, pendingNonces
      modifies priced`stales, priced`urgent, priced`floating
      ensures Valid()
      ensures old(Executable()) ==> Executable()
      ensures forall a :: Shrunk(old(View(a)), View(a))
      ensures old(Known(all.locals, all.remotes, sub.tx)) ==> err == Some(AlreadyKnown)
      ensures err == None ==> old(Admissible(sub.tx, local || sub.tx.sender in locals, state, gasPrice))
      ensures GainsOnly(old(all.locals), old(all.remotes), all.locals, all.remotes, sub.tx, err == None)
      ensures SparesLocals(old(all.locals), all.locals, sub.tx, replaced, config.priceBump)
      ensures old(HasRoomFor(sub.tx.slots)) ==>
                LosesOnly(old(all.locals), old(all.remotes), all.locals, all.remotes, sub.tx, replaced, config.priceBump)
      ensures err == None ==>
                && (HashOf(sub.tx) in all.locals <==> local || sub.tx.sender in old(locals))
                && (HashOf(sub.tx) in all.remotes <==> !local && sub.tx.sender !in old(locals))
      ensures FiledAs(sub.tx, local || sub.tx.sender in old(locals), err == None, old(all.locals), old(all.remotes), all.locals, all.remotes)
      ensures locals == if err == None && local && Holds(View(sub.tx.sender).queued, sub.tx) then old(locals) + {sub.tx.sender}
                        else old(locals)
      ensures (replaced ==> err == None) && all.slots <= old(all.slots) + sub.tx.slots
      ensures old(changesSinceReorg) <= changesSinceReorg && (old(HasRoomFor(sub.tx.slots)) ==> changesSinceReorg == old(changesSinceReorg))
      ensures old(HasRoomFor(sub.tx.slots)) ==>
                && (!old(Known(all.locals, all.remotes, sub.tx)) ==>
                      err == old(Verdict(View(sub.tx.sender), sub, local || sub.tx.sender in locals)))
                && replaced == (err == None && !NonceIsFree(old(View(sub.tx.sender)), sub.tx.nonce))
                && View(sub.tx.sender) == old(Offered(View(sub.tx.sender), sub, local || sub.tx.sender in locals))
                && forall b :: b != sub.tx.sender ==> View(b) == old(View(b))
      ensures old(HasRoomFor(sub.tx.slots)) ==>
                && (err == None <==>
                    && ValidateTx(sub, local || sub.tx.sender in old(locals), state, gasPrice) == None
                    && !old(Known(all.locals, all.remotes, sub.tx)) && OutbidsAny(sub.tx, old(View(sub.tx.sender)), config.priceBump))
                && (err == None ==> IsPut(sub.tx, old(View(sub.tx.sender)), View(sub.tx.sender)))
                && (err != None ==> View(sub.tx.sender) == old(View(sub.tx.sender)))
    {
      hide *;
      var tx := sub.tx;
      BeforeAdding(sub, local || tx.sender in locals);
      var found := all.Get(HashOf(tx));
      if found != None {
        return false, Some(AlreadyKnown);
      }
      var isLocal := local || tx.sender in locals;
      err := ValidateTx(sub, isLocal, state, gasPrice);
      if err != None {
        return false, err;
      }
      replaced, err := Admit(tx, local, isLocal, now);
      SlotsCounted();
      SlotsGained(old(all.locals), old(all.remotes), all.locals, all.remotes, tx, err == None);
      WhereFiled(tx, isLocal, err == None, old(all.locals), old(all.remotes), all.locals, all.remotes);
    }

    lemma BeforeAdding(sub: Submission, isLocal: bool)
      requires Valid()
      ensures all.Valid() && (all.Has(sub.tx) <==> Known(all.locals, all.remotes, sub.tx))
      ensures GainsOnly(all.locals, all.remotes, all.locals, all.remotes, sub.tx, false)
      ensures LosesOnly(all.locals, all.remotes, all.locals, all.remotes, sub.tx, false, config.priceBump)
      ensures SparesLocals(all.locals, all.locals, sub.tx, false, config.priceBump)
      ensures FiledAs(sub.tx, isLocal, false, all.locals, all.remotes, all.locals, all.remotes)
      ensures forall a :: Shrunk(View(a), View(a))
      ensures Hashed(all.locals) && Hashed(all.remotes) && all.locals.Keys !! all.remotes.Keys
      ensures all.slots == Sums.Total(all.locals, SlotsOf) + Sums.Total(all.remotes, SlotsOf)
      ensures var acc := View(sub.tx.sender);
              && (Known(all.locals, all.remotes, sub.tx) ==> Offered(acc, sub, isLocal) == acc)
              && (ValidateTx(sub, isLocal, state, gasPrice) != None ==>
                    Offered(acc, sub, isLocal) == acc && Verdict(acc, sub, isLocal) == ValidateTx(sub, isLocal, state, gasPrice))
      ensures var acc := View(sub.tx.sender);
              ValidateTx(sub, isLocal, state, gasPrice) == None ==>
                && Offered(acc, sub, isLocal) == AfterOffer(acc, sub.tx, config.priceBump)
                && (GetsIn(acc, sub.tx, config.priceBump) <==> OutbidsAny(sub.tx, acc, config.priceBump))
                && Verdict(acc, sub, isLocal) == (if GetsIn(acc, sub.tx, config.priceBump) then None else Some(ReplaceUnderpriced))
                && if OutbidsAny(sub.tx, acc, config.priceBump) then IsPut(sub.tx, acc, AfterOffer(acc, sub.tx, config.priceBump))
                   else AfterOffer(acc, sub.tx, config.priceBump) == acc
    {
      var tx := sub.tx;
      assert all.Has(tx) <==> Known(all.locals, all.remotes, tx);
      SlotsCounted();
      KnownIsNotOffered(pending, queue, all.locals, all.remotes, View(tx.sender), sub, isLocal, state, gasPrice, config.priceBump);
      hide Known, GainsOnly, LosesOnly, SparesLocals, TxPool.Valid, ValidateTx, Shrunk, TxPool.View, Hashed, OutbidsAny, IsPut, FiledAs,
           GetsIn;
      NothingGainedOrLost(all.locals, all.remotes, tx, config.priceBump);
      NothingFiled(tx, isLocal, all.locals, all.remotes);
      NoneShrunk();
      PutIfAccepted(View(tx.sender), sub, isLocal, state, gasPrice, config.priceBump);
    }

    /** Let in a transaction that passed all checks, making room for it first. */
    method Admit(tx: Tx, local: bool, isLocal: bool, now: int) returns (replaced: bool, err: Option<PoolError>)
      requires Valid() && !Known(all.locals, all.remotes, tx) && (isLocal <==> local || tx.sender in locals)
      modifies this`pending, this`queue, this`beats, this`locals, this`changesSinceReorg, all, pendingNonces
      modifies priced`stales, priced`urgent, priced`floating
      ensures Valid()
      ensures old(Executable()) ==> Executable()
      ensures forall a :: Shrunk(old(View(a)), View(a))
      ensures GainsOnly(old(all.locals), old(all.remotes), all.locals, all.remotes, tx, err == None)
      ensures SparesLocals(old(all.locals), all.locals, tx, replaced, config.priceBump)
      ensures FiledAs(tx, isLocal, err == None, old(all.locals), old(all.remotes), all.locals, all.remotes)
      ensures locals == if err == None && local && Holds(View(tx.sender).queued, tx) then old(locals) + {tx.sender} else old(locals)
      ensures (replaced ==> err == None) && old(changesSinceReorg) <= changesSinceReorg
      ensures old(HasRoomFor(tx.slots)) ==>
                && changesSinceReorg == old(changesSinceReorg)
                && LosesOnly(old(all.locals), old(all.remotes), all.locals, all.remotes, tx, replaced, config.priceBump)
                && err == (if GetsIn(old(View(tx.sender)), tx, config.priceBump) then None else Some(ReplaceUnderpriced))
                && replaced == (err == None && !NonceIsFree(old(View(tx.sender)), tx.nonce))
                && View(tx.sender) == AfterOffer(old(View(tx.sender)), tx, config.priceBump)
                && forall b :: b != tx.sender ==> View(b) == old(View(b))
    {
      hide Known, GainsOnly, LosesOnly, SparesLocals, TxPool.Valid, TxPool.Executable, GetsIn, AfterOffer, Shrunk, NonceIsFree,
           TxPool.View, Holds;
      NothingGainedOrLost(all.locals, all.remotes, tx, config.priceBump);
      if all.slots + tx.slots <= config.globalSlots + config.globalQueue {
        replaced, err := Insert(tx, local, isLocal, now);
        return;
      }
      ghost var drop;
      err, drop := MakeRoom(tx, isLocal, now);
      if err != None {
        return false, err;
      }
      StillUnknown(old(all.locals), old(all.remotes), all.locals, all.remotes, tx);
      ghost var remotes1 := all.remotes;
      label Roomy:
      replaced, err := Insert(tx, local, isLocal, now);
      GainsCompose(old(all.locals), old(all.remotes), old(all.locals), remotes1, all.locals, all.remotes, tx, err == None);
      forall a
        ensures Shrunk(old(View(a)), View(a))
      {
        ShrunkFurther(old(View(a)), old@Roomy(View(a)), View(a));
      }
    }

    lemma SlotsCounted()
      requires Valid()
      ensures Hashed(all.locals) && Hashed(all.remotes) && all.locals.Keys !! all.remotes.Keys
      ensures all.slots == Sums.Total(all.locals, SlotsOf) + Sums.Total(all.remotes, SlotsOf)
    {
    }

    /** The verdict on a submission new to a pool that has room for it. */
    function Verdict(acc: Account, sub: Submission, isLocal: bool): Option<PoolError>
      reads this
    {
      var err := ValidateTx(sub, isLocal, state, gasPrice);
      if err == None && !GetsIn(acc, sub.tx, config.priceBump) then Some(ReplaceUnderpriced) else err
    }

    /** What a submission makes of its account then. */
    function Offered(acc: Account, sub: Submission, isLocal: bool): Account
      reads this
    {
      AfterSubmission(acc, sub, isLocal, state, gasPrice, config.priceBump)
    }

    method Insert(tx: Tx, local: bool, isLocal: bool, now: int) returns (replaced: bool, err: Option<PoolError>)
      requires Valid() && !Known(all.locals, all.remotes, tx) && (isLocal <==> local || tx.sender in locals)
      modifies this`pending, this`queue, this`beats, this`locals, all, priced`stales, priced`urgent, priced`floating
      ensures Valid()
      ensures old(Executable()) ==> Executable()
      ensures forall a :: Shrunk(old(View(a)), View(a))
      ensures GainsOnly(old(all.locals), old(all.remotes), all.locals, all.remotes, tx, err == None)
      ensures LosesOnly(old(all.locals), old(all.remotes), all.locals, all.remotes, tx, replaced, config.priceBump)
      ensures SparesLocals(old(all.locals), all.locals, tx, replaced, config.priceBump)
      ensures FiledAs(tx, isLocal, err == None, old(all.locals), old(all.remotes), all.locals, all.remotes)
      ensures locals == if err == None && local && Holds(View(tx.sender).queued, tx) then old(locals) + {tx.sender} else old(locals)
      ensures err == if GetsIn(old(View(tx.sender)), tx, config.priceBump) then None else Some(ReplaceUnderpriced)
      ensures replaced == (err == None && !NonceIsFree(old(View(tx.sender)), tx.nonce))
      ensures View(tx.sender) == AfterOffer(old(View(tx.sender)), tx, config.priceBump)
      ensures forall b :: b != tx.sender ==> View(b) == old(View(b))
    {
      hide TxPool.Valid, TxPool.Executable, GainsOnly, LosesOnly, SparesLocals, Shrunk, GetsIn, AfterOffer;
      replaced, err := InsertNew(tx, local, isLocal, now);
      NoneShrunk();
      OfferShrinks(old(View(tx.sender)), tx, config.priceBump);
      forall b
        ensures Shrunk(old(View(b)), View(b))
      {
        NotShrunk(old(View(b)));
      }
      ShrunkStaysExecutable();
    }

    method InsertNew(tx: Tx, local: bool, isLocal: bool, now: int) returns (replaced: bool, err: Option<PoolError>)
      requires Valid() && !Known(all.locals, all.remotes, tx) && (isLocal <==> local || tx.sender in locals)
      modifies this`pending, this`queue, this`beats, this`locals, all, priced`stales, priced`urgent, priced`floating
      ensures Valid()
      ensures GainsOnly(old(all.locals), old(all.remotes), all.locals, all.remotes, tx, err == None)
      ensures LosesOnly(old(all.locals), old(all.remotes), all.locals, all.remotes, tx, replaced, config.priceBump)
      ensures SparesLocals(old(all.locals), all.locals, tx, replaced, config.priceBump)
      ensures FiledAs(tx, isLocal, err == None, old(all.locals), old(all.remotes), all.locals, all.remotes)
      ensures locals == if err == None && local && Holds(View(tx.sender).queued, tx) then old(locals) + {tx.sender} else old(locals)
      ensures err == if GetsIn(old(View(tx.sender)), tx, config.priceBump) then None else Some(ReplaceUnderpriced)
      ensures replaced == (err == None && !NonceIsFree(old(View(tx.sender)), tx.nonce))
      ensures View(tx.sender) == AfterOffer(old(View(tx.sender)), tx, config.priceBump)
      ensures forall b :: b != tx.sender ==> View(b) == old(View(b))
    {
      var from := tx.sender;
      hide Consistent, Tidy, Known, Outbids, GainsOnly, LosesOnly, SparesLocals, FiledAs;
      if from in pending && tx.nonce in pending[from].items {
        var inserted := ReplacePending(tx, isLocal, now);
        DisjointViews();
        assert tx.nonce in View(from).pending;
        return inserted, if inserted then None else Some(ReplaceUnderpriced);
      }
      replaced, err := QueueNew(tx, isLocal, now);
      if err == None && local && from !in locals {
        ghost var locals1, remotes1 := all.locals, all.remotes;
        MakeLocal(from);
        StillSwapped(old(all.locals), old(all.remotes), locals1, remotes1, all.locals, all.remotes, tx, replaced, config.priceBump);
        StillFiled(tx, old(all.locals), old(all.remotes), locals1, remotes1, all.locals, all.remotes);
      }
    }

    method ForgetOne(a: Address, ghost limbo: map<nat, Tx>, n: nat, tx: Tx)
      requires Sound(a, limbo) && n in limbo && tx == limbo[n]
      modifies all
      ensures Sound(a, limbo - {n}) && (old(priced.Covers()) ==> priced.Covers())
      ensures all.locals == old(all.locals) - {HashOf(tx)} && all.remotes == old(all.remotes) - {HashOf(tx)}
    {
      hide Consistent;
      Forgotten(pending, queue, all.locals, all.remotes, a, limbo, n);
      all.Remove(HashOf(tx));
    }

    /** Forget some of the transactions that have left the lists. */
    method ForgetAll(a: Address, ghost limbo: map<nat, Tx>, gone: map<nat, Tx>)
      requires Sound(a, limbo) && PartOf(gone, limbo) && Keyed(gone) && OwnedBy(gone, a)
      modifies all
      ensures Sound(a, limbo - gone.Keys) && (old(priced.Covers()) ==> priced.Covers())
      ensures Forgets(old(all.locals), old(all.remotes), all.locals, all.remotes, a, gone)
    {
      hide Consistent, Forgets;
      var rest := gone;
      assert limbo - (gone - rest.Keys).Keys == limbo && gone - rest.Keys == map[];
      assert Forgets(all.locals, all.remotes, all.locals, all.remotes, a, map[]) by { NothingForgotten(all.locals, all.remotes, a); }
      while rest != map[]
        invariant PartOf(rest, gone)
        invariant Sound(a, limbo - (gone - rest.Keys).Keys) && (old(priced.Covers()) ==> priced.Covers())
        invariant Forgets(old(all.locals), old(all.remotes), all.locals, all.remotes, a, gone - rest.Keys)
        decreases |rest|
      {
        var n :| n in rest;
        OneKeyLess(rest, n);
        ForgetsOneMore(old(all.locals), old(all.remotes), all.locals, all.remotes, a, gone, rest, n);
        OneMoreGone(limbo, gone, rest, n);
        ForgetOne(a, limbo - (gone - rest.Keys).Keys, n, rest[n]);
        rest := rest - {n};
      }
      assert gone - rest.Keys == gone;
    }

    /** Replace the queue list of an account by a part of it and forget the rest. */
    method CutQueue(a: Address, kept: TxListState) returns (count: nat)
      requires Sound(a, map[]) && a in queue
      requires !kept.strict && kept.Valid() && PartOf(kept.items, queue[a].items)
      modifies this`queue, all
      ensures Sound(a, map[]) && (old(priced.Covers()) ==> priced.Covers())
      ensures queue == old(queue)[a := kept] && queue - {a} == old(queue) - {a}
      ensures ItemsAt(queue, a) == kept.items
      ensures forall b :: b != a ==> ItemsAt(queue, b) == ItemsAt(old(queue), b)
      ensures Forgets(old(all.locals), old(all.remotes), all.locals, all.remotes, a, Difference(old(queue)[a].items, kept.items))
    {
      OutOfQueue(pending, queue, all.locals, all.remotes, a, kept);
      var dropped := Difference(queue[a].items, kept.items);
      InTransitFacts(pending, queue[a := kept], all.locals, all.remotes, a, dropped);
      ReplacedAt(queue, a, kept);
      hide Consistent, Difference, ItemsAt;
      queue := queue[a := kept];
      assert dropped - dropped.Keys == map[];
      ForgetAll(a, dropped, dropped);
      count := |dropped|;
    }

    /** Promote one transaction on its way out of the queue: it always gets in, replaces
        nothing and stays known. */
    method PromoteInternal(a: Address, ghost limbo: map<nat, Tx>, tx: Tx, now: int)
      requires Sound(a, limbo) && Holds(limbo, tx)
      modifies this`pending, this`beats, all, pendingNonces, priced`stales, priced`urgent, priced`floating
      ensures Sound(a, limbo - {tx.nonce}) && unchanged(priced)
      ensures all.locals == old(all.locals) && all.remotes == old(all.remotes)
      ensures ItemsAt(pending, a) == ItemsAt(old(pending), a)[tx.nonce := tx]
      ensures forall b :: b != a ==> ItemsAt(pending, b) == ItemsAt(old(pending), b)
      ensures Tidy(old(pending)) ==> Tidy(pending)
      ensures pendingNonces.Value(a) == tx.nonce + 1
      ensures forall b :: b != a ==> pendingNonces.Value(b) == old(pendingNonces.Value(b))
    {
      IntoPending(pending, queue, all.locals, all.remotes, a, limbo, PendingList(a), tx.nonce);
      var inserted := PromoteTx(a, tx, now);
      assert inserted;
    }

    /** Promote the run of transactions from nonce `lo` up to `hi`, in order. */
    method PromoteRun(a: Address, readies: map<nat, Tx>, lo: nat, hi: nat, now: int) returns (promoted: seq<Tx>)
      requires Sound(a, readies) && Keyed(readies)
      requires lo <= hi && forall n :: n in readies <==> lo <= n < hi
      modifies this`pending, this`beats, all, pendingNonces, priced`stales, priced`urgent, priced`floating
      ensures Sound(a, map[]) && unchanged(priced)
      ensures all.locals == old(all.locals) && all.remotes == old(all.remotes)
      ensures ItemsAt(pending, a) == ItemsAt(old(pending), a) + readies
      ensures forall b :: b != a ==> ItemsAt(pending, b) == ItemsAt(old(pending), b)
      ensures Tidy(old(pending)) ==> Tidy(pending)
      ensures pendingNonces.Value(a) == if lo < hi then hi else old(pendingNonces.Value(a))
      ensures forall b :: b != a ==> pendingNonces.Value(b) == old(pendingNonces.Value(b))
      ensures TxSortedMap.IsRun(promoted, readies, lo, hi)
    {
      hide Consistent, ItemsAt, Tidy, TxSortedMap.IsRun, TxPool.Sound, Keyed, From, Holds;
      promoted := [];
      TxSortedMap.EmptyRun(readies, lo);
      var next := lo;
      RunEnds(readies, lo, hi);
      while next < hi
        invariant lo <= next <= hi
        invariant Sound(a, From(readies, next)) && unchanged(priced)
        invariant all.locals == old(all.locals) && all.remotes == old(all.remotes)
        invariant ItemsAt(pending, a) + From(readies, next) == ItemsAt(old(pending), a) + readies
        invariant forall b :: b != a ==> ItemsAt(pending, b) == ItemsAt(old(pending), b)
        invariant Tidy(old(pending)) ==> Tidy(pending)
        invariant pendingNonces.Value(a) == if lo < next then next else old(pendingNonces.Value(a))
        invariant forall b :: b != a ==> pendingNonces.Value(b) == old(pendingNonces.Value(b))
        invariant TxSortedMap.IsRun(promoted, readies, lo, next)
      {
        NextReady(readies, next);
        MoveOne(ItemsAt(pending, a), From(readies, next), next);
        TxSortedMap.RunStep(promoted, readies, lo, next);
        PromoteInternal(a, From(readies, next), readies[next], now);
        promoted := promoted + [readies[next]];
        next := next + 1;
      }
      assert ItemsAt(pending, a) + map[] == ItemsAt(pending, a);
    }

    /** Drop the queued transactions of an account that are too old or too costly. */
    method CleanQueue(a: Address) returns (count: nat)
      requires Sound(a, map[]) && a in queue && priced.Covers()
      modifies this`queue, all
      ensures Sound(a, map[]) && a in queue && priced.Covers()
      ensures View(a) == AfterCleaning(old(View(a)), state.Nonce(a), state.Balance(a), state.gasLimit)
      ensures forall b :: b != a ==> View(b) == old(View(b))
      ensures Tidy(old(queue) - {a}) ==> Tidy(queue - {a})
    {
      assert queue[a].Valid() && !queue[a].strict;
      assert ItemsAt(queue, a) == queue[a].items;
      hide Consistent, Forgets, ItemsAt, Tidy;
      var forwarded := queue[a].Forwarded(state.Nonce(a));
      var forwards := CutQueue(a, forwarded);
      FilterIsExact(forwarded, state.Balance(a), state.gasLimit);
      var filtered := forwarded.Filtered(state.Balance(a), state.gasLimit);
      var drops := CutQueue(a, filtered);
      count := forwards + drops;
    }

    /** Move the executable run of an account's queue to its pending list. */
    method PromoteReadies(a: Address, now: int) returns (promoted: seq<Tx>)
      requires Sound(a, map[]) && a in queue
      modifies this`pending, this`queue, this`beats, all, pendingNonces, priced`stales, priced`urgent, priced`floating
      ensures Sound(a, map[]) && a in queue && unchanged(priced)
      ensures all.locals == old(all.locals) && all.remotes == old(all.remotes)
      ensures View(a) == AfterPromotion(old(View(a)))
      ensures forall b :: b != a ==> View(b) == old(View(b))
      ensures Tidy(old(pending)) ==> Tidy(pending)
      ensures Tidy(old(queue) - {a}) ==> Tidy(queue - {a})
      ensures AreNew(promoted, a, old(View(a)).pending, View(a).pending)
    {
      hide Consistent, Tidy, From, Below, ReadyEnd, AreNew;
      var readies, lo, end := TakeReadies(a);
      promoted := PromoteRun(a, readies, lo, end, now);
      RunMembers(promoted, readies, lo, end);
      RunIsNew(promoted, a, old(ItemsAt(pending, a)), readies);
    }

    /** Take the executable run off an account's queue list. */
    method TakeReadies(a: Address) returns (readies: map<nat, Tx>, lo: nat, end: nat)
      requires Sound(a, map[]) && a in queue
      modifies this`queue, pendingNonces
      ensures Sound(a, readies) && a in queue && Keyed(readies) && OwnedBy(readies, a)
      ensures readies.Keys !! ItemsAt(pending, a).Keys
      ensures end == ReadyEnd(ItemsAt(old(queue), a), old(pendingNonces.Value(a)))
      ensures readies == Below(ItemsAt(old(queue), a), end) && ItemsAt(queue, a) == From(ItemsAt(old(queue), a), end)
      ensures lo <= end && (lo < end <==> end > 0) && forall n :: n in readies <==> lo <= n < end
      ensures forall b :: b != a ==> ItemsAt(queue, b) == ItemsAt(old(queue), b)
      ensures forall b :: pendingNonces.Value(b) == old(pendingNonces.Value(b))
      ensures Tidy(old(queue) - {a}) ==> Tidy(queue - {a})
    {
      var virtual := pendingNonces.Get(a);
      var items := queue[a].items;
      assert Keyed(items) && OwnedBy(items, a);
      end := ReadyEnd(items, virtual);
      var left := queue[a].ReadyTaken(virtual);
      OutOfQueue(pending, queue, all.locals, all.remotes, a, left);
      hide Consistent, Tidy;
      readies := Below(items, end);
      lo := if end > 0 then MinKey(items) else 0;
      assert Difference(items, left.items) == readies;
      RunIsContiguous(items, virtual);
      ReplacedAt(queue, a, left);
      queue := queue[a := left];
    }

    /** Cap the queue list of an account, count what was dropped, and delete the list if
        nothing is left of it. */
    method CapQueue(a: Address, dropped: nat)
      requires Sound(a, map[]) && a in queue && priced.Covers() && Tidy(queue - {a})
      modifies this`queue, this`beats, all, priced`stales, priced`urgent, priced`floating
      ensures Sound(a, map[]) && priced.Covers() && Tidy(queue)
      ensures View(a) == AfterCapping(old(View(a)), a in locals, config.accountQueue)
      ensures forall b :: b != a ==> View(b) == old(View(b))
    {
      hide Consistent, Tidy, ItemsAt;
      var caps := CapNonLocal(a);
      priced.Removed(dropped + caps);
      DeleteEmptyQueue(a);
    }

    method CapNonLocal(a: Address) returns (caps: nat)
      requires Sound(a, map[]) && a in queue && priced.Covers()
      modifies this`queue, all
      ensures Sound(a, map[]) && a in queue && priced.Covers()
      ensures queue - {a} == old(queue) - {a}
      ensures ItemsAt(queue, a) == if a in locals then ItemsAt(old(queue), a)
                                   else Capped(ItemsAt(old(queue), a), config.accountQueue)
      ensures forall b :: b != a ==> ItemsAt(queue, b) == ItemsAt(old(queue), b)
    {
      hide Consistent, Forgets, ItemsAt, Capped, PartOf;
      LooseListAt(pending, queue, all.locals, all.remotes, a);
      caps := 0;
      if a !in locals {
        CapKeepsPart(queue[a], config.accountQueue);
        caps := CutQueue(a, queue[a].CappedAt(config.accountQueue));
      }
    }

    method DeleteEmptyQueue(a: Address)
      requires Sound(a, map[]) && a in queue && Tidy(queue - {a})
      modifies this`queue, this`beats
      ensures Sound(a, map[]) && Tidy(queue)
      ensures forall b :: ItemsAt(queue, b) == ItemsAt(old(queue), b)
      ensures beats == if a in queue then old(beats) else old(beats) - {a}
    {
      EmptyListDropped(pending, queue, all.locals, all.remotes, a, map[], a);
      assert ItemsAt(queue, a) == queue[a].items;
      DeletedAt(queue, a);
      hide Consistent, Tidy, ItemsAt;
      if queue[a].items == map[] {
        queue, beats := queue - {a}, beats - {a};
      }
    }

    /** One account's turn of promoteExecutables. */
    method PromoteAccount(a: Address, now: int) returns (promoted: seq<Tx>)
      requires Valid() && a in queue
      modifies this`pending, this`queue, this`beats, all, pendingNonces, priced`stales, priced`urgent, priced`floating
      ensures Valid()
      ensures View(a) == AfterRound(old(View(a)), state, a, a in locals, config.accountQueue)
      ensures forall b :: b != a ==> View(b) == old(View(b))
      ensures AreNew(promoted, a, old(View(a)).pending, View(a).pending)
    {
      hide TxPool.Sound, TxPricedList.Covers, Tidy, AfterCleaning, AfterPromotion, AfterCapping, TxPool.View, Holds, Consistent, AreNew;
      SoundForAnyone(0, a);
      TidyWithout(queue, a);
      var dropped;
      promoted, dropped := CleanAndPromote(a, now);
      CappingKeepsPending(View(a), a in locals, config.accountQueue);
      CapQueue(a, dropped);
      SoundForAnyone(a, 0);
    }

    method CleanAndPromote(a: Address, now: int) returns (promoted: seq<Tx>, dropped: nat)
      requires Sound(a, map[]) && a in queue && priced.Covers()
      modifies this`pending, this`queue, this`beats, all, pendingNonces, priced`stales, priced`urgent, priced`floating
      ensures Sound(a, map[]) && a in queue && priced.Covers()
      ensures View(a) == AfterPromotion(AfterCleaning(old(View(a)), state.Nonce(a), state.Balance(a), state.gasLimit))
      ensures forall b :: b != a ==> View(b) == old(View(b))
      ensures Tidy(old(pending)) ==> Tidy(pending)
      ensures Tidy(old(queue) - {a}) ==> Tidy(queue - {a})
      ensures AreNew(promoted, a, old(View(a)).pending, View(a).pending)
    {
      hide Consistent, Tidy, AfterCleaning, AfterPromotion, TxPool.View, Holds, AreNew;
      CleaningKeepsPending(View(a), state.Nonce(a), state.Balance(a), state.gasLimit);
      dropped := CleanQueue(a);
      promoted := PromoteReadies(a, now);
    }

    /** Promote the executable transactions of the given accounts: each one's turn is
        independent of the others'. The result lists exactly what became pending, each once, and
        nothing is forgotten but what is too old, cannot be paid for, or is beyond the limit of
        the queue. */
    method PromoteExecutables(accounts: seq<Address>, now: int) returns (promoted: seq<Tx>)
      requires Valid() && Distinct(accounts)
      modifies this`pending, this`queue, this`beats, all, pendingNonces, priced`stales, priced`urgent, priced`floating
      ensures Valid()
      ensures forall a :: View(a) == if a in accounts then AfterRound(old(View(a)), state, a, a in locals, config.accountQueue)
                                     else old(View(a))
      ensures forall a :: a in accounts ==>
                Promotes(old(View(a)), View(a), state.Nonce(a), state.Balance(a), state.gasLimit, a in locals, config.accountQueue)
      ensures NoRepeats(promoted)
      ensures forall t :: t in promoted <==> Holds(View(t.sender).pending, t) && !Holds(old(View(t.sender)).pending, t)
      ensures forall t :: Known(all.locals, all.remotes, t) <==>
                && old(Known(all.locals, all.remotes, t))
                && !(t.sender in accounts
                     && DroppedInRound(old(View(t.sender)), View(t.sender), t, state.Nonce(t.sender), state.Balance(t.sender),
                                       state.gasLimit, t.sender in locals, config.accountQueue))
    {
      hide TxPool.Valid, AfterRound, Promotes, TxPool.View, Holds, NoRepeats, DroppedInRound, Known;
      DisjointViews();
      InViews();
      promoted := PromoteEach(accounts, now);
      InViews();
      forall a | a in accounts
        ensures Promotes(old(View(a)), View(a), state.Nonce(a), state.Balance(a), state.gasLimit, a in locals, config.accountQueue)
      {
        RoundPromotes(old(View(a)), state, a, a in locals, config.accountQueue);
      }
      forall t: Tx | t.sender in accounts
        ensures Known(all.locals, all.remotes, t) <==>
                && old(Known(all.locals, all.remotes, t))
                && !DroppedInRound(old(View(t.sender)), View(t.sender), t, state.Nonce(t.sender), state.Balance(t.sender),
                                   state.gasLimit, t.sender in locals, config.accountQueue)
      {
        WhatPromotionForgets(old(View(t.sender)), View(t.sender), t, state.Nonce(t.sender), state.Balance(t.sender),
                             state.gasLimit, t.sender in locals, config.accountQueue);
      }
    }

    /** A transaction is known exactly if its account has it pending or queued, at its nonce. */
    lemma InViews()
      requires Valid()
      ensures forall t :: Known(all.locals, all.remotes, t) <==> Holds(View(t.sender).pending, t) || Holds(View(t.sender).queued, t)
      ensures forall a :: Keyed(View(a).pending) && Keyed(View(a).queued)
    {
      forall t
        ensures Known(all.locals, all.remotes, t) <==> Holds(View(t.sender).pending, t) || Holds(View(t.sender).queued, t)
      {
        assert Known(all.locals, all.remotes, t) <==> Somewhere(pending, queue, 0, map[], t);
      }
    }

    method PromoteEach(accounts: seq<Address>, now: int) returns (promoted: seq<Tx>)
      requires Valid() && Distinct(accounts)
      modifies this`pending, this`queue, this`beats, all, pendingNonces, priced`stales, priced`urgent, priced`floating
      ensures Valid()
      ensures forall a :: View(a) == if a in accounts then AfterRound(old(View(a)), state, a, a in locals, config.accountQueue)
                                     else old(View(a))
      ensures NoRepeats(promoted)
      ensures forall t :: t in promoted <==> Holds(View(t.sender).pending, t) && !Holds(old(View(t.sender)).pending, t)
    {
      hide TxPool.Valid, AfterRound, Holds, AreNew, NoRepeats;
      promoted := [];
      NothingNew();
      for i := 0 to |accounts|
        invariant Valid() && NoRepeats(promoted)
        invariant forall a :: View(a) == if a in accounts[..i] then AfterRound(old(View(a)), state, a, a in locals, config.accountQueue)
                                         else old(View(a))
        invariant forall t :: t in promoted <==>
                    t.sender in accounts[..i] && Holds(View(t.sender).pending, t) && !Holds(old(View(t.sender)).pending, t)
      {
        var a := accounts[i];
        assert accounts[..i + 1] == accounts[..i] + [a];
        assert a !in accounts[..i];
        if a in queue {
          var batch := PromoteAccount(a, now);
          OneBatchMore(promoted, batch, a, old(View(a)).pending, View(a).pending);
          promoted := promoted + batch;
        } else {
          NoQueueNoRound(View(a), state, a, a in locals, config.accountQueue);
        }
      }
      assert accounts[..|accounts|] == accounts;
    }

    /** A round of promotion keeps every account executable. */
    twostate lemma RoundsKeepNonces(accounts: seq<Address>)
      requires old(Valid()) && state == old(state) && locals == old(locals)
      requires pendingNonces.fallback == old(pendingNonces.fallback)
      requires forall a :: View(a) == if a in accounts then AfterRound(old(View(a)), state, a, a in locals, config.accountQueue)
                                      else old(View(a))
      ensures old(Executable()) ==> Executable()
    {
      forall a
        ensures ExecutableAt(old(View(a)), state.Nonce(a)) ==> ExecutableAt(View(a), state.Nonce(a))
      {
        NobodyInTransit(old(pending), old(queue), old(all.locals), old(all.remotes), 0, a);
        DisjointAt(old(pending), old(queue), old(all.locals), old(all.remotes), a);
        PromotionExtends(old(View(a)), state, a, a in locals, config.accountQueue);
      }
    }

    /** Replace the pending list of an account by a part of it; the rest is on its way. */
    method CutPending(a: Address, kept: TxListState) returns (limbo: map<nat, Tx>)
      requires Sound(a, map[]) && a in pending
      requires kept.strict && kept.Valid() && PartOf(kept.items, pending[a].items)
      modifies this`pending
      ensures Sound(a, limbo) && limbo == Difference(old(pending)[a].items, kept.items)
      ensures Keyed(limbo) && OwnedBy(limbo, a)
      ensures pending == old(pending)[a := kept] && pending - {a} == old(pending) - {a}
      ensures ItemsAt(pending, a) == kept.items
      ensures forall b :: b != a ==> ItemsAt(pending, b) == ItemsAt(old(pending), b)
    {
      hide Consistent, Difference;
      OutOfPending(pending, queue, all.locals, all.remotes, a, kept);
      limbo := Difference(pending[a].items, kept.items);
      InTransitFacts(pending[a := kept], queue, all.locals, all.remotes, a, limbo);
      ReplacedAt(pending, a, kept);
      pending := pending[a := kept];
    }

    /** Drop the pending transactions of an account below its state nonce. */
    method DemoteOld(a: Address)
      requires Sound(a, map[]) && a in pending && priced.Covers()
      modifies this`pending, all
      ensures Sound(a, map[]) && a in pending && priced.Covers()
      ensures pending - {a} == old(pending) - {a}
      ensures View(a) == WithoutOld(old(View(a)), state.Nonce(a))
      ensures forall b :: b != a ==> View(b) == old(View(b))
    {
      assert pending[a].Valid() && pending[a].strict && ItemsAt(pending, a) == pending[a].items;
      hide Consistent, Forgets, ItemsAt, Difference;
      var olds := CutPending(a, pending[a].Forwarded(state.Nonce(a)));
      assert olds - olds.Keys == map[];
      ForgetAll(a, olds, olds);
    }

    /** Drop the pending transactions of an account that are too costly, and queue the
        ones that come after. */
    method DemoteCostly(a: Address, now: int)
      requires Sound(a, map[]) && a in pending && priced.Covers()
      modifies this`pending, this`queue, this`beats, all, priced`stales, priced`urgent, priced`floating
      ensures Sound(a, map[]) && a in pending && priced.Covers()
      ensures pending - {a} == old(pending) - {a} && (Tidy(old(queue)) ==> Tidy(queue))
      ensures View(a) == WithoutCostly(old(View(a)), state.Balance(a), state.gasLimit)
      ensures forall b :: b != a ==> View(b) == old(View(b))
    {
      hide Consistent, Forgets, ItemsAt, Tidy, Affordable, Stranded, Difference, OwnedBy, Keyed, PartOf;
      StrictListAt(pending, queue, all.locals, all.remotes, a);
      FilterKeepsPart(pending[a], state.Balance(a), state.gasLimit);
      ghost var items := pending[a].items;
      var kept := pending[a].Filtered(state.Balance(a), state.gasLimit);
      var limbo := CutPending(a, kept);
      var drops := TooCostly(limbo, state.Balance(a), state.gasLimit);
      SplitOffCostly(items, kept.items, limbo, drops, state.Balance(a), state.gasLimit);
      ForgetAll(a, limbo, drops);
      EnqueueAll(a, limbo - drops.Keys, now);
    }

    /** If the pending list does not start at the state nonce, queue all of it. */
    method DemoteGapped(a: Address, now: int)
      requires Sound(a, map[]) && a in pending && priced.Covers()
      modifies this`pending, this`queue, this`beats, all, priced`stales, priced`urgent, priced`floating
      ensures Sound(a, map[]) && a in pending && priced.Covers()
      ensures pending - {a} == old(pending) - {a} && (Tidy(old(queue)) ==> Tidy(queue))
      ensures View(a) == WithoutGapped(old(View(a)), state.Nonce(a))
      ensures forall b :: b != a ==> View(b) == old(View(b))
    {
      assert ItemsAt(pending, a) == pending[a].items;
      assert View(a) == old(View(a));
      hide TxPool.Sound, TxPricedList.Covers, ItemsAt, Tidy;
      if pending[a].items != map[] && state.Nonce(a) !in pending[a].items {
        QueueAllPending(a, now);
      }
    }

    method QueueAllPending(a: Address, now: int)
      requires Sound(a, map[]) && a in pending && priced.Covers()
      modifies this`pending, this`queue, this`beats, all, priced`stales, priced`urgent, priced`floating
      ensures Sound(a, map[]) && a in pending && priced.Covers()
      ensures pending - {a} == old(pending) - {a} && (Tidy(old(queue)) ==> Tidy(queue))
      ensures ItemsAt(pending, a) == map[] && ItemsAt(queue, a) == ItemsAt(old(queue), a) + ItemsAt(old(pending), a)
      ensures forall b :: b != a ==> ItemsAt(pending, b) == ItemsAt(old(pending), b)
      ensures forall b :: b != a ==> ItemsAt(queue, b) == ItemsAt(old(queue), b)
    {
      hide TxPool.Sound, TxPricedList.Covers, ItemsAt, Tidy;
      var gapped := CutAllPending(a);
      EnqueueAll(a, gapped, now);
    }

    method CutAllPending(a: Address) returns (gapped: map<nat, Tx>)
      requires Sound(a, map[]) && a in pending
      modifies this`pending
      ensures Sound(a, gapped) && gapped == ItemsAt(old(pending), a)
      ensures a in pending && pending - {a} == old(pending) - {a}
      ensures ItemsAt(pending, a) == map[]
      ensures forall b :: b != a ==> ItemsAt(pending, b) == ItemsAt(old(pending), b)
    {
      assert pending[a].Valid() && pending[a].strict && ItemsAt(pending, a) == pending[a].items;
      CapToNothing(pending[a].items);
      hide Consistent, ItemsAt, Difference;
      gapped := CutPending(a, pending[a].CappedAt(0));
    }

    /** One account's turn of demoteUnexecutables. */
    method DemoteAccount(a: Address, now: int)
      requires Valid() && a in pending
      modifies this`pending, this`queue, this`beats, all, priced`stales, priced`urgent, priced`floating
      ensures Valid() && pending - {a} == old(pending) - {a}
      ensures View(a) == AfterDemotion(old(View(a)), state, a)
      ensures forall b :: b != a ==> View(b) == old(View(b))
    {
      hide *;
      BeforeTurn(a);
      DemoteInvalid(a, now);
      DemoteGapped(a, now);
      DeleteEmptyPending(a);
      AfterTurn(a);
      DemotionIs(old(View(a)), state, a);
    }

    /** Between its turns an account has nothing on its way. */
    lemma BeforeTurn(a: Address)
      requires Valid()
      ensures Sound(a, map[]) && priced.Covers() && Tidy(pending - {a}) && Tidy(queue) && config.Workable()
    {
      SoundForAnyone(0, a);
      TidyWithout(pending, a);
    }

    lemma AfterTurn(a: Address)
      requires Sound(a, map[]) && priced.Covers() && Tidy(pending) && Tidy(queue) && config.Workable()
      ensures Valid()
    {
      SoundForAnyone(a, 0);
    }

    method DemoteInvalid(a: Address, now: int)
      requires Sound(a, map[]) && a in pending && priced.Covers()
      modifies this`pending, this`queue, this`beats, all, priced`stales, priced`urgent, priced`floating
      ensures Sound(a, map[]) && a in pending && priced.Covers()
      ensures pending - {a} == old(pending) - {a} && (Tidy(old(queue)) ==> Tidy(queue))
      ensures View(a) == WithoutCostly(WithoutOld(old(View(a)), state.Nonce(a)), state.Balance(a), state.gasLimit)
      ensures forall b :: b != a ==> View(b) == old(View(b))
    {
      hide TxPool.Sound, TxPricedList.Covers, Tidy, TxPool.View, WithoutOld, WithoutCostly;
      DemoteOld(a);
      DemoteCostly(a, now);
    }

    method DeleteEmptyPending(a: Address)
      requires Sound(a, map[]) && a in pending && Tidy(pending - {a})
      modifies this`pending
      ensures Sound(a, map[]) && Tidy(pending) && pending - {a} == old(pending) - {a}
      ensures forall b :: View(b) == old(View(b))
    {
      EmptyListDropped(pending, queue, all.locals, all.remotes, a, map[], a);
      assert ItemsAt(pending, a) == pending[a].items;
      DeletedAt(pending, a);
      assert pending - {a} - {a} == pending - {a};
      hide Consistent, Tidy, ItemsAt;
      if pending[a].items == map[] {
        pending := pending - {a};
      }
    }

    /** Demote what has become unexecutable. Exactly the pending transactions that are too old or
        cannot be paid for are forgotten; everything else that was pending is pending or queued
        afterwards, and nothing queued is lost. */
    method DemoteUnexecutables(now: int)
      requires Valid()
      modifies this`pending, this`queue, this`beats, all, priced`stales, priced`urgent, priced`floating
      ensures Valid()
      ensures forall a :: View(a) == AfterDemotion(old(View(a)), state, a)
      ensures forall a :: Demotes(old(View(a)), View(a), state.Nonce(a), state.Balance(a), state.gasLimit)
      ensures forall t :: Known(all.locals, all.remotes, t) <==>
                && old(Known(all.locals, all.remotes, t))
                && !(Holds(old(View(t.sender)).pending, t)
                     && (t.nonce < state.Nonce(t.sender) || t.gas > state.gasLimit || t.cost > state.Balance(t.sender)))
    {
      hide TxPool.Valid, AfterDemotion, Demotes, TxPool.View, Holds, Known;
      DisjointViews();
      InViews();
      DemoteEach(now);
      InViews();
      forall a
        ensures Demotes(old(View(a)), View(a), state.Nonce(a), state.Balance(a), state.gasLimit)
      {
        DemotionDemotes(old(View(a)), state, a);
      }
      forall t: Tx
        ensures Known(all.locals, all.remotes, t) <==>
                  && old(Known(all.locals, all.remotes, t))
                  && !(Holds(old(View(t.sender)).pending, t)
                       && (t.nonce < state.Nonce(t.sender) || t.gas > state.gasLimit || t.cost > state.Balance(t.sender)))
      {
        WhatDemotionForgets(old(View(t.sender)), View(t.sender), t, state.Nonce(t.sender), state.Balance(t.sender), state.gasLimit);
      }
    }

    /** Demote account by account. */
    method DemoteEach(now: int)
      requires Valid()
      modifies this`pending, this`queue, this`beats, all, priced`stales, priced`urgent, priced`floating
      ensures Valid()
      ensures forall a :: View(a) == AfterDemotion(old(View(a)), state, a)
    {
      var rest := pending.Keys;
      NothingElseDemoted();
      hide TxPool.Valid, AfterDemotion, TxPool.View;
      while rest != {}
        invariant Valid() && rest <= pending.Keys
        invariant forall a :: View(a) == if a in rest then old(View(a)) else AfterDemotion(old(View(a)), state, a)
        decreases |rest|
      {
        var a :| a in rest;
        ghost var before := pending;
        DemoteAccount(a, now);
        KeysKept(before, pending, a, rest);
        rest := rest - {a};
      }
    }

    lemma NothingElseDemoted()
      ensures forall a :: a !in pending ==> AfterDemotion(View(a), state, a) == View(a)
    {
    }

    /** Drop the highest pending nonce of an account that has more than one. */
    method DropLast(a: Address)
      requires Valid() && LenAt(pending, a) > 1
      modifies this`pending, all, pendingNonces, priced`stales, priced`urgent, priced`floating
      ensures Valid()
      ensures View(a) == WithoutLast(old(View(a)))
      ensures forall b :: b != a ==> View(b) == old(View(b))
      ensures pending.Keys == old(pending).Keys
      ensures Sums.Total(pending, ListLen) == old(Sums.Total(pending, ListLen)) - 1
    {
      assert pending[a].strict && pending[a].Valid() && ItemsAt(pending, a) == pending[a].items;
      var last := MaxKey(pending[a].items);
      var kept := pending[a].CappedAt(|pending[a].items| - 1);
      CapByOne(pending[a]);
      OneListShorter(pending, a, kept);
      ReplacedAt(pending, a, kept);
      assert pending[a].items[last].nonce == last;
      SoundForAnyone(0, a);
      hide TxPool.Sound, Tidy, TxPricedList.Covers, Capped, ItemsAt, TxListState.CappedAt, TxListState.Valid;
      CutTop(a, kept, last);
      priced.Removed(1);
      SoundForAnyone(a, 0);
    }

    method CutTop(a: Address, kept: TxListState, last: nat)
      requires Sound(a, map[]) && a in pending && last in pending[a].items && pending[a].items[last].nonce == last
      requires kept.strict && kept.Valid() && kept.items == pending[a].items - {last}
      modifies this`pending, all, pendingNonces
      ensures Sound(a, map[]) && (old(priced.Covers()) ==> priced.Covers())
      ensures pending == old(pending)[a := kept]
      ensures pendingNonces.Value(a) == if old(pendingNonces.Value(a)) <= last then old(pendingNonces.Value(a)) else last
      ensures forall b :: b != a ==> pendingNonces.Value(b) == old(pendingNonces.Value(b))
    {
      ghost var items := pending[a].items;
      var tx := pending[a].items[last];
      assert Difference(items, kept.items) == map[last := tx] && map[last := tx] - {last} == map[];
      hide Consistent, Difference;
      var caps := CutPending(a, kept);
      ForgetOne(a, caps, last, tx);
      pendingNonces.SetIfLower(a, tx.nonce);
    }

    /** Drop the highest pending nonce of each of the given accounts. */
    method DropLastOfEach(offenders: seq<Address>)
      requires Valid() && Distinct(offenders)
      requires forall a :: a in offenders ==> LenAt(pending, a) > 1
      modifies this`pending, all, pendingNonces, priced`stales, priced`urgent, priced`floating
      ensures Valid() && pending.Keys == old(pending).Keys
      ensures forall a :: View(a) == if a in offenders then WithoutLast(old(View(a))) else old(View(a))
      ensures Sums.Total(pending, ListLen) == old(Sums.Total(pending, ListLen)) - |offenders|
    {
      hide TxPool.Valid, WithoutLast, TxPool.View, LenAt;
      for i := 0 to |offenders|
        invariant Valid() && pending.Keys == old(pending).Keys
        invariant forall a :: View(a) == if a in offenders[..i] then WithoutLast(old(View(a))) else old(View(a))
        invariant Sums.Total(pending, ListLen) == old(Sums.Total(pending, ListLen)) - i
      {
        var a := offenders[i];
        assert offenders[..i + 1] == offenders[..i] + [a];
        assert a !in offenders[..i];
        assert View(a) == old(View(a));
        SameLen(a);
        DropLast(a);
      }
      assert offenders[..|offenders|] == offenders;
    }

    /** One round of fairness truncation, in terms of lengths and prefixes. */
    method ReduceEach(offenders: seq<Address>)
      requires Valid() && Distinct(offenders)
      requires forall a :: a in offenders ==> LenAt(pending, a) > 1
      modifies this`pending, all, pendingNonces, priced`stales, priced`urgent, priced`floating
      ensures Valid() && pending.Keys == old(pending).Keys
      ensures AllCut(old(pending), pending)
      ensures forall a :: LenAt(pending, a) == LenAt(old(pending), a) - if a in offenders then 1 else 0
      ensures forall a :: a !in offenders ==> View(a) == old(View(a))
      ensures old(Executable()) ==> Executable()
      ensures Sums.Total(pending, ListLen) == old(Sums.Total(pending, ListLen)) - |offenders|
    {
      hide TxPool.Valid, AllCut, IsCut, ExecutableAt;
      DropLastOfEach(offenders);
      forall a
        ensures IsCut(ItemsAt(old(pending), a), ItemsAt(pending, a))
        ensures LenAt(pending, a) == LenAt(old(pending), a) - if a in offenders then 1 else 0
        ensures old(Executable()) ==> ExecutableAt(View(a), state.Nonce(a))
      {
        if a in offenders {
          assert old(View(a)).pending == ItemsAt(old(pending), a) && |old(View(a)).pending| > 1;
          WithoutLastStaysExecutable(old(View(a)), state.Nonce(a));
        } else {
          CutNothing(old(View(a)).pending);
        }
      }
      AllAreCut(old(pending), pending);
    }

    twostate lemma SameLen(a: Address)
      requires View(a) == old(View(a))
      ensures LenAt(pending, a) == LenAt(old(pending), a)
    {
    }

    /** Cut equally long lists down together, until the total is within the limit or they
        have come down to `threshold`. */
    method LevelTo(offenders: seq<Address>, threshold: nat, count: nat) returns (left: nat, ghost n: nat)
      requires Valid() && Distinct(offenders) && offenders != []
      requires 1 <= threshold <= LenAt(pending, offenders[|offenders| - 1])
      requires AllAt(pending, offenders, LenAt(pending, offenders[|offenders| - 1]))
      requires count == Sums.Total(pending, ListLen)
      modifies this`pending, all, pendingNonces, priced`stales, priced`urgent, priced`floating
      ensures Valid() && pending.Keys == old(pending).Keys
      ensures left == Sums.Total(pending, ListLen)
      ensures Levelled(old(pending), pending, offenders, n) && threshold <= n <= LenAt(old(pending), offenders[|offenders| - 1])
      ensures left > config.globalSlots ==> n == threshold
      ensures count > config.globalSlots ==> left + |offenders| > config.globalSlots
      ensures AllCut(old(pending), pending)
      ensures forall a :: a !in offenders ==> View(a) == old(View(a))
      ensures old(Executable()) ==> Executable()
    {
      left, n := count, LenAt(pending, offenders[|offenders| - 1]);
      NothingLevelled(pending, offenders, n);
      NothingCut(pending);
      hide TxPool.Valid, TxPool.Executable, AllCut, TxPool.View, Levelled, LenAt;
      while left > config.globalSlots && LenAt(pending, offenders[|offenders| - 1]) > threshold
        invariant Valid() && pending.Keys == old(pending).Keys
        invariant left == Sums.Total(pending, ListLen)
        invariant LenAt(pending, offenders[|offenders| - 1]) == n
        invariant Levelled(old(pending), pending, offenders, n) && threshold <= n <= LenAt(old(pending), offenders[|offenders| - 1])
        invariant count > config.globalSlots ==> left + |offenders| > config.globalSlots
        invariant AllCut(old(pending), pending)
        invariant forall a :: a !in offenders ==> View(a) == old(View(a))
        invariant old(Executable()) ==> Executable()
        decreases n
      {
        LevelOnce(offenders, old(pending), n);
        left, n := left - |offenders|, n - 1;
      }
    }

    method LevelOnce(offenders: seq<Address>, ghost start: Lists, ghost n: nat)
      requires Valid() && Distinct(offenders) && offenders != []
      requires Levelled(start, pending, offenders, n) && n > 1 && AllCut(start, pending)
      modifies this`pending, all, pendingNonces, priced`stales, priced`urgent, priced`floating
      ensures Valid() && pending.Keys == old(pending).Keys
      ensures Levelled(start, pending, offenders, n - 1) && AllCut(start, pending)
      ensures LenAt(pending, offenders[|offenders| - 1]) == n - 1
      ensures forall a :: a !in offenders ==> View(a) == old(View(a))
      ensures old(Executable()) ==> Executable()
      ensures Sums.Total(pending, ListLen) == old(Sums.Total(pending, ListLen)) - |offenders|
    {
      hide TxPool.Valid, TxPool.Executable, AllCut, TxPool.View, Levelled, LenAt;
      LevelledLens(start, pending, offenders, n);
      ReduceEach(offenders);
      OneLevelDown(start, old(pending), pending, offenders, n);
      LevelledLens(start, pending, offenders, n - 1);
      CutsCompose(start, old(pending), pending);
    }

    /** How many transactions the lists hold in all. */
    static method CountTxs(lists: Lists) returns (count: nat)
      ensures count == Sums.Total(lists, ListLen)
    {
      count := 0;
      var rest := lists;
      while rest != map[]
        invariant rest.Keys <= lists.Keys && forall a :: a in rest ==> rest[a] == lists[a]
        invariant count + Sums.Total(rest, ListLen) == Sums.Total(lists, ListLen)
        decreases |rest|
      {
        var a :| a in rest;
        Sums.TotalWithout(rest, ListLen, a);
        count := count + |rest[a].items|;
        rest := rest - {a};
      }
    }

    /** The account with the highest priority; which one among equals is left open. */
    static method Worst(spammers: map<Address, nat>) returns (a: Address)
      requires spammers != map[]
      ensures a in spammers && forall b :: b in spammers ==> spammers[b] <= spammers[a]
    {
      a :| a in spammers;
      var rest := spammers.Keys - {a};
      while rest != {}
        invariant a in spammers && rest <= spammers.Keys
        invariant forall b :: b in spammers && b !in rest ==> spammers[b] <= spammers[a]
        decreases |rest|
      {
        var b :| b in rest;
        if spammers[a] < spammers[b] {
          a := b;
        }
        rest := rest - {b};
      }
    }

    /** Bring the number of pending transactions within the limit by cutting the longest
        non-local lists evenly, never below the allowance of an account. */
    method TruncatePending() returns (offenders: seq<Address>)
      requires Valid()
      modifies this`pending, all, pendingNonces, priced`stales, priced`urgent, priced`floating
      ensures Valid()
      ensures old(Executable()) ==> Executable()
      ensures Truncated(old(pending), pending, locals, config.accountSlots, config.globalSlots, Sums.Total(pending, ListLen))
      ensures AllCut(old(pending), pending)
      ensures forall a :: !Spams(old(pending), locals, config.accountSlots, a) ==> View(a) == old(View(a))
      ensures old(Sums.Total(pending, ListLen)) <= config.globalSlots ==> forall a :: View(a) == old(View(a))
      ensures old(Sums.Total(pending, ListLen)) > config.globalSlots ==>
                Sums.Total(pending, ListLen) + |offenders| > config.globalSlots
      ensures Distinct(offenders) && forall a :: a in offenders ==> Spams(old(pending), locals, config.accountSlots, a)
    {
      var count := CountTxs(pending);
      offenders := [];
      if count <= config.globalSlots {
        NothingCut(pending);
        WithinLimit(pending, locals, config.accountSlots, config.globalSlots, count);
      } else {
        hide TxPool.Valid, TxPool.Executable, AllCut, TxPool.View, Truncated, Spams;
        offenders := TruncateOver(count);
      }
    }

    method TruncateOver(count: nat) returns (offenders: seq<Address>)
      requires Valid() && count == Sums.Total(pending, ListLen) && count > config.globalSlots
      modifies this`pending, all, pendingNonces, priced`stales, priced`urgent, priced`floating
      ensures Valid()
      ensures old(Executable()) ==> Executable()
      ensures Truncated(old(pending), pending, locals, config.accountSlots, config.globalSlots, Sums.Total(pending, ListLen))
      ensures AllCut(old(pending), pending)
      ensures forall a :: !Spams(old(pending), locals, config.accountSlots, a) ==> View(a) == old(View(a))
      ensures Sums.Total(pending, ListLen) + |offenders| > config.globalSlots
      ensures Distinct(offenders) && forall a :: a in offenders ==> Spams(old(pending), locals, config.accountSlots, a)
    {
      var spammers := HighRollers(pending, locals, config.accountSlots);
      AtTheStart(pending, locals, config.accountSlots);
      hide TxPool.Valid, TxPool.Executable, AllCut, TxPool.View, Ledger, Fair, Levelled, Truncated, Spams, AllAt, Distinct;
      var left;
      spammers, offenders, left := Equalise(spammers, count);
      OffendersAreLonger(old(pending), pending, locals, config.accountSlots, spammers, offenders);
      if left > config.globalSlots && |offenders| > 0 {
        left := ReduceToAllowance(offenders, left, old(pending));
      } else {
        EqualisedIsTruncated(old(pending), pending, locals, config.accountSlots, config.globalSlots, left, spammers, offenders);
      }
    }

    /** The last loop of the truncation: cut all high rollers to the limit or their allowance. */
    method ReduceToAllowance(offenders: seq<Address>, count: nat, ghost start: Lists) returns (left: nat)
      requires Valid() && count == Sums.Total(pending, ListLen) && count > config.globalSlots && offenders != []
      requires Ledger(start, locals, config.accountSlots, map[], offenders)
      requires Fair(start, pending, config.accountSlots, map[], offenders)
      requires AllAt(pending, offenders, LenAt(pending, offenders[|offenders| - 1]))
      requires AllCut(start, pending)
      modifies this`pending, all, pendingNonces, priced`stales, priced`urgent, priced`floating
      ensures Valid() && left == Sums.Total(pending, ListLen)
      ensures Truncated(start, pending, locals, config.accountSlots, config.globalSlots, left)
      ensures left + |offenders| > config.globalSlots
      ensures AllCut(start, pending) && (old(Executable()) ==> Executable())
      ensures forall a :: a !in offenders ==> View(a) == old(View(a))
    {
      hide TxPool.Executable, AllCut, TxPool.View, Ledger, Fair, Levelled, Truncated, TxPool.Sound, Tidy, TxPricedList.Covers;
      assert config.Workable();
      OffendersAreLonger(start, pending, locals, config.accountSlots, map[], offenders);
      ghost var n;
      left, n := LevelTo(offenders, config.accountSlots, count);
      CutsCompose(start, old(pending), pending);
      EvenlyLong(old(pending), offenders, LenAt(old(pending), offenders[|offenders| - 1]));
      ReducedIsTruncated(start, old(pending), pending, locals, config.accountSlots, config.globalSlots, left, offenders, n);
    }

    /** The first loop of the truncation: take offenders longest first, and cut all earlier
        ones down to the next. */
    method Equalise(spammers0: map<Address, nat>, count0: nat)
        returns (spammers: map<Address, nat>, offenders: seq<Address>, count: nat)
      requires Valid() && count0 == Sums.Total(pending, ListLen) && count0 > config.globalSlots
      requires Ledger(pending, locals, config.accountSlots, spammers0, []) && Fair(pending, pending, config.accountSlots, spammers0, [])
      modifies this`pending, all, pendingNonces, priced`stales, priced`urgent, priced`floating
      ensures Valid() && pending.Keys == old(pending).Keys && count == Sums.Total(pending, ListLen)
      ensures Ledger(old(pending), locals, config.accountSlots, spammers, offenders)
      ensures Fair(old(pending), pending, config.accountSlots, spammers, offenders)
      ensures count > config.globalSlots ==> spammers == map[]
      ensures count > config.globalSlots && offenders != [] ==> AllAt(pending, offenders, LenAt(pending, offenders[|offenders| - 1]))
      ensures count + |offenders| > config.globalSlots
      ensures AllCut(old(pending), pending) && (old(Executable()) ==> Executable())
      ensures forall a :: a !in offenders ==> View(a) == old(View(a))
    {
      hide TxPool.Valid, TxPool.Executable, AllCut, TxPool.View, Ledger, Fair, ListLen;
      spammers, offenders, count := spammers0, [], count0;
      NothingCut(pending);
      while count > config.globalSlots && spammers != map[]
        invariant Valid() && pending.Keys == old(pending).Keys && count == Sums.Total(pending, ListLen)
        invariant Ledger(old(pending), locals, config.accountSlots, spammers, offenders)
        invariant Fair(old(pending), pending, config.accountSlots, spammers, offenders)
        invariant count > config.globalSlots && offenders != [] ==> AllAt(pending, offenders, LenAt(pending, offenders[|offenders| - 1]))
        invariant count + |offenders| > config.globalSlots
        invariant AllCut(old(pending), pending) && (old(Executable()) ==> Executable())
        invariant forall a :: a !in offenders ==> View(a) == old(View(a))
        decreases |spammers|
      {
        var offender := Worst(spammers);
        count := EqualiseTo(spammers, offenders, offender, count, old(pending));
        offenders := offenders + [offender];
        assert |spammers - {offender}| < |spammers|;
        spammers := spammers - {offender};
      }
    }

    method EqualiseTo(spammers: map<Address, nat>, offenders: seq<Address>, offender: Address, count: nat, ghost start: Lists)
        returns (left: nat)
      requires Valid() && count == Sums.Total(pending, ListLen) && count > config.globalSlots
      requires Ledger(start, locals, config.accountSlots, spammers, offenders)
      requires Fair(start, pending, config.accountSlots, spammers, offenders)
      requires offender in spammers && forall b :: b in spammers ==> spammers[b] <= spammers[offender]
      requires offenders != [] ==> AllAt(pending, offenders, LenAt(pending, offenders[|offenders| - 1]))
      requires AllCut(start, pending) && pending.Keys == start.Keys
      modifies this`pending, all, pendingNonces, priced`stales, priced`urgent, priced`floating
      ensures Valid() && pending.Keys == old(pending).Keys && left == Sums.Total(pending, ListLen)
      ensures Ledger(start, locals, config.accountSlots, spammers - {offender}, offenders + [offender])
      ensures Fair(start, pending, config.accountSlots, spammers - {offender}, offenders + [offender])
      ensures left > config.globalSlots ==> AllAt(pending, offenders + [offender], LenAt(pending, offender))
      ensures left + |offenders| + 1 > config.globalSlots
      ensures AllCut(start, pending) && (old(Executable()) ==> Executable())
      ensures forall a :: a !in offenders ==> View(a) == old(View(a))
    {
      hide TxPool.Valid, TxPool.Executable, AllCut, TxPool.View, Ledger, Fair, Levelled, AllAt;
      NextOffender(start, locals, config.accountSlots, spammers, offenders, offender);
      NextIsNoLonger(start, pending, locals, config.accountSlots, spammers, offenders, offender);
      left := count;
      ghost var n := LenAt(pending, offender);
      if |offenders| > 0 {
        var threshold := |pending[offender].items|;
        EvenlyLong(pending, offenders, LenAt(pending, offenders[|offenders| - 1]));
        left, n := LevelTo(offenders, threshold, count);
        CutsCompose(start, old(pending), pending);
      } else {
        NothingLevelled(pending, offenders, n);
      }
      EqualisingIsFair(start, old(pending), pending, locals, config.accountSlots, spammers, offenders, offender, n);
      if n == LenAt(old(pending), offender) {
        AllAtNext(old(pending), pending, offenders, offender, n);
      }
    }

    /** Remove a queued transaction: its account loses just that one. */
    method RemoveFromQueue(a: Address, tx: Tx, now: int)
      requires Valid() && Holds(View(a).queued, tx)
      modifies this`pending, this`queue, this`beats, all, pendingNonces, priced`stales, priced`urgent, priced`floating
      ensures Valid()
      ensures View(a) == old(View(a)).(queued := old(View(a)).queued - {tx.nonce})
      ensures forall b :: b != a ==> View(b) == old(View(b))
      ensures old(Executable()) ==> Executable()
      ensures Sums.Total(queue, ListLen) == old(Sums.Total(queue, ListLen)) - 1
    {
      QueuedFacts(pending, queue, all.locals, all.remotes, a, tx);
      AfterQueueRemoval(View(a), tx.nonce);
      hide TxPool.Sound, Tidy, TxPricedList.Covers, TxPool.Executable, AfterRemoval, ItemsAt;
      RemoveTx(HashOf(tx), true, now);
      forall b | b != a
        ensures ItemsAt(old(queue), b) == ItemsAt(queue, b)
      {
        assert View(b) == old(View(b));
      }
      OneItemLess(old(queue), queue, a);
    }

    lemma QueueKeyed(a: Address)
      requires Valid()
      ensures Keyed(QueueList(a).items) && QueueList(a).items == View(a).queued
    {
      KeyedAt(pending, queue, all.locals, all.remotes, a);
    }

    /** Remove the `count` highest nonces from the queue of an account. */
    method DropTopOfQueue(a: Address, count: nat, now: int)
      requires Valid() && count <= |View(a).queued|
      modifies this`pending, this`queue, this`beats, all, pendingNonces, priced`stales, priced`urgent, priced`floating
      ensures Valid()
      ensures IsCut(old(View(a)).queued, View(a).queued) && |View(a).queued| == |old(View(a)).queued| - count
      ensures View(a) == old(View(a)).(queued := View(a).queued)
      ensures forall b :: b != a ==> View(b) == old(View(b))
      ensures old(Executable()) ==> Executable()
      ensures Sums.Total(queue, ListLen) == old(Sums.Total(queue, ListLen)) - count
    {
      hide TxPool.Valid, TxPool.Executable, TxPool.View, LowestLeft, IsCut, Flattens, Keyed, ListLen, Sums.Total, TxPool.QueueList;
      QueueKeyed(a);
      var txs := FlattenItems(QueueList(a).items);
      NothingDropped(txs, View(a).queued);
      var i, drop := |txs|, count;
      while i > 0 && drop > 0
        invariant 0 <= i <= |txs| && drop == count - (|txs| - i)
        invariant Valid()
        invariant LowestLeft(txs, old(View(a)).queued, View(a).queued, i)
        invariant View(a) == old(View(a)).(queued := View(a).queued)
        invariant forall b :: b != a ==> View(b) == old(View(b))
        invariant old(Executable()) ==> Executable()
        invariant Sums.Total(queue, ListLen) == old(Sums.Total(queue, ListLen)) - (|txs| - i)
        decreases i
      {
        CutLast(txs, old(View(a)).queued, View(a).queued, i - 1);
        RemoveFromQueue(a, txs[i - 1], now);
        i, drop := i - 1, drop - 1;
      }
      LowestLeftIsCut(txs, old(View(a)).queued, View(a).queued, i);
    }

    /** Remove all that an account has queued. */
    method DropWholeQueue(a: Address, now: int)
      requires Valid()
      modifies this`pending, this`queue, this`beats, all, pendingNonces, priced`stales, priced`urgent, priced`floating
      ensures Valid()
      ensures View(a) == old(View(a)).(queued := map[])
      ensures forall b :: b != a ==> View(b) == old(View(b))
      ensures old(Executable()) ==> Executable()
      ensures Sums.Total(queue, ListLen) == old(Sums.Total(queue, ListLen)) - |old(View(a)).queued|
    {
      hide TxPool.Valid, TxPool.Executable, TxPool.View, HighestLeft, LowestLeft, Flattens, Keyed, ListLen, Sums.Total, TxPool.QueueList;
      QueueKeyed(a);
      var txs := FlattenItems(QueueList(a).items);
      NothingDropped(txs, View(a).queued);
      NoneTakenYet(txs, View(a).queued);
      for i := 0 to |txs|
        invariant Valid()
        invariant HighestLeft(txs, View(a).queued, i)
        invariant View(a) == old(View(a)).(queued := View(a).queued)
        invariant forall b :: b != a ==> View(b) == old(View(b))
        invariant old(Executable()) ==> Executable()
        invariant Sums.Total(queue, ListLen) == old(Sums.Total(queue, ListLen)) - i
      {
        TakeFirst(txs, View(a).queued, i);
        RemoveFromQueue(a, txs[i], now);
      }
      AllTaken(txs, View(a).queued);
    }

    /** The accounts whose queues may be evicted, youngest heartbeat first. */
    method EvictableByAge() returns (order: seq<Address>)
      ensures AgeOrder(order, queue, locals, beats)
    {
      var collected: seq<Address> := [];
      var rest := queue.Keys;
      while rest != {}
        invariant rest <= queue.Keys && Distinct(collected)
        invariant forall a :: a in collected <==> a in queue && a !in rest && a !in locals
        decreases |rest|
      {
        var a :| a in rest;
        rest := rest - {a};
        if a !in locals {
          collected := collected + [a];
        }
      }
      var known := beats;
      var age := a => -BeatOf(known, a);
      order := Sorting.Sort(collected, age);
      forall i, j | 0 <= i < j < |order|
        ensures BeatOf(beats, order[i]) >= BeatOf(beats, order[j])
      {
        assert age(order[i]) <= age(order[j]);
      }
      ghost var elements := set a | a in collected;
      Sorting.DistinctFormSet(collected, elements);
      Sorting.NoRepeats(order, elements);
    }

    /** Evict from the oldest evictable account on, until the excess is gone. */
    method TruncateQueue(now: int)
      requires Valid()
      modifies this`pending, this`queue, this`beats, all, pendingNonces, priced`stales, priced`urgent, priced`floating
      ensures Valid()
      ensures old(Executable()) ==> Executable()
      ensures forall a :: View(a) == old(View(a)).(queued := View(a).queued)
      ensures forall a :: IsCut(old(View(a)).queued, View(a).queued) && (a in locals ==> View(a) == old(View(a)))
      ensures old(Sums.Total(queue, ListLen)) <= config.globalQueue ==> forall a :: View(a) == old(View(a))
      ensures old(Sums.Total(queue, ListLen)) > config.globalQueue ==>
                QueueTruncated(old(queue), queue, locals, old(beats), config.globalQueue, Sums.Total(queue, ListLen))
    {
      hide TxPool.Valid, TxPool.Executable, TxPool.View, AgeOrder, EvictedFrom, QueueTruncated, IsCut, AllCut;
      var queued := CountTxs(queue);
      NothingCut(queue);
      if queued <= config.globalQueue {
        QueueWasCut();
        return;
      }
      var order := EvictableByAge();
      NothingEvicted(queue, order, queued - config.globalQueue);
      var k, left := EvictOldest(order, queued - config.globalQueue, now);
      EvictionIsOrderly(old(queue), queue, locals, old(beats), config.globalQueue, Sums.Total(queue, ListLen), order, k, left);
      OrderlyIsCut(old(queue), queue, locals, old(beats), config.globalQueue, Sums.Total(queue, ListLen));
      QueueWasCut();
    }

    twostate lemma QueueWasCut()
      requires AllCut(old(queue), queue) && forall a :: View(a) == old(View(a)).(queued := View(a).queued)
      ensures forall a :: IsCut(old(View(a)).queued, View(a).queued)
      ensures (forall a :: a in locals ==> ItemsAt(queue, a) == ItemsAt(old(queue), a)) ==>
                forall a :: a in locals ==> View(a) == old(View(a))
    {
      forall a
        ensures IsCut(old(View(a)).queued, View(a).queued)
        ensures ItemsAt(queue, a) == ItemsAt(old(queue), a) ==> View(a) == old(View(a))
      {
        assert IsCut(ItemsAt(old(queue), a), ItemsAt(queue, a));
        assert View(a).queued == ItemsAt(queue, a) && old(View(a)).queued == ItemsAt(old(queue), a);
      }
    }

    method EvictOldest(order: seq<Address>, excess: nat, now: int) returns (k: nat, left: nat)
      requires Valid() && AgeOrder(order, queue, locals, beats)
      requires EvictedFrom(queue, queue, order, |order|, excess)
      requires Sums.Total(queue, ListLen) == config.globalQueue + excess
      modifies this`pending, this`queue, this`beats, all, pendingNonces, priced`stales, priced`urgent, priced`floating
      ensures Valid()
      ensures old(Executable()) ==> Executable()
      ensures forall a :: View(a) == old(View(a)).(queued := View(a).queued)
      ensures EvictedFrom(old(queue), queue, order, k, left) && (left == 0 || k == 0)
      ensures Sums.Total(queue, ListLen) == config.globalQueue + left
    {
      hide TxPool.Valid, TxPool.Executable, TxPool.View, AgeOrder, EvictedFrom, Distinct, ListLen;
      k, left := |order|, excess;
      EachOnce(order, queue, locals, beats);
      while left > 0 && k > 0
        invariant k <= |order|
        invariant Valid()
        invariant old(Executable()) ==> Executable()
        invariant forall a :: View(a) == old(View(a)).(queued := View(a).queued)
        invariant EvictedFrom(old(queue), queue, order, k, left)
        invariant Sums.Total(queue, ListLen) == config.globalQueue + left
        decreases k
      {
        left := EvictOne(order, k, left, old(queue), now);
        k := k - 1;
      }
    }

    twostate lemma QueueFollowsView(a: Address)
      requires forall b :: b != a ==> View(b) == old(View(b))
      ensures forall b :: b != a ==> ItemsAt(queue, b) == ItemsAt(old(queue), b)
      ensures ItemsAt(queue, a) == View(a).queued && ItemsAt(old(queue), a) == old(View(a)).queued
    {
      forall b | b != a
        ensures ItemsAt(queue, b) == ItemsAt(old(queue), b)
      {
        assert View(b) == old(View(b));
      }
    }

    method EvictOne(order: seq<Address>, k: nat, drop: nat, ghost start: Lists, now: int) returns (left: nat)
      requires Valid() && Distinct(order) && 0 < k <= |order| && drop > 0
      requires EvictedFrom(start, queue, order, k, drop)
      modifies this`pending, this`queue, this`beats, all, pendingNonces, priced`stales, priced`urgent, priced`floating
      ensures Valid()
      ensures old(Executable()) ==> Executable()
      ensures forall a :: View(a) == old(View(a)).(queued := View(a).queued)
      ensures EvictedFrom(start, queue, order, k - 1, left)
      ensures left <= drop && Sums.Total(queue, ListLen) == old(Sums.Total(queue, ListLen)) - (drop - left)
    {
      var a := order[k - 1];
      hide TxPool.Valid, TxPool.Executable, TxPool.View, EvictedFrom, IsCut, ItemsAt;
      left := DropFromQueue(a, drop, now);
      QueueFollowsView(a);
      OneMoreEvicted(start, old(queue), queue, order, k, drop, left);
    }

    /** Remove the whole queue of an account, or only its `drop` highest nonces if it has more. */
    method DropFromQueue(a: Address, drop: nat, now: int) returns (left: nat)
      requires Valid() && drop > 0
      modifies this`pending, this`queue, this`beats, all, pendingNonces, priced`stales, priced`urgent, priced`floating
      ensures Valid()
      ensures old(Executable()) ==> Executable()
      ensures forall b :: View(b) == old(View(b)).(queued := View(b).queued)
      ensures forall b :: b != a ==> View(b) == old(View(b))
      ensures IsCut(old(View(a)).queued, View(a).queued) && (left > 0 ==> View(a).queued == map[])
      ensures left <= drop && Sums.Total(queue, ListLen) == old(Sums.Total(queue, ListLen)) - (drop - left)
    {
      var size := |QueueList(a).items|;
      assert size == |View(a).queued|;
      hide TxPool.Valid, TxPool.Executable, TxPool.View, IsCut, ItemsAt;
      if size <= drop {
        DropWholeQueue(a, now);
        EmptyCut(old(View(a)).queued);
        return drop - size;
      }
      DropTopOfQueue(a, drop, now);
      return 0;
    }

    /** Add a batch of transactions; one that is new to its account at its nonce makes the
        account dirty. A transaction becomes remote only if neither it is added as local nor its
        account is local, and local only otherwise. While there is room for all, every account
        becomes exactly what offering it its own transactions one by one makes of it, and each
        transaction gets the answer that this gives; an account becomes local exactly if one
        of its transactions, added as local, goes to its queue. */
    method AddTxs(txs: seq<Submission>, local: bool, now: int) returns (errs: seq<Option<PoolError>>, dirty: set<Address>)
      requires Valid()
      modifies this`pending, this`queue, this`beats, this`locals, this`changesSinceReorg, all, pendingNonces
      modifies priced`stales, priced`urgent, priced`floating
      ensures Valid() && |errs| == |txs| && old(locals) <= locals
      ensures old(changesSinceReorg) <= changesSinceReorg
      ensures old(HasRoomFor(SlotsOfAll(txs))) ==> changesSinceReorg == old(changesSinceReorg)
      ensures old(Executable()) ==> Executable()
      ensures forall a :: Shrunk(old(View(a)), View(a))
      ensures forall a :: a in locals && a !in old(locals) ==> local && AcceptedFrom(txs, errs, a)
      ensures forall h :: h in all.locals ==> h in old(all.locals) || local || h.tx.sender in old(locals)
      ensures forall h :: h in all.remotes ==> h in old(all.remotes) || (!local && h.tx.sender !in old(locals))
      ensures forall t :: Known(all.locals, all.remotes, t) ==> old(Known(all.locals, all.remotes, t)) || AcceptedIn(txs, errs, t)
      ensures forall h :: h in old(all.locals) ==> h in all.locals || OutbidBy(txs, errs, h, config.priceBump)
      ensures forall a :: a in dirty ==> AcceptedFrom(txs, errs, a)
      ensures old(HasRoomFor(SlotsOfAll(txs))) ==> forall t ::
                old(Known(all.locals, all.remotes, t)) || AcceptedIn(txs, errs, t) ==>
                  Known(all.locals, all.remotes, t) || OutbidBy(txs, errs, HashOf(t), config.priceBump)
      ensures old(HasRoomFor(SlotsOfAll(txs))) ==> forall a ::
                View(a) == AfterBatch(old(View(a)), a, txs, local || a in old(locals), state, gasPrice, config.priceBump)
      ensures old(HasRoomFor(SlotsOfAll(txs))) ==> forall a ::
                a in dirty <==> BecomesDirty(old(View(a)), a, txs, |txs|, local || a in old(locals), state, gasPrice, config.priceBump)
      ensures old(HasRoomFor(SlotsOfAll(txs))) ==> forall i :: 0 <= i < |txs| ==>
                errs[i] == AnswerAt(old(View(txs[i].tx.sender)), txs, i, local || txs[i].tx.sender in old(locals), state, gasPrice,
                                    config.priceBump)
      ensures old(HasRoomFor(SlotsOfAll(txs))) ==> forall a ::
                a in locals <==> a in old(locals) || (local && BecomesLocal(old(View(a)), a, txs, |txs|, state, gasPrice, config.priceBump))
    {
      errs, dirty := [], {};
      hide *;
      NoneShrunk();
      assert txs[0..] == txs;
      ghost var start, locals0, remotes0, accounts0 := GhostViews(), all.locals, all.remotes, locals;
      NoneAdded(all.locals, all.remotes, locals, txs, local, config.priceBump);
      NoneOffered(start, locals, txs, local, state, gasPrice, config.priceBump);
      for i := 0 to |txs|
        invariant Valid() && |errs| == i && forall a :: Shrunk(old(View(a)), View(a))
        invariant old(changesSinceReorg) <= changesSinceReorg
        invariant old(HasRoomFor(SlotsOfAll(txs))) ==> changesSinceReorg == old(changesSinceReorg)
        invariant AsAdded(locals0, remotes0, accounts0, all.locals, all.remotes, locals, txs, errs, dirty, local, config.priceBump)
        invariant old(HasRoomFor(SlotsOfAll(txs))) ==>
                    && HasRoomFor(SlotsOfAll(txs[i..])) && KeepsUnlessOutbid(locals0, remotes0, all.locals, all.remotes, txs, errs, config.priceBump)
                    && AsOffered(start, GhostViews(), accounts0, locals, txs, i, errs, dirty, local, state, gasPrice, config.priceBump)
      {
        ghost var locals1, remotes1, accounts1, views, errs0, dirty0 := all.locals, all.remotes, locals, GhostViews(), errs, dirty;
        SlotsOneLess(txs, i);
        RoomIs(SlotsOfAll(txs[i..]));
        RoomIs(txs[i].tx.slots);
        WhatWasAdded(locals0, remotes0, accounts0, all.locals, all.remotes, locals, txs, errs, dirty, local, config.priceBump);
        label Before:
        var err, isNew := AddNext(txs[i], local, local || txs[i].tx.sender in accounts0, now);
        errs := errs + [err];
        if isNew {
          dirty := dirty + {txs[i].tx.sender};
        }
        RoomIs(SlotsOfAll(txs[i + 1..]));
        OneMoreAdded(locals0, remotes0, accounts0, locals1, remotes1, accounts1, all.locals, all.remotes, locals, txs, errs0, err, dirty0,
                     isNew, local, config.priceBump);
        forall a
          ensures Shrunk(old(View(a)), View(a))
        {
          ShrunkFurther(old(View(a)), old@Before(View(a)), View(a));
        }
        if old(HasRoomFor(SlotsOfAll(txs))) {
          OneMoreKept(locals0, remotes0, locals1, remotes1, all.locals, all.remotes, txs, errs0, err, config.priceBump);
          OneMoreOffered(start, views, GhostViews(), accounts0, accounts1, locals, txs, i, errs0, err, dirty0, isNew, local,
                         state, gasPrice, config.priceBump);
        }
      }
      WhatWasAdded(locals0, remotes0, accounts0, all.locals, all.remotes, locals, txs, errs, dirty, local, config.priceBump);
      WhatWasOffered(start, GhostViews(), accounts0, locals, txs, errs, dirty, local, state, gasPrice, config.priceBump);
      ShrunkStaysExecutable();
    }

    lemma RoomIs(slots: nat)
      ensures HasRoomFor(slots) <==> all.slots + slots <= config.globalSlots + config.globalQueue
    {
    }

    /** One submission of a batch; `isNew` if it is new to its account at its nonce. */
    method AddNext(sub: Submission, local: bool, ghost isLocal: bool, now: int) returns (err: Option<PoolError>, isNew: bool)
      requires Valid() && (isLocal <==> local || sub.tx.sender in locals)
      modifies this`pending, this`queue, this`beats, this`locals, this`changesSinceReorg, all, pendingNonces
      modifies priced`stales, priced`urgent, priced`floating
      ensures Valid() && (isNew ==> err == None)
      ensures old(changesSinceReorg) <= changesSinceReorg && (old(HasRoomFor(sub.tx.slots)) ==> changesSinceReorg == old(changesSinceReorg))
      ensures locals == if err == None && local && Holds(View(sub.tx.sender).queued, sub.tx) then old(locals) + {sub.tx.sender}
                        else old(locals)
      ensures FiledAs(sub.tx, isLocal, err == None, old(all.locals), old(all.remotes), all.locals, all.remotes)
      ensures forall a :: Shrunk(old(View(a)), View(a))
      ensures GainsOnly(old(all.locals), old(all.remotes), all.locals, all.remotes, sub.tx, err == None)
      ensures SparesLocals(old(all.locals), all.locals, sub.tx, err == None, config.priceBump)
      ensures all.slots <= old(all.slots) + sub.tx.slots
      ensures old(HasRoomFor(sub.tx.slots)) ==>
                && LosesOnly(old(all.locals), old(all.remotes), all.locals, all.remotes, sub.tx, err == None, config.priceBump)
                && err == Answer(old(View(sub.tx.sender)), sub, isLocal, state, gasPrice, config.priceBump)
                && (isNew <==> ValidateTx(sub, isLocal, state, gasPrice) == None && NonceIsFree(old(View(sub.tx.sender)), sub.tx.nonce))
                && View(sub.tx.sender) ==
                     AfterSubmission(old(View(sub.tx.sender)), sub, isLocal, state, gasPrice, config.priceBump)
                && forall b :: b != sub.tx.sender ==> View(b) == old(View(b))
    {
      KnownIsThere(sub.tx);
      hide TxPool.Valid, TxPool.Executable, Known, GainsOnly, LosesOnly, SparesLocals, Shrunk, TxPool.View, AfterSubmission,
           ValidateTx, Outbids, FiledAs, Holds, GetsIn;
      ghost var locals0, remotes0 := all.locals, all.remotes;
      var replaced;
      replaced, err := Add(sub, local, now);
      isNew := err == None && !replaced;
      SparedAnyway(locals0, all.locals, sub.tx, replaced, err == None, config.priceBump);
      LostAnyway(locals0, remotes0, all.locals, all.remotes, sub.tx, replaced, err == None, config.priceBump);
    }

    lemma KnownIsThere(tx: Tx)
      requires Valid()
      ensures Known(all.locals, all.remotes, tx) ==> !NonceIsFree(View(tx.sender), tx.nonce)
      ensures Known(all.locals, all.remotes, tx) <==> Holds(View(tx.sender).pending, tx) || Holds(View(tx.sender).queued, tx)
    {
      assert Known(all.locals, all.remotes, tx) <==> Somewhere(pending, queue, 0, map[], tx);
    }

    /** Go over to a new chain state and put transactions lost in a reorganisation back in. */
    method Reset(newState: Option<ChainState>, reinject: seq<Submission>, now: int)
      requires Valid() && pendingNonces.fallback == state.nonces
      modifies this, all, pendingNonces, priced`stales, priced`urgent, priced`floating
      ensures Valid() && pendingNonces.fallback == state.nonces && locals == old(locals) && gasPrice == old(gasPrice)
      ensures pendingNonces == old(pendingNonces) || fresh(pendingNonces)
      ensures state == if newState == None then old(state) else newState.value
      ensures newState == None ==> forall a :: View(a) == old(View(a))
      ensures newState.Some? ==> forall a :: Shrunk(old(View(a)).(virtual := state.Nonce(a)), View(a))
      ensures newState.Some? && old(HasRoomFor(SlotsOfAll(reinject))) ==> forall a ::
                View(a) == AfterBatch(old(View(a)).(virtual := state.Nonce(a)), a, reinject, a in locals, state, gasPrice,
                                      config.priceBump)
    {
      hide TxPool.Valid, Known, Shrunk, TxPool.View, AfterBatch;
      if newState == None {
        return;
      }
      StartAt(newState.value);
      var errs, dirty := AddTxs(reinject, false, now);
    }

    /** Take over a chain state, with fresh virtual nonces. */
    method StartAt(newState: ChainState)
      requires Valid()
      modifies this`state, this`pendingNonces
      ensures Valid() && state == newState && fresh(pendingNonces) && pendingNonces.fallback == state.nonces
      ensures forall a :: View(a) == old(View(a)).(virtual := state.Nonce(a))
    {
      state := newState;
      pendingNonces := new TxNoncer(state.nonces);
    }

    /** Set every virtual nonce to just above the highest pending one. */
    method UpdateNonces()
      requires Valid() && pendingNonces.fallback == state.nonces
      modifies pendingNonces
      ensures forall a :: View(a) == old(View(a)).(virtual := EndOf(old(View(a)).pending, state.Nonce(a)))
    {
      var nonces: map<Address, nat> := map[];
      var rest := pending.Keys;
      while rest != {}
        invariant rest <= pending.Keys && nonces.Keys == pending.Keys - rest
        invariant forall a :: a in nonces ==> nonces[a] == EndOf(ItemsAt(pending, a), state.Nonce(a))
        decreases |rest|
      {
        var a :| a in rest;
        nonces := nonces[a := MaxKey(pending[a].items) + 1];
        rest := rest - {a};
      }
      pendingNonces.SetAll(nonces);
    }

    method PromoteRound(accounts: seq<Address>, now: int) returns (promoted: seq<Tx>)
      requires Valid() && Distinct(accounts)
      modifies this`pending, this`queue, this`beats, all, pendingNonces, priced`stales, priced`urgent, priced`floating
      ensures Valid()
      ensures old(Executable()) ==> Executable()
      ensures forall a :: View(a) == if a in accounts then AfterRound(old(View(a)), state, a, a in locals, config.accountQueue)
                                     else old(View(a))
      ensures forall a :: a in accounts ==> PromotesAt(old(View(a)), View(a), a)
      ensures NoRepeats(promoted)
      ensures forall t :: t in promoted <==> Holds(View(t.sender).pending, t) && !Holds(old(View(t.sender)).pending, t)
      ensures forall t :: Known(all.locals, all.remotes, t) <==>
                old(Known(all.locals, all.remotes, t)) && !(t.sender in accounts && DropsFromQueue(old(View(t.sender)), View(t.sender), t))
    {
      hide AfterRound, Promotes, Holds, NoRepeats, DroppedInRound, Known;
      promoted := PromoteExecutables(accounts, now);
      RoundsKeepNonces(accounts);
    }

    /** The account was promoted from `acc` to `acc'` as it should be. */
    ghost predicate PromotesAt(acc: Account, acc': Account, a: Address)
      reads this`state, this`locals
    {
      Promotes(acc, acc', state.Nonce(a), state.Balance(a), state.gasLimit, a in locals, config.accountQueue)
    }

    ghost predicate DropsFromQueue(acc: Account, acc': Account, t: Tx)
      reads this`state, this`locals
    {
      DroppedInRound(acc, acc', t, state.Nonce(t.sender), state.Balance(t.sender), state.gasLimit, t.sender in locals,
                     config.accountQueue)
    }

    /** Demote, reorder by the new base fee, and bring the virtual nonces up to date. */
    method DemoteAndUpdate(baseFee: Option<int>, now: int)
      requires Valid() && pendingNonces.fallback == state.nonces
      modifies this`pending, this`queue, this`beats, all, priced, pendingNonces
      ensures Valid() && priced.baseFee == if baseFee.Some? then baseFee else old(priced.baseFee)
      ensures forall a :: View(a) == AfterUpdate(AfterDemotion(old(View(a)), state, a), state.Nonce(a))
      ensures forall a :: DemotesAt(old(View(a)), View(a), a)
      ensures forall t :: Known(all.locals, all.remotes, t) <==>
                old(Known(all.locals, all.remotes, t)) && !Expires(old(View(t.sender)).pending, t)
    {
      hide AfterDemotion, Demotes, Holds, Known;
      DemoteUnexecutables(now);
      if baseFee.Some? {
        priced.SetBaseFee(baseFee.value);
      }
      label Demoted:
      UpdateNonces();
      forall a
        ensures DemotesAt(old(View(a)), View(a), a)
      {
        UpdatedIsNext(old@Demoted(View(a)), state.Nonce(a));
        DemotesWithVirtual(old(View(a)), old@Demoted(View(a)), View(a), state.Nonce(a), state.Balance(a), state.gasLimit);
      }
    }

    /** The account was demoted from `acc` to `acc'` as it should be, and its virtual nonce comes
        right after its highest pending one. */
    ghost predicate DemotesAt(acc: Account, acc': Account, a: Address)
      reads this`state
    {
      && Demotes(acc.(virtual := acc'.virtual), acc', state.Nonce(a), state.Balance(a), state.gasLimit)
      && NextAfter(acc', state.Nonce(a))
    }

    /** Pending transaction `t` is too old or cannot be paid for. */
    ghost predicate Expires(items: map<nat, Tx>, t: Tx)
      reads this`state
    {
      Holds(items, t) && (t.nonce < state.Nonce(t.sender) || t.gas > state.gasLimit || t.cost > state.Balance(t.sender))
    }

    /** The part of a reorganisation run that a new head brings with it. `found` is each account
        once the lost transactions have been put back, and `round` once what is executable has
        been promoted. What the reset finds is where the gaps come from: an account is left
        executable exactly if that leaves no gap, and a transaction at its virtual nonce is left
        in its queue exactly if it stays behind. */
    method ResetTo(req: ResetRequest, now: int)
        returns (promoted: seq<Tx>, ghost found: Address -> Account, ghost round: Address -> Account)
      requires Valid() && pendingNonces.fallback == state.nonces
      modifies this, all, priced, pendingNonces
      ensures Valid() && pendingNonces.fallback == state.nonces && locals == old(locals) && gasPrice == old(gasPrice)
      ensures pendingNonces == old(pendingNonces) || fresh(pendingNonces)
      ensures state == StateAfter(old(state), req)
      ensures priced.baseFee == if req.baseFee.Some? then req.baseFee else old(priced.baseFee)
      ensures req.newState == None ==> forall a :: found(a) == old(View(a))
      ensures req.newState.Some? ==> forall a :: Shrunk(old(View(a)).(virtual := state.Nonce(a)), found(a))
      ensures req.newState.Some? && old(HasRoomFor(SlotsOfAll(req.reinject))) ==> forall a ::
                found(a) == AfterBatch(old(View(a)).(virtual := state.Nonce(a)), a, req.reinject, a in locals, state, gasPrice,
                                       config.priceBump)
      ensures forall a :: View(a) == AfterReset(found(a), state, a, a in locals, config.accountQueue)
      ensures forall a :: PromotesAt(found(a), round(a), a) && DemotesAt(round(a), View(a), a)
      ensures NoRepeats(promoted)
      ensures forall t :: t in promoted <==> Holds(round(t.sender).pending, t) && !Holds(found(t.sender).pending, t)
      ensures forall t :: Known(all.locals, all.remotes, t) <==>
                && (Holds(found(t.sender).pending, t) || Holds(found(t.sender).queued, t))
                && !DropsFromQueue(found(t.sender), round(t.sender), t) && !Expires(round(t.sender).pending, t)
      ensures old(Executable()) ==> forall a ::
                ExecutableAt(View(a), state.Nonce(a)) <==> !LeavesGap(found(a), old(state).Nonce(a), state, a)
      ensures old(Executable()) ==> forall a ::
                View(a).virtual in View(a).queued <==> StaysBehind(found(a), round(a), state, a)
    {
      hide *;
      NewStateOf(state, req);
      Reset(req.newState, req.reinject, now);
      found := GhostViews();
      DisjointViews();
      InViews();
      promoted, round := Settle(req.baseFee, now);
      if old(Executable()) {
        forall a
          ensures ExecutableAt(View(a), state.Nonce(a)) <==> !LeavesGap(found(a), old(state).Nonce(a), state, a)
          ensures View(a).virtual in View(a).queued <==> StaysBehind(found(a), round(a), state, a)
        {
          ExecutableOne(a);
          GapAfterReset(old(View(a)), found(a), old(state), state, a, a in locals, config.accountQueue, req.newState == None);
          BehindAfterReset(a, old(View(a)), found(a), round(a), View(a), old(state), req.newState == None);
        }
      }
    }

    lemma BehindAfterReset(a: Address, before: Account, found: Account, round: Account, after: Account, state0: ChainState, stale: bool)
      requires found.pending.Keys !! found.queued.Keys && ExecutableAt(before, state0.Nonce(a))
      requires if stale then found == before && state == state0 else Shrunk(before.(virtual := state.Nonce(a)), found)
      requires PromotesAt(found, round, a) && DemotesAt(round, after, a)
      ensures after.virtual in after.queued <==> StaysBehind(found, round, state, a)
    {
      hide Promotes, Demotes, NextAfter, StaysBehind;
      if !stale {
        ShrunkKeepsInterval(before.(virtual := state.Nonce(a)), found, state0.Nonce(a));
      }
      LeftBehind(found, round, after, state0.Nonce(a), state, a, a in locals, config.accountQueue);
    }

    /** Promote everywhere, demote everywhere, and bring the virtual nonces up to date. */
    method Settle(baseFee: Option<int>, now: int) returns (promoted: seq<Tx>, ghost round: Address -> Account)
      requires Valid() && pendingNonces.fallback == state.nonces
      modifies this`pending, this`queue, this`beats, all, priced, pendingNonces
      ensures Valid() && priced.baseFee == if baseFee.Some? then baseFee else old(priced.baseFee)
      ensures forall a :: View(a) == AfterReset(old(View(a)), state, a, a in locals, config.accountQueue)
      ensures forall a :: PromotesAt(old(View(a)), round(a), a) && DemotesAt(round(a), View(a), a)
      ensures NoRepeats(promoted)
      ensures forall t :: t in promoted <==> Holds(round(t.sender).pending, t) && !Holds(old(View(t.sender)).pending, t)
      ensures forall t :: Known(all.locals, all.remotes, t) <==>
                && old(Known(all.locals, all.remotes, t))
                && !DropsFromQueue(old(View(t.sender)), round(t.sender), t) && !Expires(round(t.sender).pending, t)
    {
      hide *;
      DisjointViews();
      var accounts := QueueAccounts();
      QueueAccountsView(accounts);
      EmptyQueuesRound(accounts);
      promoted := PromoteRound(accounts, now);
      round := GhostViews();
      DemoteAndUpdate(baseFee, now);
      ResetIs();
    }

    /** Without a queue a round of promotion does nothing. */
    lemma EmptyQueuesRound(accounts: seq<Address>)
      requires forall a :: a !in accounts ==> View(a).queued == map[]
      ensures forall a :: a !in accounts ==>
                && AfterRound(View(a), state, a, a in locals, config.accountQueue) == View(a)
                && PromotesAt(View(a), View(a), a)
      ensures forall t: Tx :: t.sender !in accounts ==> !DropsFromQueue(View(t.sender), View(t.sender), t)
    {
      forall a | a !in accounts
        ensures AfterRound(View(a), state, a, a in locals, config.accountQueue) == View(a)
        ensures PromotesAt(View(a), View(a), a)
      {
        NoQueueNoRound(View(a), state, a, a in locals, config.accountQueue);
        RoundPromotes(View(a), state, a, a in locals, config.accountQueue);
      }
    }

    lemma ResetIs()
      ensures forall acc: Account, a: Address :: AfterReset(acc, state, a, a in locals, config.accountQueue) ==
                AfterUpdate(AfterDemotion(AfterRound(acc, state, a, a in locals, config.accountQueue), state, a), state.Nonce(a))
    {
    }

    lemma DisjointViews()
      requires Valid()
      ensures forall a :: View(a).pending.Keys !! View(a).queued.Keys
    {
      forall a
        ensures ItemsAt(pending, a).Keys !! ItemsAt(queue, a).Keys
      {
        NobodyInTransit(pending, queue, all.locals, all.remotes, 0, a);
        DisjointAt(pending, queue, all.locals, all.remotes, a);
      }
    }

    lemma QueueAccountsView(accounts: seq<Address>)
      requires forall a :: a in accounts <==> a in queue
      ensures forall a :: a !in accounts ==> View(a).queued == map[]
    {
    }

    twostate lemma ExecutableOne(a: Address)
      requires old(Executable())
      ensures ExecutableAt(old(View(a)), old(state).Nonce(a))
    {
    }

    method QueueAccounts() returns (accounts: seq<Address>)
      ensures Distinct(accounts) && forall a :: a in accounts <==> a in queue
    {
      accounts := [];
      var rest := queue.Keys;
      while rest != {}
        invariant rest <= queue.Keys && Distinct(accounts)
        invariant forall a :: a in accounts <==> a in queue && a !in rest
        decreases |rest|
      {
        var a :| a in rest;
        accounts, rest := accounts + [a], rest - {a};
      }
    }

    /** A whole reorganisation run: promote, or reset, promote and demote, and then truncate.
        Without a reset exactly the dirty accounts are promoted; with one all are promoted and
        demoted. What is promoted is returned, and what is settled then is only cut, to the
        limits. The run keeps every account executable provided its reset leaves no gap, and so
        in any case if it lowers no state nonce; and it leaves the pool within its limits as far
        as local accounts and allowances permit. */
    method RunReorg(reset: Option<ResetRequest>, dirty: seq<Address>, now: int) returns (promoted: seq<Tx>, ghost run: Stages)
      requires Valid() && Distinct(dirty) && pendingNonces.fallback == state.nonces
      modifies this, all, priced, pendingNonces
      ensures Valid() && changesSinceReorg == 0 && locals == old(locals) && gasPrice == old(gasPrice)
      ensures pendingNonces.fallback == state.nonces
      ensures pendingNonces == old(pendingNonces) || fresh(pendingNonces)
      ensures state == if reset.Some? then StateAfter(old(state), reset.value) else old(state)
      ensures priced.baseFee == if reset.Some? && reset.value.baseFee.Some? then reset.value.baseFee else old(priced.baseFee)
      ensures reset == None || reset.value.newState == None ==> forall a :: run.found(a) == old(View(a))
      ensures reset.Some? && reset.value.newState.Some? ==>
                && (forall a :: Shrunk(old(View(a)).(virtual := state.Nonce(a)), run.found(a)))
                && (old(HasRoomFor(SlotsOfAll(reset.value.reinject))) ==> forall a ::
                      run.found(a) == AfterBatch(old(View(a)).(virtual := state.Nonce(a)), a, reset.value.reinject, a in locals, state,
                                                 gasPrice, config.priceBump))
      ensures forall a :: if reset.Some? || a in dirty then PromotesAt(run.found(a), run.round(a), a) else run.round(a) == run.found(a)
      ensures forall a :: if reset.Some? then DemotesAt(run.round(a), run.settled(a), a) else run.settled(a) == run.round(a)
      ensures NoRepeats(promoted)
      ensures forall t :: t in promoted <==> Holds(run.round(t.sender).pending, t) && !Holds(run.found(t.sender).pending, t)
      ensures reset == None && old(Executable()) ==> forall a :: a in dirty ==> NextComesUp(run.found(a), run.settled(a), a)
      ensures forall a :: OnlyCut(run.settled(a), View(a)) && (a in locals ==> View(a) == run.settled(a))
      ensures forall a :: ItemsAt(run.pending, a) == run.settled(a).pending && ItemsAt(run.queue, a) == run.settled(a).queued
      ensures Sums.Total(run.pending, ListLen) <= config.globalSlots ==> forall a :: SamePending(run.settled(a), View(a))
      ensures Sums.Total(run.queue, ListLen) <= config.globalQueue ==> forall a :: View(a).queued == run.settled(a).queued
      ensures old(Executable()) && (reset.Some? ==> NoGapLeft(run.found, old(state), state)) ==> Executable()
      ensures old(Executable()) && (reset.Some? ==> LowersNoNonce(old(state), reset.value)) ==> Executable()
      ensures || Sums.Total(pending, ListLen) <= config.globalSlots
              || forall a :: a !in locals ==> LenAt(pending, a) <= config.accountSlots
      ensures Sums.Total(queue, ListLen) <= config.globalQueue || forall a :: a !in locals ==> ItemsAt(queue, a) == map[]
    {
      hide *;
      DisjointViews();
      promoted, run := PromoteOrReset(reset, dirty, now);
      if reset == None && old(Executable()) {
        forall a | a in dirty
          ensures NextComesUp(run.found(a), run.settled(a), a)
        {
          ExecutableOne(a);
          NextIsUp(run.found(a), run.settled(a), a);
        }
      }
      TruncateAll(now);
      ClearChanges();
    }

    /** A transaction queued at the virtual nonce is pending then, if it may stay. */
    ghost predicate NextComesUp(acc: Account, acc': Account, a: Address)
      reads this`state
    {
      MayStay(acc.queued, acc.virtual, state.Nonce(a), state.Balance(a), state.gasLimit) ==>
        acc.virtual in acc'.pending && acc'.pending[acc.virtual] == acc.queued[acc.virtual]
    }

    lemma NextIsUp(acc: Account, acc': Account, a: Address)
      requires ExecutableAt(acc, state.Nonce(a)) && acc.pending.Keys !! acc.queued.Keys && PromotesAt(acc, acc', a)
      ensures NextComesUp(acc, acc', a)
    {
      hide Promotes;
      NextIsPromoted(acc, acc', state.Nonce(a), state.Balance(a), state.gasLimit, a in locals, config.accountQueue);
    }

    /** The run up to the truncation. */
    method PromoteOrReset(reset: Option<ResetRequest>, dirty: seq<Address>, now: int) returns (promoted: seq<Tx>, ghost run: Stages)
      requires Valid() && Distinct(dirty) && pendingNonces.fallback == state.nonces
      modifies this, all, priced, pendingNonces
      ensures Valid() && locals == old(locals) && gasPrice == old(gasPrice) && pendingNonces.fallback == state.nonces
      ensures pendingNonces == old(pendingNonces) || fresh(pendingNonces)
      ensures state == if reset.Some? then StateAfter(old(state), reset.value) else old(state)
      ensures priced.baseFee == if reset.Some? && reset.value.baseFee.Some? then reset.value.baseFee else old(priced.baseFee)
      ensures reset == None || reset.value.newState == None ==> forall a :: run.found(a) == old(View(a))
      ensures reset.Some? && reset.value.newState.Some? ==>
                && (forall a :: Shrunk(old(View(a)).(virtual := state.Nonce(a)), run.found(a)))
                && (old(HasRoomFor(SlotsOfAll(reset.value.reinject))) ==> forall a ::
                      run.found(a) == AfterBatch(old(View(a)).(virtual := state.Nonce(a)), a, reset.value.reinject, a in locals, state,
                                                 gasPrice, config.priceBump))
      ensures forall a :: if reset.Some? || a in dirty then PromotesAt(run.found(a), run.round(a), a) else run.round(a) == run.found(a)
      ensures forall a :: if reset.Some? then DemotesAt(run.round(a), run.settled(a), a) else run.settled(a) == run.round(a)
      ensures NoRepeats(promoted)
      ensures forall t :: t in promoted <==> Holds(run.round(t.sender).pending, t) && !Holds(run.found(t.sender).pending, t)
      ensures forall a :: run.settled(a) == View(a)
      ensures run.pending == pending && run.queue == queue
      ensures forall a :: ItemsAt(run.pending, a) == run.settled(a).pending && ItemsAt(run.queue, a) == run.settled(a).queued
      ensures old(Executable()) && (reset.Some? ==> NoGapLeft(run.found, old(state), state)) ==> Executable()
      ensures old(Executable()) && (reset.Some? ==> LowersNoNonce(old(state), reset.value)) ==> Executable()
    {
      hide *;
      ghost var found, round := GhostViews(), GhostViews();
      if reset.Some? {
        promoted, found, round := ResetTo(reset.value, now);
        NoGapNoLoss(old(state), state, reset.value, found);
        NowExecutable();
      } else {
        promoted := PromoteRound(dirty, now);
        round := GhostViews();
      }
      run := Stages(found, round, GhostViews(), pending, queue);
      SettledLists();
    }

    /** The accounts as they are now. */
    ghost function GhostViews(): (views: Address -> Account)
      reads this, pendingNonces
      ensures forall a :: views(a) == View(a)
    {
      var all := imap a: Address :: View(a);
      (a: Address) => if a in all then all[a] else Account(map[], map[], 0)
    }

    lemma SettledLists()
      ensures forall a :: ItemsAt(pending, a) == View(a).pending && ItemsAt(queue, a) == View(a).queued
    {
    }

    lemma NowExecutable()
      requires pendingNonces.fallback == state.nonces
      ensures (forall a :: ExecutableAt(View(a), state.Nonce(a))) ==> Executable()
    {
    }

    /** Any run of the pool: batches added, reorganisation runs, price changes and evictions in
        any order. The structures always agree, and as long as no reset lowers a nonce every
        account stays executable. */
    method Run(steps: seq<Step>)
      requires Valid() && Executable() && forall i :: 0 <= i < |steps| && steps[i].Reorganise? ==> Distinct(steps[i].dirty)
      modifies this, all, priced, pendingNonces
      ensures Valid()
      ensures NeverLowers(steps, old(state)) ==> Executable()
      ensures state == LastState(steps, old(state)) && gasPrice == LastPrice(steps, old(gasPrice))
    {
      hide TxPool.Valid, TxPool.Executable, LowersNoNonce;
      FallbackIsState();
      for i := 0 to |steps|
        invariant Valid() && pendingNonces.fallback == state.nonces
        invariant pendingNonces == old(pendingNonces) || fresh(pendingNonces)
        invariant NeverLowers(steps, old(state)) ==> Executable() && NeverLowers(steps[i..], state)
        invariant LastState(steps, old(state)) == LastState(steps[i..], state)
        invariant LastPrice(steps, old(gasPrice)) == LastPrice(steps[i..], gasPrice)
      {
        assert steps[i..][1..] == steps[i + 1..];
        TakeStep(steps[i]);
      }
    }

    lemma FallbackIsState()
      requires Executable()
      ensures pendingNonces.fallback == state.nonces
    {
    }

    method TakeStep(step: Step)
      requires Valid() && pendingNonces.fallback == state.nonces && (step.Reorganise? ==> Distinct(step.dirty))
      modifies this, all, priced, pendingNonces
      ensures Valid() && pendingNonces.fallback == state.nonces
      ensures pendingNonces == old(pendingNonces) || fresh(pendingNonces)
      ensures state == step.StateAfterStep(old(state))
      ensures gasPrice == if step.ChangePrice? then step.price else old(gasPrice)
      ensures old(Executable()) && step.Harmless(old(state)) ==> Executable()
    {
      hide TxPool.Valid, TxPool.Executable, LowersNoNonce;
      match step {
        case AddBatch(txs, local, now) => var errs, dirty := AddTxs(txs, local, now);
        case Reorganise(reset, dirty, now) =>
          var promoted;
          ghost var run;
          promoted, run := RunReorg(reset, dirty, now);
        case ChangePrice(price, now) => SetGasPrice(price, now);
        case Evict(hash, now) => EvictTx(hash, now);
      }
    }

    method EvictTx(hash: TxHash, now: int)
      requires Valid()
      modifies this`pending, this`queue, this`beats, all, pendingNonces, priced`stales, priced`urgent, priced`floating
      ensures Valid() && (old(Executable()) ==> Executable())
    {
      RemoveTx(hash, true, now);
    }

    method ClearChanges()
      requires Valid()
      modifies this`changesSinceReorg
      ensures Valid() && (old(Executable()) ==> Executable()) && changesSinceReorg == 0
      ensures forall a :: View(a) == old(View(a))
    {
      changesSinceReorg := 0;
      forall a
        ensures View(a) == old(View(a))
      {
      }
    }

    method TruncateAll(now: int)
      requires Valid()
      modifies this`pending, this`queue, this`beats, all, pendingNonces, priced`stales, priced`urgent, priced`floating
      ensures Valid() && (old(Executable()) ==> Executable())
      ensures || Sums.Total(pending, ListLen) <= config.globalSlots
              || forall a :: a !in locals ==> LenAt(pending, a) <= config.accountSlots
      ensures Sums.Total(queue, ListLen) <= config.globalQueue || forall a :: a !in locals ==> ItemsAt(queue, a) == map[]
      ensures forall a :: OnlyCut(old(View(a)), View(a)) && (a in locals ==> View(a) == old(View(a)))
      ensures old(Sums.Total(pending, ListLen)) <= config.globalSlots ==> forall a :: SamePending(old(View(a)), View(a))
      ensures old(Sums.Total(queue, ListLen)) <= config.globalQueue ==> forall a :: View(a).queued == old(View(a)).queued
    {
      hide TxPool.Valid, TxPool.Executable, AllCut, IsCut, TxPool.View, Spams;
      var offenders := TruncatePending();
      PendingWasCut();
      TruncateQueueKeepingPending(now);
    }

    /** Of what is pending and queued the highest nonces went, if any. */
    ghost predicate OnlyCut(acc: Account, acc': Account) {
      IsCut(acc.pending, acc'.pending) && IsCut(acc.queued, acc'.queued)
    }

    ghost predicate SamePending(acc: Account, acc': Account) {
      acc'.pending == acc.pending && acc'.virtual == acc.virtual
    }

    twostate lemma PendingWasCut()
      requires AllCut(old(pending), pending) && queue == old(queue)
      ensures forall a :: IsCut(old(View(a)).pending, View(a).pending) && View(a).queued == old(View(a)).queued
      ensures forall a :: !Spams(old(pending), locals, config.accountSlots, a) || a !in locals
      ensures Sums.Total(queue, ListLen) == old(Sums.Total(queue, ListLen))
    {
      forall a
        ensures IsCut(old(View(a)).pending, View(a).pending)
      {
        assert IsCut(ItemsAt(old(pending), a), ItemsAt(pending, a));
      }
    }

    method TruncateQueueKeepingPending(now: int)
      requires Valid()
      modifies this`pending, this`queue, this`beats, all, pendingNonces, priced`stales, priced`urgent, priced`floating
      ensures Valid() && (old(Executable()) ==> Executable())
      ensures Sums.Total(pending, ListLen) == old(Sums.Total(pending, ListLen))
      ensures forall a :: LenAt(pending, a) == LenAt(old(pending), a)
      ensures Sums.Total(queue, ListLen) <= config.globalQueue || forall a :: a !in locals ==> ItemsAt(queue, a) == map[]
      ensures forall a :: SamePending(old(View(a)), View(a)) && IsCut(old(View(a)).queued, View(a).queued)
      ensures forall a :: a in locals ==> View(a) == old(View(a))
      ensures old(Sums.Total(queue, ListLen)) <= config.globalQueue ==> forall a :: View(a) == old(View(a))
    {
      hide TxPool.Valid, TxPool.Executable, IsCut;
      TruncateQueue(now);
      forall a
        ensures ItemsAt(pending, a) == ItemsAt(old(pending), a)
        ensures ItemsAt(queue, a) == View(a).queued && ItemsAt(old(queue), a) == old(View(a)).queued
        ensures IsCut(old(View(a)).queued, View(a).queued)
      {
        assert View(a).pending == old(View(a)).pending;
        CutNothing(View(a).queued);
      }
      TotalByItems(old(pending), pending);
      if old(Sums.Total(queue, ListLen)) <= config.globalQueue {
        TotalByItems(old(queue), queue);
      }
    }
  }

  /** The stages of a reorganisation run: each account once the lost transactions have been put
      back, once what is executable has been promoted, and before the truncation; and the lists
      then. */
  datatype Stages = Stages(found: Address -> Account, round: Address -> Account, settled: Address -> Account,
                           pending: Lists, queue: Lists)

  /** What asks for a reset: the state of the new head if it could be read, transactions to
      put back, and the base fee of the next block once there is one. */
  datatype ResetRequest = ResetRequest(newState: Option<ChainState>, reinject: seq<Submission>, baseFee: Option<int>)

  /** The chain state after a reset; it stays when the new one cannot be read. */
  function StateAfter(state: ChainState, req: ResetRequest): ChainState {
    if req.newState.Some? then req.newState.value else state
  }

  lemma NewStateOf(state: ChainState, req: ResetRequest)
    ensures StateAfter(state, req) == if req.newState == None then state else req.newState.value
  {
  }

  /** What may happen to the pool from outside, and when. */
  datatype Step = AddBatch(txs: seq<Submission>, local: bool, now: int)
                | Reorganise(reset: Option<ResetRequest>, dirty: seq<Address>, now: int)
                | ChangePrice(price: int, now: int) | Evict(hash: TxHash, now: int)
  {
    function StateAfterStep(state: ChainState): ChainState {
      if Reorganise? && reset.Some? then StateAfter(state, reset.value) else state
    }

    ghost predicate Harmless(state: ChainState) {
      Reorganise? && reset.Some? ==> LowersNoNonce(state, reset.value)
    }
  }

  /** The chain state and the price floor after a run. */
  function LastState(steps: seq<Step>, state: ChainState): ChainState {
    if steps == [] then state else LastState(steps[1..], steps[0].StateAfterStep(state))
  }

  function LastPrice(steps: seq<Step>, price: int): int {
    if steps == [] then price else LastPrice(steps[1..], if steps[0].ChangePrice? then steps[0].price else price)
  }

  /** No step of the run lowers a state nonce. */
  ghost predicate NeverLowers(steps: seq<Step>, state: ChainState) {
    steps == [] || (steps[0].Harmless(state) && NeverLowers(steps[1..], steps[0].StateAfterStep(state)))
  }

  ghost predicate LowersNoNonce(state: ChainState, req: ResetRequest) {
    req.newState.Some? ==> forall a :: state.Nonce(a) <= req.newState.value.Nonce(a)
  }

  ghost predicate NoGapLeft(found: Address -> Account, state0: ChainState, state: ChainState) {
    forall a :: !LeavesGap(found(a), state0.Nonce(a), state, a)
  }

  /** Only lowered nonces leave gaps. */
  lemma NoGapNoLoss(state0: ChainState, state: ChainState, req: ResetRequest, found: Address -> Account)
    requires state == StateAfter(state0, req)
    ensures req.newState == None || LowersNoNonce(state0, req) ==> NoGapLeft(found, state0, state)
    ensures NoGapLeft(found, state0, state) ==> forall a :: !LeavesGap(found(a), state0.Nonce(a), state, a)
  {
  }

  /** A transaction handed to the pool, with the verdicts the model leaves to others: `early` is
      the one on type, encoded size and sign of the value, `signed` stands for a recoverable
      signature, and `intrinsicGas` for what the data costs. */
  datatype Submission = Submission(tx: Tx, early: Option<PoolError>, signed: bool, intrinsicGas: nat)

  /** The reason for refusing a submission applies to it. */
  predicate Applies(reason: PoolError, sub: Submission, local: bool, state: ChainState, gasPrice: int) {
    var tx := sub.tx;
    match reason
    case GasLimit => tx.gas > state.gasLimit
    case FeeCapVeryHigh => BitLenOver256(tx.feeCap)
    case TipVeryHigh => BitLenOver256(tx.tipCap)
    case TipAboveFeeCap => tx.tipCap > tx.feeCap
    case InvalidSender => !sub.signed
    case Underpriced => !local && tx.tipCap < gasPrice
    case NonceTooLow => tx.nonce < state.Nonce(tx.sender)
    case InsufficientFunds => tx.cost > state.Balance(tx.sender)
    case IntrinsicGas => tx.gas < sub.intrinsicGas
    case _ => false
  }

  /** The checks of validateTx, in its order. */
  function ValidateTx(sub: Submission, local: bool, state: ChainState, gasPrice: int): (err: Option<PoolError>)
    ensures err == None <==>
              && sub.early == None && sub.signed && sub.intrinsicGas <= sub.tx.gas
              && !BitLenOver256(sub.tx.feeCap) && !BitLenOver256(sub.tx.tipCap) && Admissible(sub.tx, local, state, gasPrice)
    ensures err.Some? ==> if sub.early.Some? then err == sub.early else Applies(err.value, sub, local, state, gasPrice)
  {
    var tx := sub.tx;
    if sub.early != None then sub.early
    else if state.gasLimit < tx.gas then Some(GasLimit)
    else if BitLenOver256(tx.feeCap) then Some(FeeCapVeryHigh)
    else if BitLenOver256(tx.tipCap) then Some(TipVeryHigh)
    else if tx.feeCap < tx.tipCap then Some(TipAboveFeeCap)
    else if !sub.signed then Some(InvalidSender)
    else if !local && tx.tipCap < gasPrice then Some(Underpriced)
    else if state.Nonce(tx.sender) > tx.nonce then Some(NonceTooLow)
    else if state.Balance(tx.sender) < tx.cost then Some(InsufficientFunds)
    else if tx.gas < sub.intrinsicGas then Some(IntrinsicGas)
    else None
  }

  /** What a transaction has to meet to be let in. */
  ghost predicate Admissible(tx: Tx, local: bool, state: ChainState, gasPrice: int) {
    && !Over(tx, state.Balance(tx.sender), state.gasLimit)
    && tx.tipCap <= tx.feeCap && (local || gasPrice <= tx.tipCap)
    && state.Nonce(tx.sender) <= tx.nonce
  }

  /** The account after one of its transactions was submitted to a pool with room for it. */
  function AfterSubmission(acc: Account, sub: Submission, local: bool, state: ChainState, gasPrice: int, priceBump: nat): Account {
    if ValidateTx(sub, local, state, gasPrice) == None then AfterOffer(acc, sub.tx, priceBump) else acc
  }

  /** Account `a` after a batch was submitted to a pool with room for all of it. */
  function AfterBatch(acc: Account, a: Address, subs: seq<Submission>, local: bool, state: ChainState, gasPrice: int,
                      priceBump: nat): Account
  {
    if subs == [] then acc else
    var last := subs[|subs| - 1];
    var before := AfterBatch(acc, a, subs[..|subs| - 1], local, state, gasPrice, priceBump);
    if last.tx.sender == a then AfterSubmission(before, last, local, state, gasPrice, priceBump) else before
  }

  /** One of the first `n` submissions of a batch is let in for account `a`, at a nonce that was
      free. */
  ghost predicate BecomesDirty(acc: Account, a: Address, subs: seq<Submission>, n: nat, local: bool, state: ChainState,
                               gasPrice: int, priceBump: nat)
    requires n <= |subs|
  {
    exists i :: 0 <= i < n && MakesDirty(acc, a, subs, i, local, state, gasPrice, priceBump)
  }

  ghost predicate MakesDirty(acc: Account, a: Address, subs: seq<Submission>, i: nat, local: bool, state: ChainState, gasPrice: int,
                             priceBump: nat)
    requires i < |subs|
  {
    && subs[i].tx.sender == a && ValidateTx(subs[i], local, state, gasPrice) == None
    && NonceIsFree(AfterBatch(acc, a, subs[..i], local, state, gasPrice, priceBump), subs[i].tx.nonce)
  }

  /** Whatever the account has at its nonce, the transaction outbids. */
  ghost predicate OutbidsAny(tx: Tx, acc: Account, priceBump: nat) {
    && (tx.nonce in acc.pending ==> Outbids(tx, acc.pending[tx.nonce], priceBump))
    && (tx.nonce in acc.queued && tx.nonce !in acc.pending ==> Outbids(tx, acc.queued[tx.nonce], priceBump))
  }

  /** The transaction is pending if one was pending at its nonce, and else queued. Nothing else of
      the account changed. */
  ghost predicate IsPut(tx: Tx, acc: Account, acc': Account) {
    && Holds(if tx.nonce in acc.pending then acc'.pending else acc'.queued, tx)
    && acc'.pending - {tx.nonce as nat} == acc.pending - {tx.nonce as nat}
    && acc'.queued - {tx.nonce as nat} == acc.queued - {tx.nonce as nat}
    && (tx.nonce in acc'.pending <==> tx.nonce in acc.pending) && acc'.virtual == acc.virtual
  }

  lemma PutIfAccepted(acc: Account, sub: Submission, local: bool, state: ChainState, gasPrice: int, priceBump: nat)
    ensures var acc' := AfterSubmission(acc, sub, local, state, gasPrice, priceBump);
            if ValidateTx(sub, local, state, gasPrice) == None && OutbidsAny(sub.tx, acc, priceBump) then IsPut(sub.tx, acc, acc')
            else acc' == acc
    ensures GetsIn(acc, sub.tx, priceBump) <==> OutbidsAny(sub.tx, acc, priceBump)
  {
  }

  /** What the pool answers to a submission that it has room for. */
  ghost function Answer(acc: Account, sub: Submission, local: bool, state: ChainState, gasPrice: int, priceBump: nat): Option<PoolError> {
    if Holds(acc.pending, sub.tx) || Holds(acc.queued, sub.tx) then Some(AlreadyKnown) else
    var err := ValidateTx(sub, local, state, gasPrice);
    if err == None && !GetsIn(acc, sub.tx, priceBump) then Some(ReplaceUnderpriced) else err
  }

  /** What it answers to the one at index `i` of a batch, once those before it have been added. */
  ghost function AnswerAt(acc: Account, subs: seq<Submission>, i: nat, local: bool, state: ChainState, gasPrice: int,
                          priceBump: nat): Option<PoolError>
    requires i < |subs|
  {
    Answer(AfterBatch(acc, subs[i].tx.sender, subs[..i], local, state, gasPrice, priceBump), subs[i], local, state, gasPrice, priceBump)
  }

  lemma AnswerIs(acc: Account, subs: seq<Submission>, i: nat, local: bool, state: ChainState, gasPrice: int, priceBump: nat)
    requires i < |subs|
    ensures AnswerAt(acc, subs, i, local, state, gasPrice, priceBump) ==
            Answer(AfterBatch(acc, subs[i].tx.sender, subs[..i], local, state, gasPrice, priceBump), subs[i], local, state, gasPrice, priceBump)
  {
  }

  /** One of the first `n` submissions of a batch added as local is let in for account `a`, to its
      queue. */
  ghost predicate BecomesLocal(acc: Account, a: Address, subs: seq<Submission>, n: nat, state: ChainState, gasPrice: int, priceBump: nat)
    requires n <= |subs|
  {
    exists i :: 0 <= i < n && GoesToQueue(acc, a, subs, i, state, gasPrice, priceBump)
  }

  ghost predicate GoesToQueue(acc: Account, a: Address, subs: seq<Submission>, i: nat, state: ChainState, gasPrice: int, priceBump: nat)
    requires i < |subs|
  {
    && subs[i].tx.sender == a && AnswerAt(acc, subs, i, true, state, gasPrice, priceBump) == None
    && Holds(AfterBatch(acc, a, subs[..i + 1], true, state, gasPrice, priceBump).queued, subs[i].tx)
  }

  lemma LocalOneMore(acc: Account, a: Address, subs: seq<Submission>, i: nat, state: ChainState, gasPrice: int, priceBump: nat)
    requires i < |subs|
    ensures BecomesLocal(acc, a, subs, i + 1, state, gasPrice, priceBump) <==>
              || BecomesLocal(acc, a, subs, i, state, gasPrice, priceBump)
              || (&& subs[i].tx.sender == a && AnswerAt(acc, subs, i, true, state, gasPrice, priceBump) == None
                  && Holds(AfterBatch(acc, a, subs[..i + 1], true, state, gasPrice, priceBump).queued, subs[i].tx))
  {
    hide AfterBatch, AnswerAt, Holds;
    assert GoesToQueue(acc, a, subs, i, state, gasPrice, priceBump) <==>
           && subs[i].tx.sender == a && AnswerAt(acc, subs, i, true, state, gasPrice, priceBump) == None
           && Holds(AfterBatch(acc, a, subs[..i + 1], true, state, gasPrice, priceBump).queued, subs[i].tx);
  }

  /** The first `i` submissions of a batch have been offered to the accounts `start`, which became
      `views`, and the accounts `locals0` were local at the start. */
  ghost predicate AsOffered(start: Address -> Account, views: Address -> Account, locals0: set<Address>, locals: set<Address>,
                            txs: seq<Submission>, i: nat, errs: seq<Option<PoolError>>, dirty: set<Address>, local: bool,
                            state: ChainState, gasPrice: int, priceBump: nat)
  {
    && |errs| == i <= |txs|
    && (forall a :: views(a) == AfterBatch(start(a), a, txs[..i], local || a in locals0, state, gasPrice, priceBump))
    && (forall a :: a in dirty <==> BecomesDirty(start(a), a, txs, i, local || a in locals0, state, gasPrice, priceBump))
    && (forall k :: 0 <= k < i ==>
          errs[k] == AnswerAt(start(txs[k].tx.sender), txs, k, local || txs[k].tx.sender in locals0, state, gasPrice, priceBump))
    && forall a :: a in locals <==> a in locals0 || (local && BecomesLocal(start(a), a, txs, i, state, gasPrice, priceBump))
  }

  lemma NoneOffered(start: Address -> Account, locals: set<Address>, txs: seq<Submission>, local: bool, state: ChainState, gasPrice: int,
                    priceBump: nat)
    ensures AsOffered(start, start, locals, locals, txs, 0, [], {}, local, state, gasPrice, priceBump)
  {
  }

  lemma OneMoreOffered(start: Address -> Account, views: Address -> Account, views': Address -> Account, locals0: set<Address>,
                       locals: set<Address>, locals': set<Address>, txs: seq<Submission>, i: nat, errs: seq<Option<PoolError>>,
                       err: Option<PoolError>, dirty: set<Address>, isNew: bool, local: bool, state: ChainState, gasPrice: int,
                       priceBump: nat)
    requires i < |txs| && AsOffered(start, views, locals0, locals, txs, i, errs, dirty, local, state, gasPrice, priceBump)
    requires var sub := txs[i];
             var a := sub.tx.sender;
             var isLocal := local || a in locals0;
             && err == Answer(views(a), sub, isLocal, state, gasPrice, priceBump)
             && (isNew <==> ValidateTx(sub, isLocal, state, gasPrice) == None && NonceIsFree(views(a), sub.tx.nonce))
             && views'(a) == AfterSubmission(views(a), sub, isLocal, state, gasPrice, priceBump)
             && (forall b :: b != a ==> views'(b) == views(b))
             && locals' == if err == None && local && Holds(views'(a).queued, sub.tx) then locals + {a} else locals
    ensures AsOffered(start, views', locals0, locals', txs, i + 1, errs + [err], if isNew then dirty + {txs[i].tx.sender} else dirty, local,
                      state, gasPrice, priceBump)
  {
    hide AfterBatch, AfterSubmission, BecomesDirty, BecomesLocal, AnswerAt, Answer, ValidateTx, NonceIsFree, Holds;
    AnswerIs(start(txs[i].tx.sender), txs, i, local || txs[i].tx.sender in locals0, state, gasPrice, priceBump);
    forall a
      ensures views'(a) == AfterBatch(start(a), a, txs[..i + 1], local || a in locals0, state, gasPrice, priceBump)
      ensures BecomesDirty(start(a), a, txs, i + 1, local || a in locals0, state, gasPrice, priceBump) <==>
                || BecomesDirty(start(a), a, txs, i, local || a in locals0, state, gasPrice, priceBump)
                || (isNew && a == txs[i].tx.sender)
      ensures local ==>
                (BecomesLocal(start(a), a, txs, i + 1, state, gasPrice, priceBump) <==>
                || BecomesLocal(start(a), a, txs, i, state, gasPrice, priceBump)
                || (a == txs[i].tx.sender && err == None && Holds(views'(a).queued, txs[i].tx)))
    {
      BatchOneMore(start(a), a, txs, i, local || a in locals0, state, gasPrice, priceBump);
      LocalOneMore(start(a), a, txs, i, state, gasPrice, priceBump);
    }
  }

  lemma WhatWasOffered(start: Address -> Account, views: Address -> Account, locals0: set<Address>, locals: set<Address>,
                       txs: seq<Submission>, errs: seq<Option<PoolError>>, dirty: set<Address>, local: bool, state: ChainState,
                       gasPrice: int, priceBump: nat)
    ensures AsOffered(start, views, locals0, locals, txs, |txs|, errs, dirty, local, state, gasPrice, priceBump) ==>
              && |errs| == |txs|
              && (forall a :: views(a) == AfterBatch(start(a), a, txs, local || a in locals0, state, gasPrice, priceBump))
              && (forall a :: a in dirty <==> BecomesDirty(start(a), a, txs, |txs|, local || a in locals0, state, gasPrice, priceBump))
              && (forall k :: 0 <= k < |txs| ==>
                    errs[k] == AnswerAt(start(txs[k].tx.sender), txs, k, local || txs[k].tx.sender in locals0, state, gasPrice, priceBump))
              && forall a :: a in locals <==> a in locals0 || (local && BecomesLocal(start(a), a, txs, |txs|, state, gasPrice, priceBump))
  {
    assert txs[..|txs|] == txs;
  }

  lemma NothingSubmitted(acc: Account, a: Address, local: bool, state: ChainState, gasPrice: int, priceBump: nat)
    ensures AfterBatch(acc, a, [], local, state, gasPrice, priceBump) == acc
    ensures forall subs :: !BecomesDirty(acc, a, subs, 0, local, state, gasPrice, priceBump)
  {
  }

  lemma BatchOneMore(acc: Account, a: Address, subs: seq<Submission>, i: nat, local: bool, state: ChainState, gasPrice: int,
                     priceBump: nat)
    requires i < |subs|
    ensures var before := AfterBatch(acc, a, subs[..i], local, state, gasPrice, priceBump);
            AfterBatch(acc, a, subs[..i + 1], local, state, gasPrice, priceBump) ==
            if subs[i].tx.sender == a then AfterSubmission(before, subs[i], local, state, gasPrice, priceBump) else before
    ensures BecomesDirty(acc, a, subs, i + 1, local, state, gasPrice, priceBump) <==>
            || BecomesDirty(acc, a, subs, i, local, state, gasPrice, priceBump)
            || (&& subs[i].tx.sender == a && ValidateTx(subs[i], local, state, gasPrice) == None
                && NonceIsFree(AfterBatch(acc, a, subs[..i], local, state, gasPrice, priceBump), subs[i].tx.nonce))
  {
    assert MakesDirty(acc, a, subs, i, local, state, gasPrice, priceBump) <==>
           && subs[i].tx.sender == a && ValidateTx(subs[i], local, state, gasPrice) == None
           && NonceIsFree(AfterBatch(acc, a, subs[..i], local, state, gasPrice, priceBump), subs[i].tx.nonce);
    assert subs[..i + 1][..i] == subs[..i];
  }

  /** The data slots that a batch takes up. */
  function SlotsOfAll(subs: seq<Submission>): nat {
    if subs == [] then 0 else subs[0].tx.slots + SlotsOfAll(subs[1..])
  }

  lemma SlotsOneLess(subs: seq<Submission>, i: nat)
    requires i < |subs|
    ensures SlotsOfAll(subs[i..]) == subs[i].tx.slots + SlotsOfAll(subs[i + 1..])
  {
    assert subs[i..][1..] == subs[i + 1..];
  }

  /** Gaining one transaction takes up its slots at most. */
  lemma SlotsGained(locals: map<TxHash, Tx>, remotes: map<TxHash, Tx>, locals': map<TxHash, Tx>, remotes': map<TxHash, Tx>, tx: Tx,
                    accepted: bool)
    requires Hashed(locals) && Hashed(remotes) && locals.Keys !! remotes.Keys
    requires Hashed(locals') && Hashed(remotes') && locals'.Keys !! remotes'.Keys
    requires GainsOnly(locals, remotes, locals', remotes', tx, accepted)
    ensures Sums.Total(locals', SlotsOf) + Sums.Total(remotes', SlotsOf) <=
            Sums.Total(locals, SlotsOf) + Sums.Total(remotes, SlotsOf) + tx.slots
  {
    Sums.TotalOfBoth(locals, remotes, SlotsOf);
    Sums.TotalOfBoth(locals', remotes', SlotsOf);
    var whole := (locals + remotes)[HashOf(tx) := tx];
    Sums.TotalUpdate(locals + remotes, SlotsOf, HashOf(tx), tx);
    forall h | h in locals' + remotes'
      ensures h in whole && (locals' + remotes')[h] == whole[h]
    {
      assert Known(locals', remotes', h.tx);
    }
    Sums.TotalOfPart(locals' + remotes', whole, SlotsOf);
  }

  lemma KnownIsNotOffered(p: Lists, q: Lists, locals: map<TxHash, Tx>, remotes: map<TxHash, Tx>, acc: Account, sub: Submission,
                          local: bool, state: ChainState, gasPrice: int, priceBump: nat)
    requires Consistent(p, q, locals, remotes, 0, map[])
    requires acc.pending == ItemsAt(p, sub.tx.sender) && acc.queued == ItemsAt(q, sub.tx.sender)
    ensures Known(locals, remotes, sub.tx) ==> AfterSubmission(acc, sub, local, state, gasPrice, priceBump) == acc
  {
    if Known(locals, remotes, sub.tx) {
      NotOverItself(p, q, locals, remotes, sub.tx, priceBump);
    }
  }

  /** A batch has an accepted transaction that outbids the one of this hash at its nonce. */
  ghost predicate OutbidBy(txs: seq<Submission>, errs: seq<Option<PoolError>>, h: TxHash, priceBump: nat) {
    exists i :: 0 <= i < |txs| && i < |errs| && errs[i] == None && txs[i].tx.sender == h.tx.sender
                && txs[i].tx.nonce == h.tx.nonce && Outbids(txs[i].tx, h.tx, priceBump)
  }

  /** The batch has this transaction, accepted. */
  ghost predicate AcceptedIn(txs: seq<Submission>, errs: seq<Option<PoolError>>, t: Tx) {
    exists i :: 0 <= i < |txs| && i < |errs| && txs[i].tx == t && errs[i] == None
  }

  /** It has an accepted one of this account. */
  ghost predicate AcceptedFrom(txs: seq<Submission>, errs: seq<Option<PoolError>>, a: Address) {
    exists i :: 0 <= i < |txs| && i < |errs| && txs[i].tx.sender == a && errs[i] == None
  }

  lemma AcceptedOneMore(txs: seq<Submission>, errs: seq<Option<PoolError>>, err: Option<PoolError>, priceBump: nat)
    requires |errs| < |txs|
    ensures var tx := txs[|errs|].tx;
            && (forall t :: AcceptedIn(txs, errs + [err], t) <==> AcceptedIn(txs, errs, t) || (err == None && t == tx))
            && (forall a :: AcceptedFrom(txs, errs + [err], a) <==> AcceptedFrom(txs, errs, a) || (err == None && a == tx.sender))
            && (forall h: TxHash :: OutbidBy(txs, errs + [err], h, priceBump) <==>
                  || OutbidBy(txs, errs, h, priceBump)
                  || (err == None && tx.sender == h.tx.sender && tx.nonce == h.tx.nonce && Outbids(tx, h.tx, priceBump)))
  {
    var errs', i := errs + [err], |errs|;
    assert errs'[i] == err && forall k :: 0 <= k < i ==> errs'[k] == errs[k];
    forall t
      ensures AcceptedIn(txs, errs', t) <==> AcceptedIn(txs, errs, t) || (err == None && t == txs[i].tx)
    {
      assert AcceptedIn(txs, errs', t) <== err == None && t == txs[i].tx;
    }
    forall a
      ensures AcceptedFrom(txs, errs', a) <==> AcceptedFrom(txs, errs, a) || (err == None && a == txs[i].tx.sender)
    {
      assert AcceptedFrom(txs, errs', a) <== err == None && a == txs[i].tx.sender;
    }
  }

  /** What the batch has done so far to lookup and local accounts: only accepted transactions have
      become known, filed by whether they or their accounts are local; local ones were lost only
      to one that outbids them; and only accounts of accepted ones have become local or dirty. */
  ghost predicate AsAdded(locals0: map<TxHash, Tx>, remotes0: map<TxHash, Tx>, accounts0: set<Address>, locals: map<TxHash, Tx>,
                          remotes: map<TxHash, Tx>, accounts: set<Address>, txs: seq<Submission>, errs: seq<Option<PoolError>>,
                          dirty: set<Address>, local: bool, priceBump: nat)
  {
    && |errs| <= |txs| && accounts0 <= accounts && (!local ==> accounts == accounts0)
    && (forall a :: a in accounts && a !in accounts0 ==> AcceptedFrom(txs, errs, a))
    && (forall h :: h in locals ==> h in locals0 || local || h.tx.sender in accounts0)
    && (forall h :: h in remotes ==> h in remotes0 || (!local && h.tx.sender !in accounts0))
    && (forall t :: Known(locals, remotes, t) ==> Known(locals0, remotes0, t) || AcceptedIn(txs, errs, t))
    && (forall h :: h in locals0 ==> h in locals || OutbidBy(txs, errs, h, priceBump))
    && forall a :: a in dirty ==> AcceptedFrom(txs, errs, a)
  }

  lemma NoneAdded(locals: map<TxHash, Tx>, remotes: map<TxHash, Tx>, accounts: set<Address>, txs: seq<Submission>, local: bool,
                  priceBump: nat)
    ensures AsAdded(locals, remotes, accounts, locals, remotes, accounts, txs, [], {}, local, priceBump)
    ensures KeepsUnlessOutbid(locals, remotes, locals, remotes, txs, [], priceBump)
  {
  }

  lemma OneMoreAdded(locals0: map<TxHash, Tx>, remotes0: map<TxHash, Tx>, accounts0: set<Address>,
                     locals1: map<TxHash, Tx>, remotes1: map<TxHash, Tx>, accounts1: set<Address>,
                     locals2: map<TxHash, Tx>, remotes2: map<TxHash, Tx>, accounts2: set<Address>,
                     txs: seq<Submission>, errs: seq<Option<PoolError>>, err: Option<PoolError>, dirty: set<Address>, isNew: bool,
                     local: bool, priceBump: nat)
    requires AsAdded(locals0, remotes0, accounts0, locals1, remotes1, accounts1, txs, errs, dirty, local, priceBump)
    requires |errs| < |txs| && (isNew ==> err == None)
    requires var tx := txs[|errs|].tx;
             && GainsOnly(locals1, remotes1, locals2, remotes2, tx, err == None)
             && SparesLocals(locals1, locals2, tx, err == None, priceBump)
             && FiledAs(tx, local || tx.sender in accounts0, err == None, locals1, remotes1, locals2, remotes2)
             && (accounts2 == accounts1 || (err == None && local && accounts2 == accounts1 + {tx.sender}))
    ensures AsAdded(locals0, remotes0, accounts0, locals2, remotes2, accounts2, txs, errs + [err],
                    if isNew then dirty + {txs[|errs|].tx.sender} else dirty, local, priceBump)
  {
    AcceptedOneMore(txs, errs, err, priceBump);
    hide AcceptedIn, AcceptedFrom, OutbidBy, Outbids, Known;
  }

  lemma WhatWasAdded(locals0: map<TxHash, Tx>, remotes0: map<TxHash, Tx>, accounts0: set<Address>, locals: map<TxHash, Tx>,
                     remotes: map<TxHash, Tx>, accounts: set<Address>, txs: seq<Submission>, errs: seq<Option<PoolError>>,
                     dirty: set<Address>, local: bool, priceBump: nat)
    requires AsAdded(locals0, remotes0, accounts0, locals, remotes, accounts, txs, errs, dirty, local, priceBump)
    ensures accounts0 <= accounts && (!local ==> accounts == accounts0)
    ensures forall a :: a in accounts && a !in accounts0 ==> local && AcceptedFrom(txs, errs, a)
    ensures forall h :: h in locals ==> h in locals0 || local || h.tx.sender in accounts0
    ensures forall h :: h in remotes ==> h in remotes0 || (!local && h.tx.sender !in accounts0)
    ensures forall t :: Known(locals, remotes, t) ==> Known(locals0, remotes0, t) || AcceptedIn(txs, errs, t)
    ensures forall h :: h in locals0 ==> h in locals || OutbidBy(txs, errs, h, priceBump)
    ensures forall a :: a in dirty ==> AcceptedFrom(txs, errs, a)
    ensures KeepsUnlessOutbid(locals0, remotes0, locals, remotes, txs, errs, priceBump) ==> forall t ::
              Known(locals0, remotes0, t) || AcceptedIn(txs, errs, t) ==>
                Known(locals, remotes, t) || OutbidBy(txs, errs, HashOf(t), priceBump)
  {
    hide AcceptedIn, AcceptedFrom, OutbidBy, Known;
  }

  /** What was known, and what was accepted, is still known unless an accepted one outbids it. */
  ghost predicate KeepsUnlessOutbid(locals0: map<TxHash, Tx>, remotes0: map<TxHash, Tx>, locals: map<TxHash, Tx>, remotes: map<TxHash, Tx>,
                                    txs: seq<Submission>, errs: seq<Option<PoolError>>, priceBump: nat)
  {
    forall t :: Known(locals0, remotes0, t) || AcceptedIn(txs, errs, t) ==>
                  Known(locals, remotes, t) || OutbidBy(txs, errs, HashOf(t), priceBump)
  }

  lemma OneMoreKept(locals0: map<TxHash, Tx>, remotes0: map<TxHash, Tx>, locals1: map<TxHash, Tx>, remotes1: map<TxHash, Tx>,
                    locals2: map<TxHash, Tx>, remotes2: map<TxHash, Tx>, txs: seq<Submission>, errs: seq<Option<PoolError>>,
                    err: Option<PoolError>, priceBump: nat)
    requires KeepsUnlessOutbid(locals0, remotes0, locals1, remotes1, txs, errs, priceBump) && |errs| < |txs|
    requires GainsOnly(locals1, remotes1, locals2, remotes2, txs[|errs|].tx, err == None)
    requires LosesOnly(locals1, remotes1, locals2, remotes2, txs[|errs|].tx, err == None, priceBump)
    ensures KeepsUnlessOutbid(locals0, remotes0, locals2, remotes2, txs, errs + [err], priceBump)
  {
    AcceptedOneMore(txs, errs, err, priceBump);
    hide AcceptedIn, OutbidBy, Outbids, Known;
  }

  lemma LostAnyway(locals: map<TxHash, Tx>, remotes: map<TxHash, Tx>, locals': map<TxHash, Tx>, remotes': map<TxHash, Tx>, tx: Tx,
                   replaced: bool, accepted: bool, priceBump: nat)
    requires replaced ==> accepted
    ensures LosesOnly(locals, remotes, locals', remotes', tx, replaced, priceBump) ==>
            LosesOnly(locals, remotes, locals', remotes', tx, accepted, priceBump)
  {
  }

  lemma SparedAnyway(locals: map<TxHash, Tx>, locals': map<TxHash, Tx>, tx: Tx, replaced: bool, accepted: bool, priceBump: nat)
    requires SparesLocals(locals, locals', tx, replaced, priceBump) && (replaced ==> accepted)
    ensures SparesLocals(locals, locals', tx, accepted, priceBump)
  {
  }

  /** A reset leaves an executable account with a gap exactly as what it finds says. */
  lemma GapAfterReset(before: Account, found: Account, state0: ChainState, state: ChainState, a: Address, local: bool, limit: nat,
                      stale: bool)
    requires found.pending.Keys !! found.queued.Keys && ExecutableAt(before, state0.Nonce(a))
    requires if stale then found == before && state == state0 else Shrunk(before.(virtual := state.Nonce(a)), found)
    ensures ExecutableAt(AfterReset(found, state, a, local, limit), state.Nonce(a)) <==> !LeavesGap(found, state0.Nonce(a), state, a)
  {
    hide AfterReset;
    if stale {
      ResetWithoutNews(found, state, a, local, limit);
    } else {
      ShrunkKeepsInterval(before.(virtual := state.Nonce(a)), found, state0.Nonce(a));
      ResetLeavesGap(found, state0.Nonce(a), state, a, local, limit);
    }
  }

  predicate BitLenOver256(x: int) {
    x >= 0x1_0000_0000_0000_0000_0000_0000_0000_0000_0000_0000_0000_0000_0000_0000_0000_0000 ||
    -x >= 0x1_0000_0000_0000_0000_0000_0000_0000_0000_0000_0000_0000_0000_0000_0000_0000_0000
  }

  lemma RemovedFromPending(p: Lists, q: Lists, locals: map<TxHash, Tx>, remotes: map<TxHash, Tx>, tx: Tx)
    requires Consistent(p, q, locals, remotes, tx.sender, map[])
    requires Known(locals, remotes, tx) && tx.nonce in ItemsAt(p, tx.sender)
    ensures var l := p[tx.sender].Removed(tx.nonce);
            var p' := if l.items == map[] then p - {tx.sender} else p[tx.sender := l];
            && l.items == Below(p[tx.sender].items, tx.nonce) && p[tx.sender].items[tx.nonce] == tx
            && Consistent(p', q, locals - {HashOf(tx)}, remotes - {HashOf(tx)}, tx.sender,
                          From(p[tx.sender].items, tx.nonce + 1))
  {
    var a, n := tx.sender, tx.nonce;
    assert Somewhere(p, q, a, map[], tx);
    var l := p[a].Removed(n);
    AboveAndBelow(p[a].items, n);
    OutOfPending(p, q, locals, remotes, a, l);
    var limbo := Difference(p[a].items, l.items);
    Forgotten(p[a := l], q, locals, remotes, a, limbo, n);
    EmptyListDropped(p[a := l], q, locals - {HashOf(tx)}, remotes - {HashOf(tx)}, a, limbo - {n}, a);
    assert p[a := l] - {a} == p - {a};
  }

  lemma RemovedFromQueue(p: Lists, q: Lists, locals: map<TxHash, Tx>, remotes: map<TxHash, Tx>, tx: Tx)
    requires Consistent(p, q, locals, remotes, tx.sender, map[])
    requires Known(locals, remotes, tx) && tx.nonce !in ItemsAt(p, tx.sender)
    ensures tx.nonce in ItemsAt(q, tx.sender)
    ensures var l := q[tx.sender].Removed(tx.nonce);
            var q' := if l.items == map[] then q - {tx.sender} else q[tx.sender := l];
            && l.items == q[tx.sender].items - {tx.nonce}
            && Consistent(p, q', locals - {HashOf(tx)}, remotes - {HashOf(tx)}, tx.sender, map[])
  {
    var a, n := tx.sender, tx.nonce;
    assert Somewhere(p, q, a, map[], tx);
    var l := q[a].Removed(n);
    OutOfQueue(p, q, locals, remotes, a, l);
    var limbo := Difference(q[a].items, l.items);
    assert limbo.Keys == {n} && limbo - {n} == map[];
    Forgotten(p, q[a := l], locals, remotes, a, limbo, n);
    EmptyListDropped(p, q[a := l], locals - {HashOf(tx)}, remotes - {HashOf(tx)}, a, map[], a);
    assert q[a := l] - {a} == q - {a};
  }

  lemma NothingForgotten(locals: map<TxHash, Tx>, remotes: map<TxHash, Tx>, a: Address)
    ensures Forgets(locals, remotes, locals, remotes, a, map[])
  {
  }

  lemma RunIsContiguous(items: map<nat, Tx>, start: nat)
    ensures var end := ReadyEnd(items, start);
            end > 0 ==> MinKey(items) < end && forall n :: n in Below(items, end) <==> MinKey(items) <= n < end
  {
  }

  lemma RunMembers(run: seq<Tx>, items: map<nat, Tx>, lo: nat, hi: nat)
    requires Keyed(items) && (forall n :: n in items <==> lo <= n < hi) && TxSortedMap.IsRun(run, items, lo, hi)
    ensures (forall t :: t in run <==> Holds(items, t)) && NoRepeats(run)
  {
    forall i, j | 0 <= i < j < |run|
      ensures run[i] != run[j]
    {
      var n: nat, m: nat := lo + i, lo + j;
      assert run[n - lo] == items[n] && run[m - lo] == items[m];
    }
    forall t
      ensures t in run <==> Holds(items, t)
    {
      if Holds(items, t) {
        assert run[t.nonce - lo] == items[t.nonce];
      }
      if t in run {
        var i :| 0 <= i < |run| && run[i] == t;
        var n: nat := lo + i;
        assert run[n - lo] == items[n];
      }
    }
  }

  lemma OneMoreGone(limbo: map<nat, Tx>, gone: map<nat, Tx>, rest: map<nat, Tx>, n: nat)
    requires PartOf(gone, limbo) && PartOf(rest, gone) && n in rest
    ensures n in limbo - (gone - rest.Keys).Keys && (limbo - (gone - rest.Keys).Keys)[n] == rest[n]
    ensures limbo - (gone - (rest - {n}).Keys).Keys == limbo - (gone - rest.Keys).Keys - {n}
  {
  }

  lemma KeysKept(lists: Lists, lists': Lists, a: Address, rest: set<Address>)
    requires rest <= lists.Keys && lists' - {a} == lists - {a}
    ensures rest - {a} <= lists'.Keys
  {
    forall b | b in rest - {a}
      ensures b in lists'
    {
      assert b in lists - {a};
    }
  }

  lemma CutNothing(items: map<nat, Tx>)
    ensures IsCut(items, items)
  {
  }

  lemma AllAreCut(p: Lists, p': Lists)
    requires forall a :: IsCut(ItemsAt(p, a), ItemsAt(p', a))
    ensures AllCut(p, p')
  {
  }

  lemma QueuedFacts(p: Lists, q: Lists, locals: map<TxHash, Tx>, remotes: map<TxHash, Tx>, a: Address, tx: Tx)
    requires Consistent(p, q, locals, remotes, 0, map[]) && Holds(ItemsAt(q, a), tx)
    ensures tx.sender == a && Known(locals, remotes, tx) && tx.nonce !in ItemsAt(p, a)
  {
  }

  lemma AfterQueueRemoval(acc: Account, n: nat)
    requires n !in acc.pending && n in acc.queued
    ensures AfterRemoval(acc, n) == acc.(queued := acc.queued - {n})
    ensures |acc.queued - {n}| == |acc.queued| - 1
  {
  }

  lemma StrictListAt(p: Lists, q: Lists, locals: map<TxHash, Tx>, remotes: map<TxHash, Tx>, a: Address)
    requires Consistent(p, q, locals, remotes, a, map[]) && a in p
    ensures p[a].strict && p[a].Valid() && ItemsAt(p, a) == p[a].items
  {
  }

  lemma LooseListAt(p: Lists, q: Lists, locals: map<TxHash, Tx>, remotes: map<TxHash, Tx>, a: Address)
    requires Consistent(p, q, locals, remotes, a, map[]) && a in q
    ensures !q[a].strict && q[a].Valid() && ItemsAt(q, a) == q[a].items
  {
  }

  lemma OrderlyIsCut(q: Lists, q': Lists, locals: set<Address>, beats: map<Address, int>, limit: nat, total: nat)
    requires QueueTruncated(q, q', locals, beats, limit, total)
    ensures AllCut(q, q') && forall a :: a in locals ==> ItemsAt(q', a) == ItemsAt(q, a)
  {
    hide AllCut;
  }

  lemma FilterKeepsPart(l: TxListState, balance: int, maxGas: nat)
    requires l.Valid()
    ensures var kept := l.Filtered(balance, maxGas);
            && kept.Valid() && kept.strict == l.strict && PartOf(kept.items, l.items)
            && kept.items == Affordable(l.strict, l.items, balance, maxGas)
  {
    FilterIsExact(l, balance, maxGas);
  }

  lemma CapKeepsPart(l: TxListState, threshold: nat)
    requires l.Valid()
    ensures var kept := l.CappedAt(threshold);
            && kept.Valid() && kept.strict == l.strict && PartOf(kept.items, l.items)
            && kept.items == Capped(l.items, threshold)
  {
    CappedIsPrefix(l.items, threshold);
  }

  lemma KeyedAt(p: Lists, q: Lists, locals: map<TxHash, Tx>, remotes: map<TxHash, Tx>, a: Address)
    requires Consistent(p, q, locals, remotes, 0, map[])
    ensures Keyed(ItemsAt(q, a))
  {
  }

  lemma OneItemLess(q: Lists, q': Lists, a: Address)
    requires forall b :: b != a ==> ItemsAt(q, b) == ItemsAt(q', b)
    requires |ItemsAt(q', a)| == |ItemsAt(q, a)| - 1
    ensures Sums.Total(q', ListLen) == Sums.Total(q, ListLen) - 1
  {
    TotalChanges(q, q', a);
  }

  /** `left` are the lowest `i` of the flattened `queued`. */
  ghost predicate LowestLeft(txs: seq<Tx>, queued: map<nat, Tx>, left: map<nat, Tx>, i: nat) {
    && i <= |txs| == |queued| && |left| == i
    && Keyed(left) && Flattens(txs[..i], left) && IsCut(queued, left)
  }

  lemma NothingDropped(txs: seq<Tx>, queued: map<nat, Tx>)
    requires Keyed(queued) && Flattens(txs, queued)
    ensures |txs| == |queued| && LowestLeft(txs, queued, queued, |txs|)
  {
    FlatteningIsUnique(txs, txs, queued);
    Sorting.WholePrefix(txs);
    CutNothing(queued);
  }

  lemma LowestLeftIsCut(txs: seq<Tx>, queued: map<nat, Tx>, left: map<nat, Tx>, i: nat)
    requires LowestLeft(txs, queued, left, i)
    ensures IsCut(queued, left) && |left| == i && |txs| == |queued|
  {
  }

  /** Of the lowest `i + 1` transactions the last goes next. */
  lemma CutLast(txs: seq<Tx>, queued: map<nat, Tx>, left: map<nat, Tx>, i: nat)
    requires LowestLeft(txs, queued, left, i + 1)
    ensures i < |txs| && Holds(left, txs[i])
    ensures LowestLeft(txs, queued, left - {txs[i].nonce}, i)
  {
    FlatteningEndsAtMax(txs[..i + 1], left);
    Sorting.PrefixOfPrefix(txs, i + 1, i);
    OneKeyLess(left, txs[i].nonce);
  }

  /** `left` are the transactions of `txs` from position `i` on. */
  ghost predicate HighestLeft(txs: seq<Tx>, left: map<nat, Tx>, i: nat) {
    && i <= |txs|
    && (forall k, m :: 0 <= k < m < |txs| ==> txs[k].nonce < txs[m].nonce)
    && (forall k :: i <= k < |txs| ==> Holds(left, txs[k]))
    && forall n :: n in left ==> exists k :: i <= k < |txs| && txs[k].nonce == n
  }

  lemma NoneTakenYet(txs: seq<Tx>, queued: map<nat, Tx>)
    requires Keyed(queued) && Flattens(txs, queued)
    ensures HighestLeft(txs, queued, 0)
  {
  }

  lemma TakeFirst(txs: seq<Tx>, left: map<nat, Tx>, i: nat)
    requires HighestLeft(txs, left, i) && i < |txs|
    ensures Holds(left, txs[i])
    ensures HighestLeft(txs, left - {txs[i].nonce}, i + 1)
  {
  }

  lemma AllTaken(txs: seq<Tx>, left: map<nat, Tx>)
    requires HighestLeft(txs, left, |txs|)
    ensures left == map[]
  {
  }

  /** The transactions of a list in nonce order. */
  method FlattenItems(items: map<nat, Tx>) returns (txs: seq<Tx>)
    requires Keyed(items)
    ensures Flattens(txs, items)
  {
    txs := [];
    var rest := items;
    ghost var cut: nat := 0;
    while rest != map[]
      invariant rest == From(items, cut) && Flattens(txs, Below(items, cut))
      decreases |rest|
    {
      hide Flattens, From, Below;
      var n := MinKey(rest);
      OneKeyLess(rest, n);
      assert rest[n] == items[n] by { FromIsPart(items, cut); }
      TxSortedMap.ExtendForward(txs, items, cut, n);
      txs, rest, cut := txs + [rest[n]], rest - {n}, n + 1;
    }
    NothingFrom(items, cut);
  }

  lemma FromIsPart(items: map<nat, Tx>, cut: nat)
    ensures PartOf(From(items, cut), items)
  {
  }

  lemma NothingFrom(items: map<nat, Tx>, cut: nat)
    requires From(items, cut) == map[]
    ensures Below(items, cut) == items
  {
    forall n | n in items
      ensures n < cut
    {
      assert n !in From(items, cut);
    }
  }

  lemma EmptyCut(items: map<nat, Tx>)
    ensures IsCut(items, map[])
  {
  }

  lemma CapByOne(l: TxListState)
    requires l.Valid() && |l.items| > 1
    ensures var kept := l.CappedAt(|l.items| - 1);
            && kept.items == l.items - {MaxKey(l.items)} && |kept.items| == |l.items| - 1
            && kept.strict == l.strict && kept.Valid()
  {
    var n := MaxKey(l.items);
    OneKeyLess(l.items, n);
    assert Capped(l.items - {n}, |l.items| - 1) == l.items - {n};
  }

  lemma OneListShorter(lists: Lists, a: Address, kept: TxListState)
    requires a in lists && Tidy(lists) && 0 < |kept.items| == |lists[a].items| - 1
    ensures Tidy(lists[a := kept])
    ensures lists[a := kept].Keys == lists.Keys
    ensures Sums.Total(lists[a := kept], ListLen) == Sums.Total(lists, ListLen) - 1
  {
    Sums.TotalUpdate(lists, ListLen, a, kept);
  }

  lemma CapToNothing(items: map<nat, Tx>)
    ensures Capped(items, 0) == map[] && Difference(items, map[]) == items
  {
  }

  function TooCostly(items: map<nat, Tx>, balance: int, maxGas: nat): map<nat, Tx> {
    map n | n in items && Over(items[n], balance, maxGas) :: items[n]
  }

  lemma SplitOffCostly(items: map<nat, Tx>, kept: map<nat, Tx>, limbo: map<nat, Tx>, drops: map<nat, Tx>, balance: int, maxGas: nat)
    requires kept == Affordable(true, items, balance, maxGas) && limbo == Difference(items, kept)
    requires drops == TooCostly(limbo, balance, maxGas) && Keyed(limbo)
    ensures PartOf(drops, limbo) && Keyed(drops)
    ensures forall a :: OwnedBy(limbo, a) ==> OwnedBy(drops, a)
    ensures limbo - drops.Keys == Stranded(items, balance, maxGas)
  {
  }

  lemma DeletedAt(lists: Lists, a: Address)
    requires a in lists && Tidy(lists - {a})
    ensures if lists[a].items == map[] then forall b :: ItemsAt(lists - {a}, b) == ItemsAt(lists, b) else Tidy(lists)
  {
    if lists[a].items != map[] {
      forall b | b in lists
        ensures lists[b].items != map[]
      {
        assert b == a || b in lists - {a};
      }
    }
  }

  lemma TidyWith(lists: Lists, a: Address, l: TxListState, tx: Tx)
    requires Tidy(lists)
    ensures Tidy(lists[a := l.Added(tx)])
  {
    assert tx.nonce in l.Added(tx).items;
  }

  lemma TidyWithout(lists: Lists, a: Address)
    requires Tidy(lists)
    ensures Tidy(lists - {a})
  {
  }

  lemma DisjointAt(p: Lists, q: Lists, locals: map<TxHash, Tx>, remotes: map<TxHash, Tx>, a: Address)
    requires Consistent(p, q, locals, remotes, a, map[])
    ensures ItemsAt(p, a).Keys !! ItemsAt(q, a).Keys
  {
  }

  lemma ReplacedAt(lists: Lists, a: Address, l: TxListState)
    ensures lists[a := l] - {a} == lists - {a}
    ensures forall b :: ItemsAt(lists[a := l], b) == if b == a then l.items else ItemsAt(lists, b)
  {
    forall b
      ensures ItemsAt(lists[a := l], b) == if b == a then l.items else ItemsAt(lists, b)
    {
    }
  }

  lemma InTransitFacts(p: Lists, q: Lists, locals: map<TxHash, Tx>, remotes: map<TxHash, Tx>, a: Address, limbo: map<nat, Tx>)
    requires Consistent(p, q, locals, remotes, a, limbo)
    ensures InTransit(limbo, a, p, q)
  {
  }

  lemma StillUnknown(locals: map<TxHash, Tx>, remotes: map<TxHash, Tx>,
                     locals': map<TxHash, Tx>, remotes': map<TxHash, Tx>, tx: Tx)
    requires GainsOnly(locals, remotes, locals', remotes', tx, false) && !Known(locals, remotes, tx)
    ensures !Known(locals', remotes', tx)
  {
  }

  /** The transactions listed at a nonce of an account have that nonce and sender. */
  lemma OwnNonces(p: Lists, q: Lists, locals: map<TxHash, Tx>, remotes: map<TxHash, Tx>, a: Address, n: nat)
    requires Consistent(p, q, locals, remotes, 0, map[])
    ensures n in ItemsAt(p, a) ==> ItemsAt(p, a)[n].nonce == n && ItemsAt(p, a)[n].sender == a
    ensures n in ItemsAt(q, a) ==> ItemsAt(q, a)[n].nonce == n && ItemsAt(q, a)[n].sender == a
  {
  }

  lemma AboveAndBelow(items: map<nat, Tx>, n: nat)
    requires n in items
    ensures Difference(items, Below(items, n)) - {n} == From(items, n + 1)
    ensures PartOf(Below(items, n), items)
  {
  }

  lemma RunEnds(readies: map<nat, Tx>, lo: nat, hi: nat)
    requires lo <= hi && forall n :: n in readies <==> lo <= n < hi
    ensures From(readies, lo) == readies && From(readies, hi) == map[]
  {
  }

  lemma NextReady(readies: map<nat, Tx>, n: nat)
    requires Keyed(readies) && n in readies
    ensures n in From(readies, n) && From(readies, n)[n] == readies[n]
    ensures readies[n].nonce == n && Holds(From(readies, n), readies[n])
  {
  }

  lemma MoveOne(queued: map<nat, Tx>, rest: map<nat, Tx>, n: nat)
    requires n in rest
    ensures queued[n := rest[n]] + (rest - {n}) == queued + rest
  {
  }
}
