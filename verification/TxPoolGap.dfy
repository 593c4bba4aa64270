/** Runs of the transaction pool: a reset to a lower state nonce leaves a gap, and a reset to a new head
    leaves an executable transaction in the queue. */
module TxPoolGaps {
  import opened Wrappers
  import opened Transactions
  import opened TxSortedMaps
  import opened TxLists
  import opened TxLookups
  import opened TxPoolModel
  import opened TxPoolTruncation
  import opened TxPools
  import Sums

  /** A transfer of account 0 that costs this much and uses the least gas there is. */
  function Transfer(nonce: uint64, cost: int): Submission {
    Submission(Tx(0, nonce, 21000, cost, 1, 1, 1, 0), None, true, 21000)
  }

  function Sixth(): Submission {
    Transfer(5, 21000)
  }

  /** The fourth and the fifth. */
  function FourthAndFifth(): seq<Submission> {
    [Transfer(3, 21000), Transfer(4, 90000)]
  }

  /** Account 0 has five transactions in the chain and can pay for more. */
  const AHEAD := ChainState(map[0 := 5], map[0 := 100000], 30000000)

  /** On another branch it has three only, and a smaller balance. */
  const BEHIND := ChainState(map[0 := 3], map[0 := 60000], 30000000)

  const SIXTH := Account(map[5 := Sixth().tx], map[], 6)

  /** Account 0 alone has something in the pool. */
  ghost predicate Alone(pool: TxPool, acc: Account)
    reads pool, pool.pendingNonces
  {
    && pool.View(0) == acc
    && forall a :: a != 0 ==> pool.View(a).pending == map[] && pool.View(a).queued == map[]
  }

  lemma WhenAlone(pool: TxPool, acc: Account)
    ensures Alone(pool, acc) <==>
            pool.View(0) == acc && forall a :: a != 0 ==> pool.View(a).pending == map[] && pool.View(a).queued == map[]
  {
  }

  /** A pool in which account 0 has its sixth transaction pending. */
  method SixthPending() returns (pool: TxPool)
    ensures fresh(pool) && fresh(pool.all) && fresh(pool.priced) && fresh(pool.pendingNonces)
    ensures pool.Valid() && pool.Executable() && pool.config == DEFAULTS && pool.gasPrice == 1 && pool.locals == {}
    ensures pool.state == AHEAD && pool.View(0) == SIXTH && pool.HasRoomFor(2)
  {
    hide *;
    pool := SixthQueued();
    SixthGetsIn();
    WhenAlone(pool, QueuedSixth());
    JustOne(0);
    var promoted := pool.PromoteRound([0], 0);
    WhenAlone(pool, SIXTH);
    OneKnown(pool, Sixth().tx);
  }

  method SixthQueued() returns (pool: TxPool)
    ensures fresh(pool) && fresh(pool.all) && fresh(pool.priced) && fresh(pool.pendingNonces)
    ensures pool.Valid() && pool.Executable() && pool.config == DEFAULTS && pool.gasPrice == 1 && pool.locals == {}
    ensures pool.state == AHEAD && Alone(pool, QueuedSixth())
  {
    hide *;
    pool := new TxPool(DEFAULTS, 1, {}, AHEAD);
    EmptyPool(pool);
    SixthGetsIn();
    var replaced, err := pool.Add(Sixth(), false, 0);
    WhenAlone(pool, QueuedSixth());
  }

  ghost function QueuedSixth(): Account {
    Account(map[], map[5 := Sixth().tx], 5)
  }

  lemma EmptyPool(pool: TxPool)
    requires pool.Executable() && pool.pending == pool.queue == map[] && pool.state == AHEAD && pool.config == DEFAULTS.Sanitized()
    requires pool.all.slots == 0 && pool.gasPrice == 1 && pool.locals == {}
    ensures pool.config == DEFAULTS && pool.View(0) == Account(map[], map[], 5) && pool.HasRoomFor(Sixth().tx.slots)
    ensures forall a :: pool.View(a).pending == map[] && pool.View(a).queued == map[]
    ensures Sixth().tx.sender == 0
    ensures forall acc :: pool.Offered(acc, Sixth(), false) ==
                          AfterSubmission(acc, Sixth(), false, AHEAD, 1, DEFAULTS.priceBump)
  {
    StartsEmpty(pool.View(0), 5);
  }

  lemma JustOne(a: Address)
    ensures Distinct([a])
  {
  }

  lemma StartsEmpty(acc: Account, nonce: nat)
    requires acc.pending == acc.queued == map[] && ExecutableAt(acc, nonce)
    ensures acc == Account(map[], map[], nonce)
  {
    assert nonce in acc.pending <==> nonce <= nonce < acc.virtual;
  }

  lemma SixthGetsIn()
    ensures AfterSubmission(Account(map[], map[], 5), Sixth(), false, AHEAD, 1, DEFAULTS.priceBump) == QueuedSixth()
    ensures AfterRound(QueuedSixth(), AHEAD, 0, false, DEFAULTS.accountQueue) == SIXTH
    ensures SIXTH.pending == map[Sixth().tx.nonce as nat := Sixth().tx] && SIXTH.queued == map[]
  {
    var t := Sixth();
    var queue := map[5 := t.tx];
    var acc := Account(map[], queue, 5);
    assert acc == AfterSubmission(Account(map[], map[], 5), t, false, AHEAD, 1, DEFAULTS.priceBump);
    assert Payable(queue, 5, 100000, 30000000) == queue;
    ReadyFromLowest(queue, 5);
    assert RunEnd(queue, 5) == 6;
    assert Below(queue, 6) == queue && From(queue, 6) == map[];
    assert AfterPromotion(acc) == SIXTH;
    assert Capped(map[], DEFAULTS.accountQueue) == map[];
  }

  /** With one transaction in the pool there is room for two more. */
  lemma OneKnown(pool: TxPool, tx: Tx)
    requires pool.Valid() && pool.config == DEFAULTS && tx == Sixth().tx
    requires Alone(pool, SIXTH)
    ensures pool.HasRoomFor(2)
  {
    forall t | Known(pool.all.locals, pool.all.remotes, t)
      ensures t == tx
    {
      assert Somewhere(pool.pending, pool.queue, 0, map[], t);
      assert pool.View(t.sender).queued == map[];
    }
    assert Sums.Total<TxHash, Tx>(map[], SlotsOf) == 0;
    assert Somewhere(pool.pending, pool.queue, 0, map[], tx);
    SlotsGained(map[], map[], pool.all.locals, pool.all.remotes, tx, true);
  }

  /** Lowering a state nonce can open a gap that the reset does not close: of the
      transactions at 3 and 4 put back below the pending 5, the first is let in again and the
      second is refused, because the account can no longer pay for it. */
  method LoweredNonceLeavesGap() returns (pool: TxPool, ghost found: Account)
    ensures pool.Valid() && pool.state == BEHIND
    ensures ValidateTx(FourthAndFifth()[1], false, BEHIND, 1) == Some(InsufficientFunds)
    ensures LeavesGap(found, AHEAD.Nonce(0), BEHIND, 0) && found.queued.Keys == {3} && found.pending == SIXTH.pending
    ensures pool.View(0) == AfterReset(found, BEHIND, 0, false, DEFAULTS.accountQueue)
    ensures !ExecutableAt(pool.View(0), 3) && !pool.Executable()
  {
    hide *;
    pool := SixthPending();
    pool.FallbackIsState();
    FourthOnlyGetsIn();
    NewStateOf(AHEAD, ResetRequest(Some(BEHIND), FourthAndFifth(), None));
    var promoted;
    ghost var all, round;
    promoted, all, round := pool.ResetTo(ResetRequest(Some(BEHIND), FourthAndFifth(), None), 0);
    found := all(0);
    NotExecutableWith(pool, 0);
  }

  lemma FourthOnlyGetsIn()
    ensures var lost := FourthAndFifth();
            var found := AfterBatch(SIXTH.(virtual := 3), 0, lost, false, BEHIND, 1, DEFAULTS.priceBump);
            && |lost| == 2 && SlotsOfAll(lost) == 2 && ValidateTx(lost[1], false, BEHIND, 1) == Some(InsufficientFunds)
            && LeavesGap(found, 5, BEHIND, 0) && found.queued.Keys == {3} && found.pending == SIXTH.pending
    ensures BEHIND.Nonce(0) == 3 && AHEAD.Nonce(0) == 5
  {
    var lost := FourthAndFifth();
    var acc := SIXTH.(virtual := 3);
    assert SlotsOfAll(lost[1..]) == 1;
    NothingSubmitted(acc, 0, false, BEHIND, 1, DEFAULTS.priceBump);
    assert lost[..0] == [] && lost[..2] == lost;
    BatchOneMore(acc, 0, lost, 0, false, BEHIND, 1, DEFAULTS.priceBump);
    BatchOneMore(acc, 0, lost, 1, false, BEHIND, 1, DEFAULTS.priceBump);
    var found := AfterBatch(acc, 0, lost, false, BEHIND, 1, DEFAULTS.priceBump);
    assert found == acc.(queued := map[3 := lost[0].tx]);
    assert 4 !in Payable(found.queued, 3, 60000, 30000000);
  }

  function Seventh(): Submission {
    Transfer(6, 21000)
  }

  /** The seventh is queued behind the pending sixth. */
  const BOTH := Account(map[5 := Sixth().tx], map[6 := Seventh().tx], 6)

  /** A new head can leave an executable transaction in the queue, though no nonce is lowered: the
      seventh arrives before the head does, and the run that resets the pool promotes from the
      state nonce on, where the sixth is pending already. Without the head the same run makes the
      seventh pending. */
  method NewHeadLeavesNextQueued() returns (pool: TxPool)
    ensures pool.Valid() && pool.state == AHEAD && pool.View(0) == BOTH && ExecutableAt(BOTH, AHEAD.Nonce(0))
    ensures MayStay(BOTH.queued, BOTH.virtual, AHEAD.Nonce(0), AHEAD.Balance(0), AHEAD.gasLimit)
    ensures BOTH.virtual in AfterRound(BOTH, AHEAD, 0, false, DEFAULTS.accountQueue).pending
  {
    hide *;
    pool := SixthPending();
    pool.FallbackIsState();
    SeventhWaits();
    SeventhIsReady();
    OfferedSeventh(pool, SIXTH);
    RoomLeft(pool, 2);
    RoomLeft(pool, 1);
    var replaced, err := pool.Add(Seventh(), false, 0);
    RoomLeft(pool, 0);
    NewStateOf(AHEAD, ResetRequest(Some(AHEAD), [], None));
    NothingSubmitted(BOTH.(virtual := 5), 0, false, AHEAD, 1, DEFAULTS.priceBump);
    var promoted;
    ghost var found, round;
    promoted, found, round := pool.ResetTo(ResetRequest(Some(AHEAD), [], None), 0);
  }

  lemma SeventhWaits()
    ensures AfterSubmission(SIXTH, Seventh(), false, AHEAD, 1, DEFAULTS.priceBump) == BOTH && Seventh().tx.sender == 0
    ensures AHEAD.Nonce(0) == 5 && ExecutableAt(BOTH, 5)
    ensures MayStay(BOTH.queued, BOTH.virtual, AHEAD.Nonce(0), AHEAD.Balance(0), AHEAD.gasLimit)
  {
  }

  /** The run of the queue is promoted if it starts at the virtual nonce, and not if that was
      set back to the state nonce. */
  lemma SeventhIsReady()
    ensures BOTH.virtual in AfterRound(BOTH, AHEAD, 0, false, DEFAULTS.accountQueue).pending
    ensures AfterReset(BOTH.(virtual := 5), AHEAD, 0, false, DEFAULTS.accountQueue) == BOTH
  {
    SeventhAlone();
    hide Payable, ReadyEnd, Capped, AfterDemotion, AfterUpdate;
    BothStay();
    var queue := BOTH.queued;
    assert AfterPromotion(BOTH).pending == BOTH.pending + queue && 6 in queue;
    assert AfterPromotion(BOTH.(virtual := 5)) == BOTH.(virtual := 5);
  }

  lemma SeventhAlone()
    ensures var queue := BOTH.queued;
            && Payable(queue, 5, 100000, 30000000) == queue && ReadyEnd(queue, 6) == 7 && ReadyEnd(queue, 5) == 0
            && Capped(queue, DEFAULTS.accountQueue) == queue
            && Below(queue, 7) == queue && From(queue, 0) == queue && Below(queue, 0) == map[]
  {
    var queue := BOTH.queued;
    assert forall n :: n in queue <==> n == 6;
    assert RunEnd(queue, 6) == 7;
    assert Payable(queue, 5, 100000, 30000000) == queue;
  }

  lemma BothStay()
    ensures AfterUpdate(AfterDemotion(BOTH.(virtual := 5), AHEAD, 0), 5) == BOTH
  {
    var p := BOTH.pending;
    assert From(p, 5) == p && Affordable(true, p, 100000, 30000000) == p && Stranded(p, 100000, 30000000) == map[];
    assert 5 in p && MaxKey(p) == 5;
  }

  /** The room that a submission leaves. */
  lemma RoomLeft(pool: TxPool, slots: nat)
    ensures pool.config == DEFAULTS ==> (pool.HasRoomFor(slots) <==> pool.all.slots + slots <= DEFAULTS.globalSlots + DEFAULTS.globalQueue)
    ensures SlotsOfAll([]) == 0 && Seventh().tx.slots == 1
  {
  }

  lemma OfferedSeventh(pool: TxPool, acc: Account)
    requires pool.config == DEFAULTS && pool.gasPrice == 1 && pool.state == AHEAD
    ensures pool.Offered(acc, Seventh(), false) == AfterSubmission(acc, Seventh(), false, AHEAD, 1, DEFAULTS.priceBump)
  {
  }

  lemma NotExecutableWith(pool: TxPool, a: Address)
    ensures !ExecutableAt(pool.View(a), pool.state.Nonce(a)) ==> !pool.Executable()
  {
  }
}
