/** Processing the transactions of a block (core/state_processor.go). */
module StateProcessors {
  import opened Wrappers
  import opened Transactions
  import opened GasPools
  import opened StateTransitions

  /** A transaction of a block; the sender is missing when its signature is bad. The price of
      one that names a price rather than two caps is both its caps. */
  datatype BlockTx = BlockTx(sender: Option<Address>, to: Option<Address>, nonce: nat, gas: uint64, feeCap: nat, tipCap: nat,
                             value: nat, data: seq<Byte>, accessList: Option<seq<AccessTuple>>)

  datatype Receipt = Receipt(cumulativeGasUsed: nat, gasUsed: nat, failed: bool)

  /** The message of a transaction, at the price that is effective under the base fee. */
  function AsMessage(tx: BlockTx, sender: Address, c: Context): (m: Message)
    ensures WellPriced(m, c) && !m.isFake
    ensures m.from == sender && m.to == tx.to && m.nonce == tx.nonce && m.value == tx.value
    ensures m.gas == tx.gas && m.gasFeeCap == tx.feeCap && m.gasTipCap == tx.tipCap
    ensures m.data == tx.data && m.accessList == tx.accessList
  {
    var price := if c.baseFee.Some? then Min(tx.tipCap + c.baseFee.value, tx.feeCap) else tx.feeCap;
    Message(sender, tx.to, tx.nonce, tx.gas, price, tx.feeCap, tx.tipCap, tx.value, tx.data, tx.accessList, false)
  }

  function TotalGas(receipts: seq<Receipt>): nat {
    if receipts == [] then 0 else TotalGas(receipts[..|receipts| - 1]) + receipts[|receipts| - 1].gasUsed
  }

  /** The receipts count up the gas used, and each transaction found the gas it may use still
      left in the block. */
  ghost predicate Accounted(receipts: seq<Receipt>, txs: seq<BlockTx>, gasLimit: nat) {
    |receipts| <= |txs| && forall k :: 0 <= k < |receipts| ==> AccountedAt(receipts, txs, gasLimit, k)
  }

  ghost predicate AccountedAt(receipts: seq<Receipt>, txs: seq<BlockTx>, gasLimit: nat, k: nat)
    requires k < |receipts| <= |txs|
  {
    && receipts[k].cumulativeGasUsed == TotalGas(receipts[..k + 1])
    && receipts[k].gasUsed <= txs[k].gas <= gasLimit - TotalGas(receipts[..k])
  }

  lemma TotalOneMore(receipts: seq<Receipt>, receipt: Receipt)
    ensures TotalGas(receipts + [receipt]) == TotalGas(receipts) + receipt.gasUsed
  {
  }

  lemma OneMoreReceipt(receipts: seq<Receipt>, receipt: Receipt, txs: seq<BlockTx>, gasLimit: nat)
    requires Accounted(receipts, txs, gasLimit) && |receipts| < |txs|
    requires receipt.cumulativeGasUsed == TotalGas(receipts) + receipt.gasUsed
    requires receipt.gasUsed <= txs[|receipts|].gas <= gasLimit - TotalGas(receipts)
    ensures Accounted(receipts + [receipt], txs, gasLimit)
    ensures TotalGas(receipts + [receipt]) == TotalGas(receipts) + receipt.gasUsed
  {
    hide TotalGas;
    var n, more := |receipts|, receipts + [receipt];
    assert more[..n] == receipts && more[..n + 1] == more;
    TotalOneMore(receipts, receipt);
    forall k | 0 <= k < |more|
      ensures AccountedAt(more, txs, gasLimit, k)
    {
      if k < n {
        assert AccountedAt(receipts, txs, gasLimit, k);
        assert more[..k] == receipts[..k] && more[..k + 1] == receipts[..k + 1];
      }
    }
  }

  /** What is burnt per unit of gas in the block. */
  function BaseFee(c: Context): nat {
    if c.baseFee.Some? then c.baseFee.value else 0
  }

  /** Apply one transaction and make its receipt. */
  method ApplyTransaction(msg: Message, context: Context, gp: GasPool, state: StateDb, usedGas: nat, evm: Evm)
      returns (r: Result<Receipt, TxError>)
    requires WellPriced(msg, context) && !context.noBaseFee && gp.gas <= MAX_UINT64 && Conserving(evm)
    modifies gp, state
    ensures r.Ok? ==> r.value.gasUsed <= msg.gas <= old(gp.gas) && gp.gas == old(gp.gas) - r.value.gasUsed
    ensures r.Ok? ==> r.value.cumulativeGasUsed == usedGas + r.value.gasUsed
    ensures r.Ok? ==> Wealth(state.world) == old(Wealth(state.world)) - r.value.gasUsed * BaseFee(context)
    ensures r.Ok? && !msg.isFake ==> old(state.world).Nonce(msg.from) == msg.nonce
    ensures r.Ok? && !msg.isFake && KeepsAccounts(evm) ==> UsesUp(msg, old(state.world), state.world)
  {
    hide WellPriced, Conserving, KeepsAccounts, RunsIn, PaidOut, DataPriced, Intrinsic, Acceptable, Wealth, UsedAfterRefund, UsesUp,
         BurntPerGas;
    ghost var w := state.world;
    var st := new StateTransition(gp, state, msg, context);
    var result;
    ghost var ran;
    result, ran := st.TransitionDb(evm);
    if result.Err? {
      return Err(result.error);
    }
    if !msg.isFake && KeepsAccounts(evm) {
      NonceUsedUp(msg, context, w, ran, state.world, evm, result.value.usedGas, msg.gas - Intrinsic(msg, context));
    }
    BaseFeeIsBurnt(msg, context);
    var gasUsed := result.value.usedGas;
    return Ok(Receipt(usedGas + gasUsed, gasUsed, result.value.failed));
  }

  /** Of each sender the nonces go up, so no transaction is there twice. */
  ghost predicate NoReplay(txs: seq<BlockTx>, n: nat)
    requires n <= |txs|
  {
    forall j, k :: 0 <= j < k < n && txs[j].sender == txs[k].sender ==> txs[j].nonce < txs[k].nonce
  }

  /** The nonces of the first `n` transactions are used up. */
  ghost predicate AllUsedUp(txs: seq<BlockTx>, n: nat, w: World)
    requires n <= |txs|
  {
    forall k :: 0 <= k < n ==>
      txs[k].sender.Some? && txs[k].nonce < w.Nonce(txs[k].sender.value) && txs[k].sender.value !in w.contracts
  }

  lemma NothingUsedUp(txs: seq<BlockTx>, w: World)
    ensures NoReplay(txs, 0) && AllUsedUp(txs, 0, w)
  {
  }

  lemma OneMoreUsedUp(txs: seq<BlockTx>, n: nat, m: Message, w: World, w': World)
    requires n < |txs| && NoReplay(txs, n) && AllUsedUp(txs, n, w) && UsesUp(m, w, w')
    requires txs[n].sender == Some(m.from) && txs[n].nonce == m.nonce == w.Nonce(m.from)
    ensures NoReplay(txs, n + 1) && AllUsedUp(txs, n + 1, w')
  {
  }

  /** Process all transactions of a block. What the pool has left and what was used add up to
      the gas limit after every one of them, so the pool never overflows; the receipts carry
      the running total; and the ether burnt is the gas used times the base fee. */
  method Process(txs: seq<BlockTx>, gasLimit: uint64, state: StateDb, context: Context, evm: Evm)
      returns (r: Result<seq<Receipt>, TxError>, usedGas: nat)
    requires !context.noBaseFee && Conserving(evm)
    modifies state
    ensures r.Ok? ==> |r.value| == |txs| && Accounted(r.value, txs, gasLimit)
    ensures r.Ok? ==> usedGas == TotalGas(r.value) <= gasLimit
    ensures r.Ok? ==> Wealth(state.world) == old(Wealth(state.world)) - usedGas * BaseFee(context)
    ensures r.Ok? && KeepsAccounts(evm) ==> NoReplay(txs, |txs|)
    ensures r.Err? ==> usedGas == 0
  {
    hide Conserving, Wealth, BaseFee, WellPriced, AccountedAt, KeepsAccounts, UsesUp, NoReplay, AllUsedUp;
    var gp := new GasPool(0);
    gp.AddGas(gasLimit);
    var receipts: seq<Receipt> := [];
    NothingUsedUp(txs, state.world);
    usedGas := 0;
    for i := 0 to |txs|
      invariant |receipts| == i && Accounted(receipts, txs, gasLimit)
      invariant usedGas == TotalGas(receipts) && gp.gas + usedGas == gasLimit
      invariant Wealth(state.world) == old(Wealth(state.world)) - usedGas * BaseFee(context)
      invariant KeepsAccounts(evm) ==> NoReplay(txs, i) && AllUsedUp(txs, i, state.world)
    {
      if txs[i].sender == None {
        return Err(InvalidSender), 0;
      }
      var msg := AsMessage(txs[i], txs[i].sender.value, context);
      ghost var w := state.world;
      var result := ApplyTransaction(msg, context, gp, state, usedGas, evm);
      if result.Err? {
        return Err(result.error), 0;
      }
      if KeepsAccounts(evm) {
        OneMoreUsedUp(txs, i, msg, w, state.world);
      }
      OneMoreReceipt(receipts, result.value, txs, gasLimit);
      Burnt(usedGas, result.value.gasUsed, BaseFee(context));
      receipts, usedGas := receipts + [result.value], result.value.cumulativeGasUsed;
    }
    return Ok(receipts), usedGas;
  }

  lemma Burnt(usedGas: nat, more: nat, fee: nat)
    ensures (usedGas + more) * fee == usedGas * fee + more * fee
  {
  }
}
