/** The gas left in a block (core/gaspool.go). */
module GasPools {
  import opened Transactions

  class GasPool {
    var gas: nat

    constructor (amount: nat)
      ensures gas == amount
    {
      gas := amount;
    }

    /** Pushing the pool above 64 bits would be a panic. */
    method AddGas(amount: nat)
      requires gas + amount <= MAX_UINT64
      modifies this
      ensures gas == old(gas) + amount
    {
      gas := gas + amount;
    }

    method SubGas(amount: nat) returns (ok: bool)
      modifies this
      ensures ok <==> amount <= old(gas)
      ensures gas == if ok then old(gas) - amount else old(gas)
    {
      if gas < amount {
        return false;
      }
      gas := gas - amount;
      return true;
    }
  }
}

/** Applying one message to the state (core/state_transition.go), with the EVM as a given
    function that neither adds gas nor makes or loses ether. */
module StateTransitions {
  import opened Wrappers
  import opened Transactions
  import opened GasPools
  import Sums

  const TX_GAS := 21000
  const TX_GAS_CONTRACT_CREATION := 53000
  const TX_DATA_ZERO_GAS := 4
  const TX_DATA_NON_ZERO_GAS_FRONTIER := 68
  const TX_DATA_NON_ZERO_GAS_EIP2028 := 16
  const TX_ACCESS_LIST_ADDRESS_GAS := 2400
  const TX_ACCESS_LIST_STORAGE_KEY_GAS := 1900
  const REFUND_QUOTIENT := 2
  const REFUND_QUOTIENT_EIP3529 := 5

  type Byte = x: nat | x < 256

  datatype TxError = NonceTooHigh | NonceTooLow | NonceMax | SenderNoEOA | FeeCapVeryHigh | TipVeryHigh
                   | TipAboveFeeCap | FeeCapTooLow | InsufficientFunds | GasLimitReached
                   | GasUintOverflow | IntrinsicGasTooLow | InsufficientFundsForTransfer | InvalidSender

  datatype AccessTuple = AccessTuple(address: Address, storageKeys: seq<nat>)

  function NonZeros(data: seq<Byte>): (n: nat)
    ensures n <= |data|
  {
    if data == [] then 0 else NonZeros(data[..|data| - 1]) + if data[|data| - 1] != 0 then 1 else 0
  }

  ghost function NonZeroAt(data: seq<Byte>): set<nat> {
    set i: nat | i < |data| && data[i] != 0
  }

  /** That is the number of positions with a byte that is not zero. */
  lemma {:induction false} NonZerosAreCounted(data: seq<Byte>)
    ensures NonZeros(data) == |NonZeroAt(data)|
  {
    if data != [] {
      var n := |data| - 1;
      NonZerosAreCounted(data[..n]);
      assert NonZeroAt(data) == NonZeroAt(data[..n]) + if data[n] != 0 then {n} else {};
    }
  }

  function StorageKeys(accessList: seq<AccessTuple>): nat {
    if accessList == [] then 0 else |accessList[0].storageKeys| + StorageKeys(accessList[1..])
  }

  /** What a transaction costs for being one and for its data. */
  function DataGas(data: seq<Byte>, creation: bool, homestead: bool, eip2028: bool): nat {
    (if creation && homestead then TX_GAS_CONTRACT_CREATION else TX_GAS)
    + NonZeros(data) * (if eip2028 then TX_DATA_NON_ZERO_GAS_EIP2028 else TX_DATA_NON_ZERO_GAS_FRONTIER)
    + (|data| - NonZeros(data)) * TX_DATA_ZERO_GAS
  }

  function AccessGas(accessList: Option<seq<AccessTuple>>): nat {
    match accessList
    case None => 0
    case Some(l) => |l| * TX_ACCESS_LIST_ADDRESS_GAS + StorageKeys(l) * TX_ACCESS_LIST_STORAGE_KEY_GAS
  }

  /** Every byte costs 4, and one that is not zero 12 more, 64 more before Istanbul; an address of
      the access list costs 2400 and each of its keys 1900. */
  lemma PricesAre(data: seq<Byte>, creation: bool, homestead: bool, eip2028: bool, accessList: seq<AccessTuple>)
    ensures DataGas(data, creation, homestead, eip2028) ==
            (if creation && homestead then 53000 else 21000) + 4 * |data| + (if eip2028 then 12 else 64) * |NonZeroAt(data)|
    ensures AccessGas(None) == 0
    ensures accessList != [] ==>
              AccessGas(Some(accessList)) == 2400 + 1900 * |accessList[0].storageKeys| + AccessGas(Some(accessList[1..]))
  {
    NonZerosAreCounted(data);
  }

  method CountNonZeros(data: seq<Byte>) returns (nz: nat)
    ensures nz == NonZeros(data) <= |data|
  {
    nz := 0;
    for i := 0 to |data|
      invariant nz == NonZeros(data[..i]) <= i
    {
      assert data[..i + 1][..i] == data[..i];
      if data[i] != 0 {
        nz := nz + 1;
      }
    }
    assert data[..|data|] == data;
  }

  /** The overflow check of a product that is added to `gas`. */
  lemma CheckedProduct(gas: nat, each: nat, n: nat)
    requires gas <= MAX_UINT64
    requires each == TX_DATA_ZERO_GAS || each == TX_DATA_NON_ZERO_GAS_EIP2028 || each == TX_DATA_NON_ZERO_GAS_FRONTIER
    ensures (MAX_UINT64 - gas) / each < n <==> gas + n * each > MAX_UINT64
  {
  }

  /** The intrinsic gas. The checks catch exactly the data that costs more than 64 bits hold;
      the access list is added without a check. */
  method IntrinsicGas(data: seq<Byte>, accessList: Option<seq<AccessTuple>>, creation: bool, homestead: bool, eip2028: bool)
      returns (gas: Option<nat>)
    ensures DataGas(data, creation, homestead, eip2028) > MAX_UINT64 <==> gas == None
    ensures gas.Some? ==> gas.value == if accessList == None then DataGas(data, creation, homestead, eip2028)
                                       else Wrapped(DataGas(data, creation, homestead, eip2028) + AccessGas(accessList))
  {
    var g := if creation && homestead then TX_GAS_CONTRACT_CREATION else TX_GAS;
    if |data| > 0 {
      var nz := CountNonZeros(data);
      var nonZeroGas := if eip2028 then TX_DATA_NON_ZERO_GAS_EIP2028 else TX_DATA_NON_ZERO_GAS_FRONTIER;
      CheckedProduct(g, nonZeroGas, nz);
      if (MAX_UINT64 - g) / nonZeroGas < nz {
        return None;
      }
      g := g + nz * nonZeroGas;
      var z := |data| - nz;
      CheckedProduct(g, TX_DATA_ZERO_GAS, z);
      if (MAX_UINT64 - g) / TX_DATA_ZERO_GAS < z {
        return None;
      }
      g := g + z * TX_DATA_ZERO_GAS;
    }
    gas := Some(AddAccessList(g, accessList));
  }

  function Wrapped(x: nat): nat {
    x % (MAX_UINT64 + 1)
  }

  /** The gas with that of the access list, in two wrapping additions. */
  function AddAccessList(gas: nat, accessList: Option<seq<AccessTuple>>): (r: nat)
    ensures r == if accessList == None then gas else Wrapped(gas + AccessGas(accessList))
  {
    match accessList
    case None => gas
    case Some(l) =>
      var g := Wrapped(gas + |l| * TX_ACCESS_LIST_ADDRESS_GAS);
      Wrapped(g + StorageKeys(l) * TX_ACCESS_LIST_STORAGE_KEY_GAS)
  }

  /** What a message asks for. `isFake` marks calls that are no transactions. */
  datatype Message = Message(from: Address, to: Option<Address>, nonce: nat, gas: nat, gasPrice: nat, gasFeeCap: nat,
                             gasTipCap: nat, value: nat, data: seq<Byte>, accessList: Option<seq<AccessTuple>>, isFake: bool)

  /** The state as far as fees touch it: balances, nonces, the accounts with code, and the
      refund counter. */
  datatype World = World(balances: map<Address, nat>, nonces: map<Address, nat>, contracts: set<Address>, refund: nat) {
    function Balance(a: Address): nat {
      if a in balances then balances[a] else 0
    }

    function Nonce(a: Address): nat {
      if a in nonces then nonces[a] else 0
    }
  }

  function Wei(balance: nat): nat {
    balance
  }

  /** All ether there is. */
  ghost function Wealth(w: World): nat {
    Sums.Total(w.balances, Wei)
  }

  /** The state with an amount more, or less, on one balance; it does not go below zero. */
  function Credited(w: World, a: Address, amount: int): World {
    var balance := w.Balance(a) + amount;
    w.(balances := w.balances[a := if balance < 0 then 0 else balance])
  }

  class StateDb {
    var world: World

    constructor (world: World)
      ensures this.world == world
    {
      this.world := world;
    }

    method AddBalance(a: Address, amount: nat)
      modifies this
      ensures Wealth(world) == old(Wealth(world)) + amount
      ensures world == Credited(old(world), a, amount)
    {
      Sums.TotalUpdate<Address, nat>(world.balances, Wei, a, world.Balance(a) + amount);
      world := world.(balances := world.balances[a := world.Balance(a) + amount]);
    }

    method SubBalance(a: Address, amount: nat)
      requires amount <= world.Balance(a)
      modifies this
      ensures Wealth(world) == old(Wealth(world)) - amount
      ensures world == Credited(old(world), a, -(amount as int))
    {
      Sums.TotalUpdate<Address, nat>(world.balances, Wei, a, world.Balance(a) - amount);
      world := world.(balances := world.balances[a := world.Balance(a) - amount]);
    }

    method SetNonce(a: Address, nonce: nat)
      modifies this
      ensures world == old(world).(nonces := old(world).nonces[a := nonce])
    {
      world := world.(nonces := world.nonces[a := nonce]);
    }

    method Become(w: World)
      modifies this
      ensures world == w
    {
      world := w;
    }
  }

  /** What comes of running a message: the state after, the gas left, and whether it failed. */
  datatype Outcome = Outcome(world: World, gas: nat, failed: bool)

  /** The state a message is run in: a call has raised the sender's nonce, a creation will. */
  function Started(w: World, m: Message): World {
    if m.to == None then w else w.(nonces := w.nonces[m.from := w.Nonce(m.from) + 1])
  }

  /** The EVM, create and call alike. */
  type Evm = (World, Message, nat) -> Outcome

  /** It neither adds gas nor makes or loses ether. */
  ghost predicate Conserving(evm: Evm) {
    forall w, m, g :: evm(w, m, g).gas <= g && Wealth(evm(w, m, g).world) == Wealth(w)
  }

  /** It takes no nonce back from an account without code that has sent something and gives it
      no code, and a creation raises the sender's nonce. */
  ghost predicate KeepsAccounts(evm: Evm) {
    forall w: World, m: Message, g: nat, a: Address :: a !in w.contracts && (w.Nonce(a) > 0 || Creates(m, a)) ==>
      evm(w, m, g).world.Nonce(a) >= w.Nonce(a) + (if Creates(m, a) then 1 else 0) && a !in evm(w, m, g).world.contracts
  }

  predicate Creates(m: Message, a: Address) {
    m.to == None && m.from == a
  }

  /** The block around a message. The base fee is there from London on. */
  datatype Context = Context(coinbase: Address, baseFee: Option<nat>, homestead: bool, istanbul: bool, noBaseFee: bool) {
    predicate IsLondon() {
      baseFee.Some?
    }
  }

  predicate BitLenOver256(x: nat) {
    x >= 0x1_0000_0000_0000_0000_0000_0000_0000_0000_0000_0000_0000_0000_0000_0000_0000_0000
  }

  function Min(a: int, b: int): int {
    if a <= b then a else b
  }

  /** The fees of the message were left at zero, and the context does not insist on any. */
  predicate FeesWaived(m: Message, c: Context) {
    c.noBaseFee && m.gasFeeCap == 0 && m.gasTipCap == 0
  }

  /** The price as messages are made: the fee cap, or from London on the tip over the base fee
      if that is less. */
  predicate WellPriced(m: Message, c: Context) {
    && m.gas <= MAX_UINT64 && m.gasPrice <= m.gasFeeCap
    && (c.IsLondon() && !FeesWaived(m, c) ==> m.gasPrice == Min(m.gasTipCap + c.baseFee.value, m.gasFeeCap))
  }

  /** The fee cap is not below the base fee, where there is one that counts. */
  predicate FeeCapCovered(m: Message, c: Context) {
    c.IsLondon() && !FeesWaived(m, c) ==> c.baseFee.value <= m.gasFeeCap
  }

  /** What the coinbase gets for each unit of gas. */
  function EffectiveTip(m: Message, c: Context): int {
    if c.IsLondon() then Min(m.gasTipCap, m.gasFeeCap - c.baseFee.value) else m.gasPrice
  }

  /** What of the price of a unit of gas nobody gets. */
  function BurntPerGas(m: Message, c: Context): int {
    if FeesWaived(m, c) then m.gasPrice else m.gasPrice - EffectiveTip(m, c)
  }

  /** From London on the base fee is burnt, before it nothing (EIP-1559, "Specification"). */
  lemma BaseFeeIsBurnt(m: Message, c: Context)
    requires WellPriced(m, c)
    ensures BurntPerGas(m, c) == if c.baseFee.Some? && !(c.noBaseFee && m.gasFeeCap == m.gasTipCap == 0) then c.baseFee.value else 0
  {
  }

  /** The consensus rules that need no gas to be bought: the nonce is the sender's next one and
      not the last there is, the sender is no contract; and the caps are in order and cover the
      base fee. A message that is no transaction is not held to the first of these. */
  ghost predicate Acceptable(m: Message, c: Context, w: World) {
    && (!m.isFake ==> w.Nonce(m.from) == m.nonce < MAX_UINT64 && m.from !in w.contracts)
    && (c.IsLondon() && !FeesWaived(m, c) ==>
          !BitLenOver256(m.gasFeeCap) && c.baseFee.value <= m.gasFeeCap && m.gasTipCap <= m.gasFeeCap)
  }

  class StateTransition {
    const gp: GasPool
    const state: StateDb
    const msg: Message
    const context: Context
    var gas: nat
    var initialGas: nat

    constructor (gp: GasPool, state: StateDb, msg: Message, context: Context)
      ensures this.gp == gp && this.state == state && this.msg == msg && this.context == context && gas == 0
    {
      this.gp, this.state, this.msg, this.context := gp, state, msg, context;
      gas, initialGas := 0, 0;
    }

    /** The balance covers the most that can be asked for, and the block has the gas. */
    ghost predicate Affordable(w: World, blockGas: nat) {
      msg.gas * msg.gasFeeCap + msg.value <= w.Balance(msg.from) && msg.gas <= blockGas
    }

    /** Pay for all the gas in advance. The balance has to cover the fee cap and the value. */
    method BuyGas() returns (err: Option<TxError>)
      requires WellPriced(msg, context) && gas == 0
      modifies this, gp, state
      ensures err == None || err == Some(InsufficientFunds) || err == Some(GasLimitReached)
      ensures err == None <==> Affordable(old(state.world), old(gp.gas))
      ensures err != None ==> gp.gas == old(gp.gas) && state.world == old(state.world)
      ensures err == None ==> gas == initialGas == msg.gas && gp.gas == old(gp.gas) - msg.gas
      ensures err == None ==>
                && Wealth(state.world) == old(Wealth(state.world)) - msg.gas * msg.gasPrice
                && msg.value <= state.world.Balance(msg.from)
                && state.world == Credited(old(state.world), msg.from, -(msg.gas * msg.gasPrice))
    {
      Cheaper(msg.gas, msg.gasPrice, msg.gasFeeCap);
      if state.world.Balance(msg.from) < msg.gas * msg.gasFeeCap + msg.value {
        return Some(InsufficientFunds);
      }
      var ok := gp.SubGas(msg.gas);
      if !ok {
        return Some(GasLimitReached);
      }
      gas := gas + msg.gas;
      initialGas := msg.gas;
      state.SubBalance(msg.from, msg.gas * msg.gasPrice);
      return None;
    }

    /** The verdict of the checks before any gas is bought. */
    function Checked(w: World): (err: Option<TxError>)
      ensures err != Some(InsufficientFundsForTransfer)
    {
      if !msg.isFake && w.Nonce(msg.from) < msg.nonce then Some(NonceTooHigh)
      else if !msg.isFake && w.Nonce(msg.from) > msg.nonce then Some(NonceTooLow)
      else if !msg.isFake && w.Nonce(msg.from) + 1 > MAX_UINT64 then Some(NonceMax)
      else if !msg.isFake && msg.from in w.contracts then Some(SenderNoEOA)
      else if context.IsLondon() && !FeesWaived(msg, context) then
        if BitLenOver256(msg.gasFeeCap) then Some(FeeCapVeryHigh)
        else if BitLenOver256(msg.gasTipCap) then Some(TipVeryHigh)
        else if msg.gasFeeCap < msg.gasTipCap then Some(TipAboveFeeCap)
        else if msg.gasFeeCap < context.baseFee.value then Some(FeeCapTooLow)
        else None
      else None
    }

    method PreCheck() returns (err: Option<TxError>)
      requires WellPriced(msg, context) && gas == 0
      modifies this, gp, state
      ensures err != None ==> gp.gas == old(gp.gas) && state.world == old(state.world)
      ensures err == None <==> Acceptable(msg, context, old(state.world)) && Affordable(old(state.world), old(gp.gas))
      ensures err != Some(InsufficientFundsForTransfer)
      ensures !msg.isFake && msg.nonce != old(state.world).Nonce(msg.from) ==>
                err == Some(if msg.nonce < old(state.world).Nonce(msg.from) then NonceTooLow else NonceTooHigh)
      ensures err == None ==>
                && gas == initialGas == msg.gas && gp.gas == old(gp.gas) - msg.gas
                && Wealth(state.world) == old(Wealth(state.world)) - msg.gas * msg.gasPrice
                && msg.value <= state.world.Balance(msg.from)
                && state.world == Credited(old(state.world), msg.from, -(msg.gas * msg.gasPrice))
    {
      hide Credited, Wealth, StateTransition.Affordable, WellPriced;
      err := Checked(state.world);
      CheckedIsAcceptable(state.world);
      if err == None {
        err := BuyGas();
      }
    }

    lemma CheckedIsAcceptable(w: World)
      ensures Checked(w) == None <==> Acceptable(msg, context, w)
    {
    }
  
    function GasUsed(): int
      reads this
    {
      initialGas - gas
    }

    /** Give back gas from the refund counter, at most the given part of what was used, and pay
        back what is left at the price it was bought for, to the sender and to the block. */
    method RefundGas(quotient: nat)
      requires quotient == REFUND_QUOTIENT || quotient == REFUND_QUOTIENT_EIP3529
      requires gas <= initialGas && gp.gas + initialGas <= MAX_UINT64
      modifies this`gas, gp, state
      ensures gas == old(gas) + Min(old(GasUsed()) / quotient, old(state.world.refund)) <= initialGas
      ensures gp.gas == old(gp.gas) + gas
      ensures Wealth(state.world) == old(Wealth(state.world)) + gas * msg.gasPrice
      ensures state.world == Credited(old(state.world), msg.from, gas * msg.gasPrice)
    {
      var refund := GasUsed() / quotient;
      PartOf(GasUsed(), quotient);
      if refund > state.world.refund {
        refund := state.world.refund;
      }
      gas := gas + refund;
      state.AddBalance(msg.from, gas * msg.gasPrice);
      gp.AddGas(gas);
    }

    /** The coinbase gets the tip for the gas used, unless fees are waived. */
    method PayTip()
      requires WellPriced(msg, context) && gas <= initialGas
      requires FeeCapCovered(msg, context)
      modifies state
      ensures Wealth(state.world) == old(Wealth(state.world)) + GasUsed() * (msg.gasPrice - BurntPerGas(msg, context))
      ensures state.world == if FeesWaived(msg, context) then old(state.world)
                             else Credited(old(state.world), context.coinbase, GasUsed() * EffectiveTip(msg, context))
    {
      if FeesWaived(msg, context) {
        return;
      }
      var fee := GasUsed() * EffectiveTip(msg, context);
      state.AddBalance(context.coinbase, fee);
    }

    /** Take the intrinsic gas, and check once more that the value can be paid. */
    method TakeIntrinsic() returns (err: Option<TxError>, ghost intrinsic: nat)
      modifies this`gas
      ensures err == None ==> gas == old(gas) - intrinsic
      ensures err == if !DataPriced(msg, context) then Some(GasUintOverflow)
                     else if Intrinsic(msg, context) > old(gas) then Some(IntrinsicGasTooLow)
                     else if state.world.Balance(msg.from) < msg.value then Some(InsufficientFundsForTransfer) else None
      ensures intrinsic == if err == None then Intrinsic(msg, context) else 0
    {
      var cost := IntrinsicGas(msg.data, msg.accessList, msg.to == None, context.homestead, context.istanbul);
      if cost == None {
        return Some(GasUintOverflow), 0;
      }
      if gas < cost.value {
        return Some(IntrinsicGasTooLow), 0;
      }
      gas := gas - cost.value;
      if 0 < msg.value && state.world.Balance(msg.from) < msg.value {
        return Some(InsufficientFundsForTransfer), 0;
      }
      return None, cost.value;
    }

    method Execute(evm: Evm) returns (failed: bool)
      requires Conserving(evm)
      modifies this`gas, state
      ensures gas <= old(gas) && Wealth(state.world) == old(Wealth(state.world))
      ensures Outcome(state.world, gas, failed) == evm(Started(old(state.world), msg), msg, old(gas))
    {
      if msg.to != None {
        state.SetNonce(msg.from, state.world.Nonce(msg.from) + 1);
      }
      var outcome := evm(state.world, msg, gas);
      state.Become(outcome.world);
      gas := outcome.gas;
      failed := outcome.failed;
    }

    /** Apply the message. It goes through exactly under the consensus rules. The EVM runs it in
        `ran`, where all gas is paid for and a call has raised the sender's nonce; afterwards
        what was not used is paid back and the coinbase gets the price less the base fee, so all
        balances together lose what is burnt for the gas used, and the block loses exactly that
        gas. Of the gas spent at most a half, from London on at most a fifth (EIP-3529,
        "Specification"), is refunded. After buying gas only the intrinsic gas can be at fault:
        the value was covered when the gas was bought. */
    method TransitionDb(evm: Evm) returns (r: Result<ExecutionResult, TxError>, ghost ran: World)
      requires WellPriced(msg, context) && gas == 0 && gp.gas <= MAX_UINT64 && Conserving(evm)
      modifies this, gp, state
      ensures var w := old(state.world);
              r.Ok? <==> && (!msg.isFake ==> w.Nonce(msg.from) == msg.nonce < MAX_UINT64 && msg.from !in w.contracts)
                         && (context.baseFee.Some? && !(context.noBaseFee && msg.gasFeeCap == msg.gasTipCap == 0) ==>
                               && !BitLenOver256(msg.gasFeeCap) && !BitLenOver256(msg.gasTipCap)
                               && msg.gasTipCap <= msg.gasFeeCap && context.baseFee.value <= msg.gasFeeCap)
                         && msg.gas * msg.gasFeeCap + msg.value <= w.Balance(msg.from) && msg.gas <= old(gp.gas)
                         && DataPriced(msg, context) && Intrinsic(msg, context) <= msg.gas
      ensures !msg.isFake && msg.nonce != old(state.world).Nonce(msg.from) ==>
                r == Err(if msg.nonce < old(state.world).Nonce(msg.from) then NonceTooLow else NonceTooHigh)
      ensures r.Ok? ==> RunsIn(msg, old(state.world), ran)
      ensures r.Ok? ==> var out := evm(ran, msg, msg.gas - Intrinsic(msg, context));
                && r.value.failed == out.failed && r.value.usedGas <= msg.gas && gp.gas == old(gp.gas) - r.value.usedGas
                && r.value.usedGas == UsedAfterRefund(msg.gas - out.gas, out.world.refund, if context.baseFee.Some? then 5 else 2)
                && PaidOut(msg, context, out.world, state.world, r.value.usedGas)
      ensures r.Ok? ==> Wealth(state.world) == old(Wealth(state.world)) - r.value.usedGas * BurntPerGas(msg, context)
      ensures r.Ok? ==> (state.world, r.value.usedGas as int) == Applied(old(state.world), msg, context, evm)
      ensures r.Err? && !(Acceptable(msg, context, old(state.world)) && Affordable(old(state.world), old(gp.gas))) ==>
                gp.gas == old(gp.gas) && state.world == old(state.world)
      ensures r.Err? ==> r.error != InsufficientFundsForTransfer
    {
      hide *;
      ran := state.world;
      SpeltOut(state.world, gp.gas);
      FeeCapCovers(state.world);
      var err := PreCheck();
      if err != None {
        return Err(err.value), ran;
      }
      ghost var intrinsic;
      err, intrinsic := TakeIntrinsic();
      if err != None {
        return Err(err.value), ran;
      }
      ghost var bought := state.world;
      ran := Started(bought, msg);
      var result := RunAndSettle(evm);
      WhatIsApplied(old(state.world), bought, msg, context, evm);
      WhoIsPaid(old(state.world), bought, ran, state.world, msg, context, evm, result.usedGas);
      PaidInFull(msg.gas, gas, msg.gasPrice, BurntPerGas(msg, context));
      r := Ok(result);
    }

    lemma SpeltOut(w: World, blockGas: nat)
      ensures Acceptable(msg, context, w) && Affordable(w, blockGas) <==>
              && (!msg.isFake ==> w.Nonce(msg.from) == msg.nonce < MAX_UINT64 && msg.from !in w.contracts)
              && (context.baseFee.Some? && !(context.noBaseFee && msg.gasFeeCap == msg.gasTipCap == 0) ==>
                    && !BitLenOver256(msg.gasFeeCap) && !BitLenOver256(msg.gasTipCap)
                    && msg.gasTipCap <= msg.gasFeeCap && context.baseFee.value <= msg.gasFeeCap)
              && msg.gas * msg.gasFeeCap + msg.value <= w.Balance(msg.from) && msg.gas <= blockGas
    {
    }

    /** Run the message, give back what is left, and pay the tip. */
    method RunAndSettle(evm: Evm) returns (result: ExecutionResult)
      requires WellPriced(msg, context) && Conserving(evm) && gas <= initialGas && gp.gas + initialGas <= MAX_UINT64
      requires FeeCapCovered(msg, context)
      modifies this`gas, gp, state
      ensures gas <= initialGas && result.usedGas == initialGas - gas
      ensures result.failed == evm(Started(old(state.world), msg), msg, old(gas)).failed
      ensures gp.gas == old(gp.gas) + gas
      ensures Wealth(state.world) == old(Wealth(state.world)) + gas * msg.gasPrice
                                     + result.usedGas * (msg.gasPrice - BurntPerGas(msg, context))
      ensures (state.world, result.usedGas as int) == Settled(old(state.world), msg, context, evm, old(gas), initialGas)
    {
      hide Credited, Wealth, EffectiveTip, BurntPerGas, Conserving, WellPriced, FeesWaived, Started;
      var failed := Execute(evm);
      RefundGas(RefundQuotient(context));
      PayTip();
      result := ExecutionResult(GasUsed(), failed);
    }

    lemma FeeCapCovers(w: World)
      ensures Acceptable(msg, context, w) ==> FeeCapCovered(msg, context)
    {
    }
  }

  /** The state and the gas used after a message was run with `gas` of the `bought` gas: what is
      left is paid back with the refund, and the tip paid. */
  ghost function Settled(w: World, m: Message, c: Context, evm: Evm, gas: nat, bought: nat): (World, int) {
    var outcome := evm(Started(w, m), m, gas);
    var left := outcome.gas + Min((bought - outcome.gas) / RefundQuotient(c), outcome.world.refund);
    var repaid := Credited(outcome.world, m.from, left * m.gasPrice);
    (if FeesWaived(m, c) then repaid else Credited(repaid, c.coinbase, (bought - left) * EffectiveTip(m, c)), bought - left)
  }

  /** The state and the gas used after a message went through: all gas is bought, the intrinsic
      gas taken, and the rest run and settled. */
  ghost function Applied(w: World, m: Message, c: Context, evm: Evm): (World, int)
    requires Intrinsic(m, c) <= m.gas
  {
    Settled(Credited(w, m.from, -(m.gas * m.gasPrice)), m, c, evm, m.gas - Intrinsic(m, c), m.gas)
  }

  /** The state the message is run in: the sender has paid for all its gas, and a call has
      raised its nonce. */
  ghost predicate RunsIn(m: Message, w: World, ran: World) {
    && (forall a :: ran.Balance(a) == w.Balance(a) - if a == m.from then m.gas * m.gasPrice else 0)
    && (forall a :: ran.Nonce(a) == w.Nonce(a) + if a == m.from && m.to != None then 1 else 0)
    && ran.contracts == w.contracts && ran.refund == w.refund
  }

  /** The gas used of what was spent, with the refund counter given back up to a part of it. */
  function UsedAfterRefund(spent: int, counter: nat, part: nat): int
    requires part > 0
  {
    if counter * part <= spent then spent - counter else spent - spent / part
  }

  /** After the run the sender got back the price of what it had not used, and the coinbase got
      what of the price of the gas used is not the base fee. */
  ghost predicate PaidOut(m: Message, c: Context, after: World, paid: World, used: int) {
    var waived := c.noBaseFee && m.gasFeeCap == m.gasTipCap == 0;
    var tip := if waived then 0 else m.gasPrice - if c.baseFee.Some? then c.baseFee.value else 0;
    && (forall a :: paid.Balance(a) == after.Balance(a)
                      + (if a == m.from then (m.gas - used) * m.gasPrice else 0)
                      + (if a == c.coinbase then used * tip else 0))
    && paid == after.(balances := paid.balances)
  }

  lemma BoughtAndStarted(m: Message, w: World)
    requires m.gas * m.gasPrice <= w.Balance(m.from)
    ensures RunsIn(m, w, Started(Credited(w, m.from, -(m.gas * m.gasPrice)), m))
  {
  }

  /** The refund is the counter, or the part of what was spent if that is less. */
  lemma RefundIsCapped(spent: nat, counter: nat, part: nat)
    requires part == 2 || part == 5
    ensures spent - Min(spent / part, counter) == UsedAfterRefund(spent, counter, part) <= spent
  {
  }

  lemma TipOverBaseFee(m: Message, c: Context)
    requires WellPriced(m, c) && FeeCapCovered(m, c) && !FeesWaived(m, c)
    ensures 0 <= EffectiveTip(m, c) == m.gasPrice - if c.baseFee.Some? then c.baseFee.value else 0
  {
  }

  lemma CreditedBoth(m: Message, c: Context, after: World, used: nat)
    requires used <= m.gas && WellPriced(m, c) && FeeCapCovered(m, c)
    ensures var repaid := Credited(after, m.from, (m.gas - used) * m.gasPrice);
            PaidOut(m, c, after, if FeesWaived(m, c) then repaid else Credited(repaid, c.coinbase, used * EffectiveTip(m, c)), used)
  {
    hide WellPriced, FeeCapCovered, EffectiveTip;
    NotNegative(m.gas - used, m.gasPrice);
    if !FeesWaived(m, c) {
      TipOverBaseFee(m, c);
      NotNegative(used, EffectiveTip(m, c));
    }
  }

  lemma NotNegative(a: int, b: int)
    requires a >= 0 && b >= 0
    ensures a * b >= 0
  {
  }

  /** The state and the gas used, payment by payment. */
  lemma WhoIsPaid(w: World, bought: World, ran: World, paid: World, m: Message, c: Context, evm: Evm, used: nat)
    requires WellPriced(m, c) && FeeCapCovered(m, c) && Conserving(evm) && Intrinsic(m, c) <= m.gas
    requires m.gas * m.gasFeeCap + m.value <= w.Balance(m.from)
    requires bought == Credited(w, m.from, -(m.gas * m.gasPrice)) && ran == Started(bought, m)
    requires (paid, used as int) == Settled(bought, m, c, evm, m.gas - Intrinsic(m, c), m.gas)
    ensures RunsIn(m, w, ran)
    ensures var out := evm(ran, m, m.gas - Intrinsic(m, c));
            && used == UsedAfterRefund(m.gas - out.gas, out.world.refund, if c.baseFee.Some? then 5 else 2) <= m.gas
            && PaidOut(m, c, out.world, paid, used)
  {
    hide Credited, Started, EffectiveTip, UsedAfterRefund, RunsIn, PaidOut, FeeCapCovered, Intrinsic, FeesWaived, WellPriced, Wealth;
    PriceIsCovered(m, c);
    BoughtAndStarted(m, w);
    var out := evm(ran, m, m.gas - Intrinsic(m, c));
    RefundIsCapped(m.gas - out.gas, out.world.refund, if c.baseFee.Some? then 5 else 2);
    CreditedBoth(m, c, out.world, used);
  }

  lemma PriceIsCovered(m: Message, c: Context)
    requires WellPriced(m, c)
    ensures m.gas * m.gasPrice <= m.gas * m.gasFeeCap
  {
    Cheaper(m.gas, m.gasPrice, m.gasFeeCap);
  }

  lemma WhatIsApplied(w: World, bought: World, m: Message, c: Context, evm: Evm)
    ensures Intrinsic(m, c) <= m.gas && bought == Credited(w, m.from, -(m.gas * m.gasPrice)) ==>
              Settled(bought, m, c, evm, m.gas - Intrinsic(m, c), m.gas) == Applied(w, m, c, evm)
  {
  }

  /** The nonce of the message is used up, and nobody who has sent something can send it again. */
  ghost predicate UsesUp(m: Message, w: World, w': World) {
    && w'.Nonce(m.from) > m.nonce && m.from !in w'.contracts
    && forall a :: a !in w.contracts && w.Nonce(a) > 0 ==> w'.Nonce(a) >= w.Nonce(a) && a !in w'.contracts
  }

  lemma NonceUsedUp(m: Message, c: Context, w: World, ran: World, w': World, evm: Evm, used: int, gas: nat)
    requires KeepsAccounts(evm) && w.Nonce(m.from) == m.nonce && m.from !in w.contracts
    requires RunsIn(m, w, ran) && PaidOut(m, c, evm(ran, m, gas).world, w', used)
    ensures UsesUp(m, w, w')
  {
    var after := evm(ran, m, gas).world;
    forall a
      ensures w'.Nonce(a) == after.Nonce(a)
    {
    }
    assert ran.Nonce(m.from) == w.Nonce(m.from) + if m.to != None then 1 else 0;
    assert m.from !in ran.contracts && (ran.Nonce(m.from) > 0 || Creates(m, m.from));
  }

  /** A message that went through does not go through again. */
  method ApplyTwice(gp: GasPool, state: StateDb, msg: Message, context: Context, evm: Evm)
      returns (first: Result<ExecutionResult, TxError>, second: Result<ExecutionResult, TxError>)
    requires WellPriced(msg, context) && gp.gas <= MAX_UINT64 && Conserving(evm) && KeepsAccounts(evm) && !msg.isFake
    modifies gp, state
    ensures first.Ok? ==> second == Err(NonceTooLow)
  {
    hide WellPriced, Conserving, KeepsAccounts, RunsIn, PaidOut, DataPriced, Intrinsic, Acceptable, Wealth, UsedAfterRefund;
    ghost var w := state.world;
    var transition := new StateTransition(gp, state, msg, context);
    ghost var ran;
    first, ran := transition.TransitionDb(evm);
    second := first;
    if first.Ok? {
      NonceUsedUp(msg, context, w, ran, state.world, evm, first.value.usedGas, msg.gas - Intrinsic(msg, context));
      transition := new StateTransition(gp, state, msg, context);
      second, ran := transition.TransitionDb(evm);
    }
  }

  datatype ExecutionResult = ExecutionResult(usedGas: nat, failed: bool)

  function RefundQuotient(c: Context): nat {
    if c.IsLondon() then REFUND_QUOTIENT_EIP3529 else REFUND_QUOTIENT
  }

  /** The price of the data fits into 64 bits. */
  predicate DataPriced(m: Message, c: Context) {
    DataGas(m.data, m.to == None, c.homestead, c.istanbul) <= MAX_UINT64
  }

  /** The intrinsic gas as it is charged. */
  function Intrinsic(m: Message, c: Context): nat {
    var cost := DataGas(m.data, m.to == None, c.homestead, c.istanbul);
    if m.accessList == None then cost else Wrapped(cost + AccessGas(m.accessList))
  }

  /** What was paid in advance, less what came back and the tip, is what was burnt. */
  lemma PaidInFull(bought: nat, left: nat, price: nat, burnt: int)
    requires left <= bought
    ensures bought * price - left * price - (bought - left) * (price - burnt) == (bought - left) * burnt
  {
  }

  lemma PartOf(used: nat, quotient: nat)
    requires quotient == REFUND_QUOTIENT || quotient == REFUND_QUOTIENT_EIP3529
    ensures 0 <= used / quotient <= used
  {
  }

  lemma Cheaper(gas: nat, price: nat, cap: nat)
    requires price <= cap
    ensures gas * price <= gas * cap
  {
  }
}
