/** The virtual nonces of the pool over those of the chain state (core/tx_noncer.go). */
module TxNoncers {
  import opened Transactions

  /** The nonce the chain state has for an account; unknown accounts are at zero. */
  function StateNonce(state: map<Address, nat>, addr: Address): nat {
    if addr in state then state[addr] else 0
  }

  class TxNoncer {
    const fallback: map<Address, nat>
    var nonces: map<Address, nat>

    /** The nonce that Get answers with. */
    function Value(addr: Address): nat
      reads this
    {
      if addr in nonces then nonces[addr] else StateNonce(fallback, addr)
    }

    constructor (state: map<Address, nat>)
      ensures fallback == state
      ensures forall a :: Value(a) == StateNonce(state, a)
    {
      fallback, nonces := state, map[];
    }

    /** Reading caches what the fallback said, without changing any answer. */
    method Get(addr: Address) returns (nonce: nat)
      modifies this
      ensures nonce == old(Value(addr))
      ensures forall a :: Value(a) == old(Value(a))
    {
      Cache(addr);
      nonce := if addr in nonces then nonces[addr] else 0;
    }

    method Cache(addr: Address)
      modifies this
      ensures forall a :: Value(a) == old(Value(a))
      ensures addr !in nonces ==> StateNonce(fallback, addr) == 0
    {
      if addr !in nonces {
        var nonce := StateNonce(fallback, addr);
        if nonce != 0 {
          nonces := nonces[addr := nonce];
        }
      }
    }

    method Set(addr: Address, nonce: nat)
      modifies this
      ensures Value(addr) == nonce
      ensures forall a :: a != addr ==> Value(a) == old(Value(a))
    {
      nonces := nonces[addr := nonce];
    }

    method SetIfLower(addr: Address, nonce: nat)
      modifies this
      ensures Value(addr) == if old(Value(addr)) <= nonce then old(Value(addr)) else nonce
      ensures forall a :: a != addr ==> Value(a) == old(Value(a))
    {
      Cache(addr);
      if (if addr in nonces then nonces[addr] else 0) <= nonce {
        return;
      }
      nonces := nonces[addr := nonce];
    }

    method SetAll(all: map<Address, nat>)
      modifies this
      ensures forall a :: Value(a) == if a in all then all[a] else StateNonce(fallback, a)
    {
      nonces := all;
    }
  }
}
