/** Transactions as the pool sees them. */
module Transactions {

  const MAX_UINT64: nat := 0xFFFF_FFFF_FFFF_FFFF

  type uint64 = n: nat | n <= MAX_UINT64

  type Address = nat

  /** `cost` is value plus gas times price, `slots` the number of 32 kB data slots
      the encoding takes up, and `content` everything else that is signed. */
  datatype Tx = Tx(sender: Address, nonce: uint64, gas: nat, cost: int,
                   feeCap: int, tipCap: int, slots: nat, content: nat)

  /** The transaction hash, idealised as a free constructor and so injective. */
  datatype TxHash = HashOf(tx: Tx)

  /** Every transaction sits at its own nonce. */
  ghost predicate Keyed(items: map<nat, Tx>) {
    forall n :: n in items ==> items[n].nonce == n
  }

  function MaxKey(items: map<nat, Tx>): (n: nat)
    requires items != map[]
    ensures n in items && forall m :: m in items ==> m <= n
  {
    MaxKeyExists(items.Keys);
    var n :| n in items && forall m :: m in items ==> m <= n;
    n
  }

  lemma MaxKeyExists(keys: set<nat>)
    requires keys != {}
    ensures exists n :: n in keys && forall m :: m in keys ==> m <= n
  {
    var n := FindMaxKey(keys);
  }

  lemma {:induction false} FindMaxKey(keys: set<nat>) returns (n: nat)
    requires keys != {}
    ensures n in keys && forall m :: m in keys ==> m <= n
  {
    var k :| k in keys;
    n := k;
    var rest := keys - {k};
    assert forall m :: m in keys ==> m == k || m in rest;
    if rest != {} {
      var top := FindMaxKey(rest);
      n := if k < top then top else k;
    }
  }
}
