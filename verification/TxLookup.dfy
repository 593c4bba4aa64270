/** The set of all pooled transactions by hash (txLookup in core/tx_pool.go). */
module TxLookups {
  import opened Wrappers
  import opened Transactions
  import Sums

  function SlotsOf(tx: Tx): nat {
    tx.slots
  }

  /** Every transaction is filed under its own hash. */
  ghost predicate Hashed(txs: map<TxHash, Tx>) {
    forall h :: h in txs ==> h == HashOf(txs[h])
  }

  class TxLookup {
    var slots: int
    var locals: map<TxHash, Tx>
    var remotes: map<TxHash, Tx>

    /** No transaction is both local and remote, and `slots` is the data slots of all. */
    ghost predicate Valid()
      reads this
    {
      && Hashed(locals) && Hashed(remotes)
      && locals.Keys !! remotes.Keys
      && slots == Sums.Total(locals, SlotsOf) + Sums.Total(remotes, SlotsOf)
    }

    /** The pool knows `tx`. */
    ghost predicate Has(tx: Tx)
      reads this
    {
      HashOf(tx) in locals || HashOf(tx) in remotes
    }

    constructor ()
      ensures Valid() && locals == map[] && remotes == map[]
    {
      slots, locals, remotes := 0, map[], map[];
    }

    function Get(hash: TxHash): (r: Option<Tx>)
      requires Valid()
      reads this
      ensures r == if Has(hash.tx) then Some(hash.tx) else None
    {
      if hash in locals then Some(locals[hash])
      else if hash in remotes then Some(remotes[hash])
      else None
    }

    predicate IsRemote(tx: Tx)
      reads this
    {
      HashOf(tx) in remotes
    }

    method Add(tx: Tx, local: bool)
      requires Valid() && !Has(tx)
      modifies this
      ensures Valid() && slots == old(slots) + tx.slots
      ensures locals == if local then old(locals)[HashOf(tx) := tx] else old(locals)
      ensures remotes == if local then old(remotes) else old(remotes)[HashOf(tx) := tx]
    {
      slots := slots + tx.slots;
      if local {
        Sums.TotalUpdate(locals, SlotsOf, HashOf(tx), tx);
        locals := locals[HashOf(tx) := tx];
      } else {
        Sums.TotalUpdate(remotes, SlotsOf, HashOf(tx), tx);
        remotes := remotes[HashOf(tx) := tx];
      }
    }

    /** Removing an unknown hash only logs an error. */
    method Remove(hash: TxHash)
      requires Valid()
      modifies this
      ensures Valid()
      ensures locals == old(locals) - {hash} && remotes == old(remotes) - {hash}
      ensures slots == old(slots) - if old(Has(hash.tx)) then hash.tx.slots else 0
    {
      if hash in locals {
        slots := slots - locals[hash].slots;
        Sums.TotalWithout(locals, SlotsOf, hash);
        assert remotes - {hash} == remotes;
      } else if hash in remotes {
        slots := slots - remotes[hash].slots;
        Sums.TotalWithout(remotes, SlotsOf, hash);
        assert locals - {hash} == locals;
      } else {
        assert remotes - {hash} == remotes && locals - {hash} == locals;
        return;
      }
      locals, remotes := locals - {hash}, remotes - {hash};
    }

    /** Make local every remote transaction whose sender is now local. */
    method RemoteToLocals(accounts: set<Address>) returns (migrated: nat)
      requires Valid()
      modifies this
      ensures Valid() && slots == old(slots)
      ensures forall tx :: Has(tx) <==> old(Has(tx))
      ensures forall h :: h in remotes <==> h in old(remotes) && h.tx.sender !in accounts
      ensures migrated == |old(remotes)| - |remotes|
    {
      migrated := 0;
      var rest := remotes.Keys;
      while rest != {}
        invariant Valid() && slots == old(slots)
        invariant rest <= remotes.Keys <= old(remotes).Keys
        invariant forall tx :: Has(tx) <==> old(Has(tx))
        invariant forall h :: h in remotes <==> h in old(remotes) && (h in rest || h.tx.sender !in accounts)
        invariant migrated == |old(remotes)| - |remotes|
        decreases |rest|
      {
        var hash :| hash in rest;
        rest := rest - {hash};
        if remotes[hash].sender in accounts {
          Sums.TotalUpdate(locals, SlotsOf, hash, remotes[hash]);
          Sums.TotalWithout(remotes, SlotsOf, hash);
          locals := locals[hash := remotes[hash]];
          assert (remotes - {hash}).Keys == remotes.Keys - {hash};
          remotes := remotes - {hash};
          migrated := migrated + 1;
        }
      }
    }

    /** All remote transactions with a tip below the threshold. */
    method RemotesBelowTip(threshold: int) returns (found: seq<Tx>)
      requires Valid()
      ensures forall tx :: tx in found <==> HashOf(tx) in remotes && tx.tipCap < threshold
    {
      found := [];
      var rest := remotes.Keys;
      while rest != {}
        invariant rest <= remotes.Keys
        invariant forall tx :: tx in found <==> HashOf(tx) in remotes && HashOf(tx) !in rest && tx.tipCap < threshold
        decreases |rest|
      {
        var hash :| hash in rest;
        rest := rest - {hash};
        if remotes[hash].tipCap < threshold {
          found := found + [remotes[hash]];
        }
      }
    }
  }
}
