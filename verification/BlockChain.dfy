/** The block chain over the header chain (core/blockchain.go): reorganisation of the
    canonical chain with its transaction index, and rewinding. */
module BlockChains {
  import opened Wrappers
  import opened Chains
  import opened HeaderChains

  /** No transaction is twice in the chain of `head`. */
  ghost predicate TxsOnce(head: Header) {
    && WellLinked(head)
    && forall n: nat, m: nat, tx :: n <= head.number && m <= head.number && TxAt(head, n, tx) && TxAt(head, m, tx) ==> n == m
  }

  ghost predicate TxAt(head: Header, n: nat, tx: TxId)
    requires WellLinked(head) && n <= head.number
  {
    tx in Ancestor(head, n).txs
  }

  /** The index has exactly the transactions of the chain of `head`, each at its block. */
  ghost predicate Indexes(txIndex: map<TxId, nat>, head: Header) {
    && WellLinked(head)
    && (forall n: nat, tx :: n <= head.number && TxAt(head, n, tx) ==> tx in txIndex && txIndex[tx] == n)
    && forall tx :: tx in txIndex ==> txIndex[tx] <= head.number && TxAt(head, txIndex[tx], tx)
  }

  /** `path` leads from `head` back to just above its ancestor at `low`. */
  ghost predicate IsPath(path: seq<Header>, head: Header, low: nat) {
    && WellLinked(head) && low <= head.number && |path| == head.number - low
    && forall i :: 0 <= i < |path| ==> path[i] == Ancestor(head, head.number - i)
  }

  /** `path` leads from `head` back to just above its ancestor `block`. */
  ghost predicate PathTo(path: seq<Header>, head: Header, block: Header) {
    IsPath(path, head, block.number) && block == Ancestor(head, block.number)
  }

  /** The block of a hash can be read. */
  predicate BlockPresent(db: Db, hash: Hash) {
    hash in db.headers && hash in db.bodies
  }

  ghost predicate AllBodies(db: Db) {
    forall hash :: hash in db.headers ==> hash in db.bodies
  }

  /** Walk back from `head` to the height `low`, collecting the blocks passed. */
  method Collect(db: Db, ghost genesis: Header, head: Header, low: nat) returns (block: Option<Header>, path: seq<Header>)
    requires ParentClosed(db.headers, genesis) && WellLinked(head) && low <= head.number
    ensures block.Some? ==> block.value.number == low && PathTo(path, head, block.value)
    ensures Readable(db, head) ==> block.Some? && Readable(db, block.value)
  {
    hide *;
    block, path := Some(head), [];
    NoPathYet(head);
    while block.Some? && block.value.number != low
      invariant block.Some? ==> PathTo(path, head, block.value) && low <= block.value.number
      invariant Readable(db, head) ==> block.Some? && Readable(db, block.value)
      decreases if block.Some? then block.value.number + 1 else 0
    {
      LongerPath(db, genesis, head, path, block.value);
      path := path + [block.value];
      block := db.GetBlock(block.value.parentHash, block.value.number - 1);
    }
  }

  /** What reading the parent of an ancestor of `head` gives. */
  lemma ParentBlock(db: Db, genesis: Header, head: Header, h: Header)
    requires ParentClosed(db.headers, genesis) && WellLinked(head) && h.number <= head.number && h == Ancestor(head, h.number)
    ensures var parent := db.GetBlock(h.parentHash, h.number - 1);
            && (parent.Some? ==> h.number > 0 && parent.value == Ancestor(head, h.number - 1))
            && (Readable(db, h) && h.number > 0 ==> parent.Some? && Readable(db, parent.value))
  {
    hide ParentClosed, WellLinked, Ancestor;
    if HashOf(h) in db.headers {
      FiledAt(db.headers, genesis, HashOf(h));
    }
    if h.parentHash in db.headers {
      FiledAt(db.headers, genesis, h.parentHash);
    }
    if h.number > 0 {
      AncestorStep(head, h.number - 1);
    }
  }

  lemma LongerPath(db: Db, genesis: Header, head: Header, path: seq<Header>, block: Header)
    requires ParentClosed(db.headers, genesis) && PathTo(path, head, block)
    ensures var parent := db.GetBlock(block.parentHash, block.number - 1);
            && (parent.Some? ==> parent.value.number + 1 == block.number && PathTo(path + [block], head, parent.value))
            && (Readable(db, block) && block.number > 0 ==> parent.Some? && Readable(db, parent.value))
  {
    ParentBlock(db, genesis, head, block);
  }

  /** Everything reachable from `head` can be read. */
  ghost predicate Readable(db: Db, head: Header) {
    AllBodies(db) && HashOf(head) in db.headers
  }

  lemma NoPathYet(head: Header)
    requires WellLinked(head)
    ensures PathTo([], head, head)
  {
  }

  /** Reduce the longer chain to the height of the other. */
  method Level(db: Db, ghost genesis: Header, oldHead: Header, newHead: Header)
      returns (o: Option<Header>, n: Option<Header>, oldChain: seq<Header>, newChain: seq<Header>)
    requires ParentClosed(db.headers, genesis) && WellLinked(oldHead) && WellLinked(newHead)
    ensures o.Some? ==> PathTo(oldChain, oldHead, o.value) && (Readable(db, oldHead) ==> Readable(db, o.value))
    ensures n.Some? ==> PathTo(newChain, newHead, n.value) && (Readable(db, newHead) ==> Readable(db, n.value))
    ensures o.Some? && n.Some? ==> o.value.number == n.value.number
    ensures Readable(db, oldHead) && Readable(db, newHead) ==> o.Some? && n.Some?
  {
    hide ParentClosed, WellLinked;
    oldChain, newChain := [], [];
    o, n := Some(oldHead), Some(newHead);
    NoPathYet(oldHead);
    NoPathYet(newHead);
    if oldHead.number > newHead.number {
      o, oldChain := Collect(db, genesis, oldHead, newHead.number);
    } else {
      n, newChain := Collect(db, genesis, newHead, oldHead.number);
    }
  }

  /** Reduce the longer chain, and then both until they meet. */
  method FindCommon(db: Db, ghost genesis: Header, oldHead: Header, newHead: Header)
      returns (err: Option<ChainError>, common: Header, oldChain: seq<Header>, newChain: seq<Header>)
    requires ParentClosed(db.headers, genesis) && WellLinked(oldHead) && WellLinked(newHead)
    ensures err == None ==> PathTo(oldChain, oldHead, common) && PathTo(newChain, newHead, common)
    ensures Readable(db, oldHead) && Readable(db, newHead) ==> err == None
  {
    hide *;
    var o, n;
    o, n, oldChain, newChain := Level(db, genesis, oldHead, newHead);
    if o == None {
      return Some(InvalidOldChain), oldHead, oldChain, newChain;
    }
    if n == None {
      return Some(InvalidNewChain), oldHead, oldChain, newChain;
    }
    err, common, oldChain, newChain := Meet(db, genesis, oldHead, newHead, o.value, n.value, oldChain, newChain);
  }

  /** Step back with both chains until the common ancestor is found. */
  method Meet(db: Db, ghost genesis: Header, ghost oldHead: Header, ghost newHead: Header,
              o: Header, n: Header, oldPath: seq<Header>, newPath: seq<Header>)
      returns (err: Option<ChainError>, common: Header, oldChain: seq<Header>, newChain: seq<Header>)
    requires ParentClosed(db.headers, genesis) && o.number == n.number
    requires PathTo(oldPath, oldHead, o) && PathTo(newPath, newHead, n)
    ensures err == None ==> PathTo(oldChain, oldHead, common) && PathTo(newChain, newHead, common)
    ensures Readable(db, o) && Readable(db, n) ==> err == None
  {
    hide *;
    var oldBlock, newBlock := o, n;
    oldChain, newChain := oldPath, newPath;
    while HashOf(oldBlock) != HashOf(newBlock)
      invariant PathTo(oldChain, oldHead, oldBlock) && PathTo(newChain, newHead, newBlock) && oldBlock.number == newBlock.number
      invariant Readable(db, o) && Readable(db, n) ==> Readable(db, oldBlock) && Readable(db, newBlock)
      decreases oldBlock.number
    {
      LongerPath(db, genesis, oldHead, oldChain, oldBlock);
      LongerPath(db, genesis, newHead, newChain, newBlock);
      OneGenesis(db, genesis, oldBlock, newBlock);
      oldChain, newChain := oldChain + [oldBlock], newChain + [newBlock];
      var parent := db.GetBlock(oldBlock.parentHash, oldBlock.number - 1);
      if parent == None {
        return Some(InvalidOldChain), oldBlock, oldChain, newChain;
      }
      var newParent := db.GetBlock(newBlock.parentHash, newBlock.number - 1);
      if newParent == None {
        return Some(InvalidNewChain), oldBlock, oldChain, newChain;
      }
      oldBlock, newBlock := parent.value, newParent.value;
    }
    return None, oldBlock, oldChain, newChain;
  }

  lemma OneGenesis(db: Db, genesis: Header, a: Header, b: Header)
    requires ParentClosed(db.headers, genesis) && a != b && a.number == b.number
    ensures Readable(db, a) && Readable(db, b) ==> a.number > 0
  {
  }

  /** The index with the transactions of a block at `n` entered. */
  function WithTxs(txIndex: map<TxId, nat>, txs: seq<TxId>, n: nat): map<TxId, nat> {
    map tx | tx in txIndex.Keys + (set x | x in txs) :: if tx in txs then n else txIndex[tx]
  }

  function TxsOf(blocks: seq<Header>): seq<TxId> {
    if blocks == [] then [] else TxsOf(blocks[..|blocks| - 1]) + blocks[|blocks| - 1].txs
  }

  /** The store once a block has been made its head. */
  function HeadWritten(db: Db, block: Header): Db {
    var hash := HashOf(block);
    db.(canon := db.canon[block.number := hash], txIndex := WithTxs(db.txIndex, block.txs, block.number),
        headHeader := hash, headFast := hash, headBlock := hash)
  }

  /** Put into a batch the index entries of all transactions of a block. */
  method PutTxs(db: Db, batch: seq<Write>, block: Header) returns (batch': seq<Write>)
    ensures Flush(db, batch') == Flush(db, batch).(txIndex := WithTxs(Flush(db, batch).txIndex, block.txs, block.number))
  {
    hide Flush;
    batch' := batch;
    assert WithTxs(Flush(db, batch).txIndex, block.txs[..0], block.number) == Flush(db, batch).txIndex;
    for i := 0 to |block.txs|
      invariant Flush(db, batch') == Flush(db, batch).(txIndex := WithTxs(Flush(db, batch).txIndex, block.txs[..i], block.number))
    {
      FlushOneMore(db, batch', PutTxIndex(block.txs[i], block.number));
      batch' := batch' + [PutTxIndex(block.txs[i], block.number)];
      OneMoreTx(Flush(db, batch).txIndex, block.txs, i, block.number);
    }
    assert block.txs[..|block.txs|] == block.txs;
  }

  lemma OneMoreTx(txIndex: map<TxId, nat>, txs: seq<TxId>, i: nat, n: nat)
    requires i < |txs|
    ensures WithTxs(txIndex, txs[..i], n)[txs[i] := n] == WithTxs(txIndex, txs[..i + 1], n)
  {
  }

  /** What WriteHeadBlock is going to write. */
  method HeadBatch(db: Db, block: Header) returns (batch: seq<Write>)
    ensures Flush(db, batch) == HeadWritten(db, block)
  {
    hide Flush, WithTxs;
    var hash := HashOf(block);
    FlushNothing(db);
    FlushOneMore(db, [], PutHeadHeader(hash));
    FlushOneMore(db, [] + [PutHeadHeader(hash)], PutHeadFast(hash));
    FlushOneMore(db, [] + [PutHeadHeader(hash)] + [PutHeadFast(hash)], PutCanonical(block.number, hash));
    batch := PutTxs(db, [] + [PutHeadHeader(hash)] + [PutHeadFast(hash)] + [PutCanonical(block.number, hash)], block);
    FlushOneMore(db, batch, PutHeadBlock(hash));
    batch := batch + [PutHeadBlock(hash)];
  }

  /** The canonical hashes after the blocks of `head` above `low` up to `high` were written. */
  ghost predicate CanonPiled(canon0: map<nat, Hash>, canon: map<nat, Hash>, head: Header, low: nat, high: nat) {
    && WellLinked(head) && low <= high <= head.number
    && (forall n: nat :: n in canon <==> n in canon0 || low < n <= high)
    && (forall n: nat :: n in canon && low < n <= high ==> canon[n] == HashOf(Ancestor(head, n)))
    && (forall n: nat :: n in canon && !(low < n <= high) ==> canon[n] == canon0[n])
  }

  ghost predicate TxAmong(head: Header, low: nat, high: nat, n: nat, tx: TxId)
    requires WellLinked(head) && high <= head.number
  {
    low < n <= high && TxAt(head, n, tx)
  }

  /** The transaction index after the same. */
  ghost predicate TxsPiled(idx0: map<TxId, nat>, idx: map<TxId, nat>, head: Header, low: nat, high: nat) {
    && WellLinked(head) && low <= high <= head.number
    && idx0.Keys <= idx.Keys
    && (forall tx :: tx in idx ==> TxAmong(head, low, high, idx[tx], tx) || (tx in idx0 && idx[tx] == idx0[tx]))
    && (forall n: nat, tx :: TxAmong(head, low, high, n, tx) ==> tx in idx && idx[tx] == n)
  }

  /** The store after the blocks of `head` above `low` up to `high` were made its head. */
  ghost predicate Piled(db0: Db, db: Db, head: Header, low: nat, high: nat) {
    && CanonPiled(db0.canon, db.canon, head, low, high) && TxsPiled(db0.txIndex, db.txIndex, head, low, high)
    && SameContent(db0, db)
  }

  /** The highest number that a new chain fills, its head excepted. */
  function HighestWritten(newChain: seq<Header>, common: Header): nat {
    if |newChain| > 1 then newChain[1].number else common.number
  }

  lemma NothingPiled(db: Db, path: seq<Header>, head: Header, common: Header)
    requires PathTo(path, head, common)
    ensures Piled(db, db, head, common.number, common.number)
  {
  }

  lemma PathLength(path: seq<Header>, head: Header, block: Header)
    requires PathTo(path, head, block)
    ensures WellLinked(head) && |path| == head.number - block.number
    ensures HighestWritten(path, block) == if |path| > 1 then head.number - 1 else block.number
  {
  }

  lemma OnPath(path: seq<Header>, head: Header, block: Header, i: nat)
    requires PathTo(path, head, block) && i < |path|
    ensures WellLinked(head) && block.number < head.number - i && path[i] == Ancestor(head, head.number - i)
  {
  }

  lemma PiledOneMore(db0: Db, db: Db, head: Header, low: nat, high: nat)
    requires Piled(db0, db, head, low, high) && high < head.number && TxsOnce(head)
    ensures Piled(db0, HeadWritten(db, Ancestor(head, high + 1)), head, low, high + 1)
  {
    CanonOneMore(db0.canon, db.canon, head, low, high);
    TxsOneMore(db0.txIndex, db.txIndex, head, low, high);
  }

  lemma CanonOneMore(canon0: map<nat, Hash>, canon: map<nat, Hash>, head: Header, low: nat, high: nat)
    requires CanonPiled(canon0, canon, head, low, high) && high < head.number
    ensures CanonPiled(canon0, canon[high + 1 := HashOf(Ancestor(head, high + 1))], head, low, high + 1)
  {
  }

  lemma TxsOneMore(idx0: map<TxId, nat>, idx: map<TxId, nat>, head: Header, low: nat, high: nat)
    requires TxsPiled(idx0, idx, head, low, high) && high < head.number && TxsOnce(head)
    ensures TxsPiled(idx0, WithTxs(idx, Ancestor(head, high + 1).txs, high + 1), head, low, high + 1)
  {
    var next := high + 1;
    var idx' := WithTxs(idx, Ancestor(head, next).txs, next);
    forall tx | tx in idx'
      ensures TxAmong(head, low, next, idx'[tx], tx) || (tx in idx0 && idx'[tx] == idx0[tx])
    {
      if tx in Ancestor(head, next).txs {
        assert TxAt(head, next, tx);
      } else {
        assert TxAmong(head, low, high, idx[tx], tx) ==> TxAmong(head, low, next, idx[tx], tx);
      }
    }
    forall n: nat, tx | TxAmong(head, low, next, n, tx)
      ensures tx in idx' && idx'[tx] == n
    {
      if tx in Ancestor(head, next).txs {
        assert TxAt(head, next, tx) && TxAt(head, n, tx);
      } else {
        assert TxAmong(head, low, high, n, tx);
      }
    }
  }

  /** The transactions in blocks of `head` above `low` up to `high`. */
  ghost predicate AreTxs(txs: seq<TxId>, head: Header, low: nat, high: nat) {
    && WellLinked(head) && high <= head.number
    && (forall n: nat, tx :: TxAmong(head, low, high, n, tx) ==> tx in txs)
    && forall tx :: tx in txs ==> exists n: nat :: TxAmong(head, low, high, n, tx)
  }

  lemma {:induction false} TxsOfPath(path: seq<Header>, head: Header, low: nat, from: nat)
    requires IsPath(path, head, low) && from <= |path|
    ensures AreTxs(TxsOf(path[from..]), head, low, head.number - from)
    decreases |path|
  {
    if from == |path| {
      assert TxsOf(path[from..]) == [];
    } else {
      var k := |path| - 1;
      TxsOfPath(path[..k], head, low + 1, from);
      assert path[from..][..k - from] == path[..k][from..];
      OneBlockBelow(TxsOf(path[..k][from..]), head, low, head.number - from);
    }
  }

  lemma OneBlockBelow(txs: seq<TxId>, head: Header, low: nat, high: nat)
    requires AreTxs(txs, head, low + 1, high) && low < high
    ensures AreTxs(txs + Ancestor(head, low + 1).txs, head, low, high)
  {
    var next := low + 1;
    forall n: nat, tx | TxAmong(head, low, high, n, tx)
      ensures tx in txs + Ancestor(head, next).txs
    {
      assert n == next || TxAmong(head, next, high, n, tx);
    }
    forall tx | tx in txs + Ancestor(head, next).txs
      ensures exists n: nat :: TxAmong(head, low, high, n, tx)
    {
      if tx in txs {
        var n: nat :| TxAmong(head, next, high, n, tx);
        assert TxAmong(head, low, high, n, tx);
      } else {
        assert TxAmong(head, low, high, next, tx);
      }
    }
  }

  /** The index entries of `deleted` that are not also among `added`. */
  function Difference(deleted: seq<TxId>, added: seq<TxId>): set<TxId> {
    (set tx | tx in deleted) - (set tx | tx in added)
  }

  /** Once the transactions that are in the old chain only are taken out, the index is that
      of the new chain. */
  lemma Reindexed(idx0: map<TxId, nat>, idx: map<TxId, nat>, oldHead: Header, newHead: Header, low: nat, high: nat,
                  deleted: seq<TxId>, added: seq<TxId>)
    requires Indexes(idx0, oldHead) && TxsOnce(newHead) && TxsPiled(idx0, idx, newHead, low, high)
    requires low <= oldHead.number && Ancestor(oldHead, low) == Ancestor(newHead, low)
    requires AreTxs(deleted, oldHead, low, oldHead.number) && AreTxs(added, newHead, low, high)
    ensures Indexes(idx - Difference(deleted, added), Ancestor(newHead, high))
  {
    var target := Ancestor(newHead, high);
    var idx' := idx - Difference(deleted, added);
    forall n: nat, tx | n <= target.number && TxAt(target, n, tx)
      ensures tx in idx' && idx'[tx] == n
    {
      AncestorOfAncestor(newHead, high, n);
      assert TxAt(newHead, n, tx);
      if n > low {
        assert TxAmong(newHead, low, high, n, tx);
      } else {
        ChainsMeet(oldHead, newHead, low, n);
        assert TxAt(oldHead, n, tx);
      }
    }
    forall tx | tx in idx'
      ensures idx'[tx] <= target.number && TxAt(target, idx'[tx], tx)
    {
      var n := idx[tx];
      if TxAmong(newHead, low, high, n, tx) {
        AncestorOfAncestor(newHead, high, n);
      } else {
        assert TxAt(oldHead, n, tx);
        if n <= low {
          ChainsMeet(oldHead, newHead, low, n);
          AncestorOfAncestor(newHead, high, n);
        } else {
          assert TxAmong(oldHead, low, oldHead.number, n, tx);
        }
      }
    }
  }

  lemma PiledDense(canon0: map<nat, Hash>, canon: map<nat, Hash>, oldHead: Header, newHead: Header, low: nat, high: nat)
    requires IsChainOf(canon0, oldHead) && CanonPiled(canon0, canon, newHead, low, high) && low <= oldHead.number
    ensures DenseUpTo(canon, if oldHead.number >= high then oldHead.number else high)
  {
  }

  lemma PiledFollows(canon0: map<nat, Hash>, canon: map<nat, Hash>, oldHead: Header, newHead: Header, low: nat, high: nat)
    requires IsChainOf(canon0, oldHead) && CanonPiled(canon0, canon, newHead, low, high)
    requires low <= oldHead.number && Ancestor(oldHead, low) == Ancestor(newHead, low)
    ensures FollowsUpTo(canon, Ancestor(newHead, high), high + 1)
  {
    SameBelow(oldHead, newHead, low);
    var target := Ancestor(newHead, high);
    forall n: nat | n <= high
      ensures n in canon && canon[n] == HashOf(Ancestor(target, n))
    {
      AncestorOfAncestor(newHead, high, n);
    }
  }

  lemma CutOff(canon: map<nat, Hash>, target: Header, top: nat)
    requires DenseUpTo(canon, top) && FollowsUpTo(canon, target, target.number + 1)
    ensures IsChainOf(CutRange(canon, target.number + 1, if target.number + 1 <= top then top + 1 else target.number + 1), target)
  {
  }

  /** Once the numbers above `high` are cut off, the canonical map is the new chain. */
  lemma Recut(canon0: map<nat, Hash>, canon: map<nat, Hash>, oldHead: Header, newHead: Header, low: nat, high: nat)
    requires IsChainOf(canon0, oldHead) && CanonPiled(canon0, canon, newHead, low, high) && WellLinked(newHead)
    requires WellLinked(oldHead) && low <= oldHead.number && low <= high <= newHead.number
    requires Ancestor(oldHead, low) == Ancestor(newHead, low)
    ensures var top := if oldHead.number >= high then oldHead.number else high;
            && DenseUpTo(canon, top)
            && IsChainOf(CutRange(canon, high + 1, if high + 1 <= top then top + 1 else high + 1), Ancestor(newHead, high))
  {
    hide *;
    PiledDense(canon0, canon, oldHead, newHead, low, high);
    PiledFollows(canon0, canon, oldHead, newHead, low, high);
    CutOff(canon, Ancestor(newHead, high), if oldHead.number >= high then oldHead.number else high);
  }

  method DeleteTxs(db: Db, deleted: seq<TxId>, added: seq<TxId>) returns (batch: seq<Write>)
    ensures Flush(db, batch) == db.(txIndex := db.txIndex - Difference(deleted, added))
  {
    hide Flush;
    batch := [];
    FlushNothing(db);
    assert db.txIndex - Difference(deleted[..0], added) == db.txIndex;
    for i := 0 to |deleted|
      invariant Flush(db, batch) == db.(txIndex := db.txIndex - Difference(deleted[..i], added))
    {
      OneMoreDeleted(db.txIndex, deleted, added, i);
      if deleted[i] !in added {
        FlushOneMore(db, batch, DeleteTxIndex(deleted[i]));
        batch := batch + [DeleteTxIndex(deleted[i])];
      }
    }
    assert deleted[..|deleted|] == deleted;
  }

  lemma OneMoreDeleted(txIndex: map<TxId, nat>, deleted: seq<TxId>, added: seq<TxId>, i: nat)
    requires i < |deleted|
    ensures var before, after := txIndex - Difference(deleted[..i], added), txIndex - Difference(deleted[..i + 1], added);
            after == if deleted[i] in added then before else before - {deleted[i]}
  {
  }

  /** What deletes the useless indexes: those of transactions that are not in the new chain,
      and the canonical hashes above `high`. */
  method UselessIndexes(db: Db, deleted: seq<TxId>, added: seq<TxId>, high: nat, ghost top: nat) returns (batch: seq<Write>)
    requires DenseUpTo(db.canon, top)
    ensures var after := Flush(db, batch);
            && SameButIndexes(db, after)
            && after.canon == CutRange(db.canon, high + 1, if high + 1 <= top then top + 1 else high + 1)
            && after.txIndex == db.txIndex - Difference(deleted, added)
  {
    hide Flush, CutRange, DenseUpTo, Difference;
    batch := DeleteTxs(db, deleted, added);
    batch := DeleteCanonicalFrom(db, high + 1, batch, top);
  }

  /** The stores agree on headers, bodies, total difficulties and states. */
  ghost predicate SameContent(db: Db, db': Db) {
    db'.headers == db.headers && db'.bodies == db.bodies && db'.tds == db.tds && db'.states == db.states
  }

  ghost predicate SameButIndexes(db: Db, db': Db) {
    && SameContent(db, db')
    && db'.headHeader == db.headHeader && db'.headFast == db.headFast && db'.headBlock == db.headBlock
  }

  /** The canonical map and the transaction index are those of the parent of `head`, or of
      `head` itself. */
  ghost predicate ReadyFor(db: Db, head: Header) {
    && WellLinked(head)
    && exists n: nat ::
         n <= head.number <= n + 1 && IsChainOf(db.canon, Ancestor(head, n)) && Indexes(db.txIndex, Ancestor(head, n))
  }

  lemma HeadOnTop(db: Db, head: Header)
    requires ReadyFor(db, head) && TxsOnce(head)
    ensures IsChainOf(HeadWritten(db, head).canon, head) && Indexes(HeadWritten(db, head).txIndex, head)
  {
    var n: nat :| n <= head.number <= n + 1 && IsChainOf(db.canon, Ancestor(head, n)) && Indexes(db.txIndex, Ancestor(head, n));
    CanonOnTop(db.canon, head, n);
    TxsOnTop(db.txIndex, head, n);
  }

  lemma CanonOnTop(canon: map<nat, Hash>, head: Header, n: nat)
    requires WellLinked(head) && n <= head.number <= n + 1 && IsChainOf(canon, Ancestor(head, n))
    ensures IsChainOf(canon[head.number := HashOf(head)], head)
  {
    forall m: nat | m <= n
      ensures Ancestor(Ancestor(head, n), m) == Ancestor(head, m)
    {
      AncestorOfAncestor(head, n, m);
    }
  }

  lemma TxsOnTop(txIndex: map<TxId, nat>, head: Header, n: nat)
    requires TxsOnce(head) && n <= head.number <= n + 1 && Indexes(txIndex, Ancestor(head, n))
    ensures Indexes(WithTxs(txIndex, head.txs, head.number), head)
  {
    var idx := WithTxs(txIndex, head.txs, head.number);
    forall m: nat, tx | m <= head.number && TxAt(head, m, tx)
      ensures tx in idx && idx[tx] == m
    {
      assert tx in head.txs ==> TxAt(head, head.number, tx);
      if m <= n {
        AncestorOfAncestor(head, n, m);
        assert TxAt(Ancestor(head, n), m, tx);
      }
    }
    forall tx | tx in idx
      ensures idx[tx] <= head.number && TxAt(head, idx[tx], tx)
    {
      if tx !in head.txs {
        AncestorOfAncestor(head, n, txIndex[tx]);
      }
    }
  }

  /** The heads are the ones the markers name; where a marker of the headers or of the fast
      blocks leads nowhere, the head block stands in. */
  ghost predicate HeadsLoaded(db: Db, header: Header, block: Header, fast: Header) {
    && db.headBlock in db.headers && block == db.headers[db.headBlock]
    && header == (if db.headHeader in db.headers then db.headers[db.headHeader] else block)
    && fast == (if BlockPresent(db, db.headFast) then db.headers[db.headFast] else block)
  }

  class BlockChain {
    const hc: HeaderChain
    var currentBlock: Header
    var currentFastBlock: Header

    /** The heads agree, the markers name them, and the transaction index is exact. */
    ghost predicate Valid()
      reads this, hc
    {
      && hc.Valid() && currentBlock == hc.current && currentFastBlock == currentBlock
      && hc.db.headBlock == HashOf(currentBlock) && hc.db.headFast == HashOf(currentBlock)
      && Indexes(hc.db.txIndex, currentBlock)
    }

    /** A block chain over a header chain, its heads not loaded yet. */
    constructor (hc: HeaderChain)
      ensures this.hc == hc && currentBlock == currentFastBlock == hc.genesis
    {
      this.hc, currentBlock, currentFastBlock := hc, hc.genesis, hc.genesis;
    }

    /** Load the heads that the markers name. It fails, changing nothing, exactly when the head
        block cannot be read as a whole; the chain must then be reset. Over a consistent store
        the header head becomes the one of the canonical chain, and if all markers name it the
        block chain is valid. */
    method LoadLastState() returns (ok: bool)
      modifies this`currentBlock, this`currentFastBlock, hc`current, hc`currentHash
      ensures ok <==> BlockPresent(hc.db, hc.db.headBlock) && hc.db.headBlock != NoHash
      ensures !ok ==> unchanged(this) && unchanged(hc)
      ensures ok ==> HashOf(hc.current) == hc.currentHash && HeadsLoaded(hc.db, hc.current, currentBlock, currentFastBlock)
      ensures ok ==> forall head :: Consistent(hc.db, hc.genesis, head) && hc.db.headHeader == HashOf(head) ==>
                hc.Valid() && hc.current == head
      ensures ok && hc.Valid() && Indexes(hc.db.txIndex, hc.current) && hc.db.headBlock == hc.db.headFast == hc.currentHash ==>
                Valid()
    {
      var db := hc.db;
      if db.headBlock == NoHash || !BlockPresent(db, db.headBlock) {
        return false;
      }
      ok, currentBlock := true, db.headers[db.headBlock];
      var header := if db.headHeader in db.headers then db.headers[db.headHeader] else currentBlock;
      hc.current, hc.currentHash := header, HashOf(header);
      currentFastBlock := if BlockPresent(db, db.headFast) then db.headers[db.headFast] else currentBlock;
      forall head | Consistent(db, hc.genesis, head) && db.headHeader == HashOf(head)
        ensures hc.current == head && InPlace(db.headers, hc.genesis, HashOf(head))
      {
        FiledAt(db.headers, hc.genesis, HashOf(head));
      }
    }

    /** Make a block the head: its canonical hash, its transactions, and all markers. */
    method WriteHeadBlock(block: Header)
      modifies this`currentBlock, this`currentFastBlock, hc`db, hc`current, hc`currentHash
      ensures hc.db == HeadWritten(old(hc.db), block)
      ensures hc.current == currentBlock == currentFastBlock == block && hc.currentHash == HashOf(block)
    {
      var batch := HeadBatch(hc.db, block);
      hc.db := Flush(hc.db, batch);
      hc.current, hc.currentHash := block, HashOf(block);
      currentFastBlock := block;
      currentBlock := block;
    }

    /** Write the blocks of the new chain except the head, lowest first. */
    method WriteNewChain(newChain: seq<Header>, ghost newHead: Header, ghost common: Header)
      requires PathTo(newChain, newHead, common) && TxsOnce(newHead)
      modifies this`currentBlock, this`currentFastBlock, hc`db, hc`current, hc`currentHash
      ensures Piled(old(hc.db), hc.db, newHead, common.number, HighestWritten(newChain, common))
    {
      hide *;
      var i := |newChain|;
      NothingPiled(hc.db, newChain, newHead, common);
      PathLength(newChain, newHead, common);
      while i > 1
        invariant 0 <= i <= |newChain| && (i >= 1 || |newChain| == 0)
        invariant Piled(old(hc.db), hc.db, newHead, common.number, newHead.number - i)
        decreases i
      {
        i := i - 1;
        OnPath(newChain, newHead, common, i);
        PiledOneMore(old(hc.db), hc.db, newHead, common.number, newHead.number - i - 1);
        WriteHeadBlock(newChain[i]);
      }
    }

    /** Turn the canonical chain from the one of `oldBlock` to the one of `newBlock`, whose own
        entries are left to the caller. When a block is missing nothing is changed. */
    method Reorg(oldBlock: Header, newBlock: Header) returns (err: Option<ChainError>)
      requires ParentClosed(hc.db.headers, hc.genesis) && IsChainOf(hc.db.canon, oldBlock) && Indexes(hc.db.txIndex, oldBlock)
      requires TxsOnce(newBlock)
      modifies this`currentBlock, this`currentFastBlock, hc`db, hc`current, hc`currentHash
      ensures err != None ==> unchanged(this) && unchanged(hc)
      ensures err == None ==> ReadyFor(hc.db, newBlock) && SameContent(old(hc.db), hc.db)
      ensures old(Readable(hc.db, oldBlock)) && old(Readable(hc.db, newBlock)) ==> err == None
    {
      hide *;
      LinkedHeads(hc.db, oldBlock, newBlock);
      var common, oldChain, newChain;
      err, common, oldChain, newChain := FindCommon(hc.db, hc.genesis, oldBlock, newBlock);
      if err != None {
        return;
      }
      WriteNewChain(newChain, newBlock, common);
      var added := if |newChain| > 1 then TxsOf(newChain[1..]) else [];
      DropUseless(TxsOf(oldChain), added, HighestWritten(newChain, common), oldBlock, newBlock, common,
                  old(hc.db), oldChain, newChain);
    }

    method DropUseless(deleted: seq<TxId>, added: seq<TxId>, high: nat, ghost oldBlock: Header, ghost newBlock: Header,
                       ghost common: Header, ghost db0: Db, ghost oldChain: seq<Header>, ghost newChain: seq<Header>)
      requires IsChainOf(db0.canon, oldBlock) && Indexes(db0.txIndex, oldBlock) && TxsOnce(newBlock)
      requires PathTo(oldChain, oldBlock, common) && PathTo(newChain, newBlock, common)
      requires high == HighestWritten(newChain, common) && Piled(db0, hc.db, newBlock, common.number, high)
      requires deleted == TxsOf(oldChain) && added == if |newChain| > 1 then TxsOf(newChain[1..]) else []
      modifies hc`db
      ensures ReadyFor(hc.db, newBlock) && SameContent(db0, hc.db)
    {
      hide *;
      ghost var top := if oldBlock.number >= high then oldBlock.number else high;
      PiledIsDense(db0, hc.db, oldBlock, newBlock, oldChain, common, high);
      var batch := UselessIndexes(hc.db, deleted, added, high, top);
      NewChainReady(db0, hc.db, Flush(hc.db, batch), oldBlock, newBlock, common, oldChain, newChain, deleted, added, high);
      hc.db := Flush(hc.db, batch);
    }

    /** Make a block the head, reorganising the chain if it is not a child of the current
        head. The canonical map becomes exactly the chain of the block, and the transaction
        index exactly its transactions, also when the block is an ancestor of the head. */
    method WriteKnownBlock(block: Header) returns (err: Option<ChainError>)
      requires Valid() && TxsOnce(block) && HashOf(block) in hc.db.headers
      modifies this`currentBlock, this`currentFastBlock, hc`db, hc`current, hc`currentHash
      ensures Valid()
      ensures err != None ==> unchanged(this) && unchanged(hc)
      ensures err == None ==> currentBlock == block && SameContent(old(hc.db), hc.db)
      ensures old(AllBodies(hc.db)) ==> err == None
    {
      err := None;
      if block.parentHash != HashOf(currentBlock) {
        err := Reorg(currentBlock, block);
        if err != None {
          return;
        }
      } else {
        ReadyForChild(hc.db, currentBlock, block);
      }
      HeadOnTop(hc.db, block);
      WriteHeadBlock(block);
    }
  }

  lemma LinkedHeads(db: Db, oldBlock: Header, newBlock: Header)
    requires IsChainOf(db.canon, oldBlock) && TxsOnce(newBlock)
    ensures WellLinked(oldBlock) && WellLinked(newBlock)
  {
  }

  lemma PiledIsDense(db0: Db, db: Db, oldBlock: Header, newBlock: Header, oldChain: seq<Header>, common: Header, high: nat)
    requires IsChainOf(db0.canon, oldBlock) && PathTo(oldChain, oldBlock, common) && Piled(db0, db, newBlock, common.number, high)
    ensures DenseUpTo(db.canon, if oldBlock.number >= high then oldBlock.number else high)
  {
  }

  /** Deleting the useless indexes after the new blocks were written leaves the new chain. */
  lemma NewChainReady(db0: Db, db: Db, after: Db, oldBlock: Header, newBlock: Header, common: Header,
                      oldChain: seq<Header>, newChain: seq<Header>, deleted: seq<TxId>, added: seq<TxId>, high: nat)
    requires IsChainOf(db0.canon, oldBlock) && Indexes(db0.txIndex, oldBlock) && TxsOnce(newBlock)
    requires PathTo(oldChain, oldBlock, common) && PathTo(newChain, newBlock, common)
    requires high == HighestWritten(newChain, common) && Piled(db0, db, newBlock, common.number, high)
    requires deleted == TxsOf(oldChain) && added == if |newChain| > 1 then TxsOf(newChain[1..]) else []
    requires SameButIndexes(db, after) && after.txIndex == db.txIndex - Difference(deleted, added)
    requires var top := if oldBlock.number >= high then oldBlock.number else high;
             after.canon == CutRange(db.canon, high + 1, if high + 1 <= top then top + 1 else high + 1)
    ensures ReadyFor(after, newBlock) && SameContent(db0, after)
  {
    hide CutRange, Difference, CanonPiled, TxsPiled, IsChainOf, Indexes, TxsOnce, AreTxs, DenseUpTo, TxsOf;
    PathLength(newChain, newBlock, common);
    AddedTxs(newChain, newBlock, common);
    DeletedTxs(oldChain, oldBlock, common);
    Recut(db0.canon, db.canon, oldBlock, newBlock, common.number, high);
    Reindexed(db0.txIndex, db.txIndex, oldBlock, newBlock, common.number, high, deleted, added);
    assert high <= newBlock.number <= high + 1 && IsChainOf(after.canon, Ancestor(newBlock, high));
  }

  lemma DeletedTxs(oldChain: seq<Header>, oldBlock: Header, common: Header)
    requires PathTo(oldChain, oldBlock, common)
    ensures AreTxs(TxsOf(oldChain), oldBlock, common.number, oldBlock.number)
  {
    TxsOfPath(oldChain, oldBlock, common.number, 0);
    assert oldChain[0..] == oldChain;
  }

  lemma AddedTxs(newChain: seq<Header>, newBlock: Header, common: Header)
    requires PathTo(newChain, newBlock, common)
    ensures AreTxs(if |newChain| > 1 then TxsOf(newChain[1..]) else [], newBlock, common.number, HighestWritten(newChain, common))
  {
    if |newChain| > 1 {
      TxsOfPath(newChain, newBlock, common.number, 1);
    }
  }

  lemma ReadyForChild(db: Db, head: Header, child: Header)
    requires IsChainOf(db.canon, head) && Indexes(db.txIndex, head) && WellLinked(child) && child.parentHash == HashOf(head)
    ensures ReadyFor(db, child)
  {
    assert Ancestor(child, head.number) == head;
  }
}
