/** Rewinding the chain to a lower head (setHeadBeyondRoot in core/blockchain.go without a
    root, over SetHead in core/headerchain.go), with nothing moved to the ancient store. */
module Rewinds {
  import opened Wrappers
  import opened Chains
  import opened HeaderChains
  import opened BlockChains
  import opened RewindSpecs

  /** Find the block to rewind to: back from `header` to one with state, or genesis. */
  method FindStateful(db: Db, genesis: Header, header: Header, pivot: Option<nat>) returns (block: Header)
    ensures block == StatefulFrom(db, genesis, header, pivot)
  {
    block := header;
    while block.root !in db.states
      invariant StatefulFrom(db, genesis, header, pivot) == StatefulFrom(db, genesis, block, pivot)
      decreases block.number
    {
      if pivot != None && block.number <= pivot.value {
        return genesis;
      }
      var parent := db.GetBlock(block.parentHash, block.number - 1);
      if parent == None {
        return genesis;
      }
      block := parent.value;
    }
  }

  /** The new full-block head, and the states once genesis's has been put back if need be. A
      head found below `header` has state; but when the body of `header` is missing, genesis
      is made the head without looking for its state. */
  method NewBlockHead(db: Db, genesis: Header, header: Header, pivot: Option<nat>) returns (head: Header, states: set<nat>)
    requires ParentClosed(db.headers, genesis) && HashOf(header) in db.headers && BlockPresent(db, HashOf(genesis))
    ensures head == NewHead(db, genesis, header, pivot) && states == NewStates(db, genesis, header, pivot)
    ensures head.root in states <==> BlockPresent(db, HashOf(header)) || genesis.root in db.states
  {
    hide ParentClosed, StatefulFrom;
    FiledAt(db.headers, genesis, HashOf(header));
    states := db.states;
    var block := db.GetBlock(HashOf(header), header.number);
    if block == None {
      return genesis, states;
    }
    head := FindStateful(db, genesis, block.value, pivot);
    SearchFinds(db, genesis, header, pivot);
    if head.number == 0 {
      if genesis.root !in states {
        states := states + {genesis.root};
      } else {
        assert states + {genesis.root} == states;
      }
    }
  }

  /** A search ends at a stored block with state, or at genesis; only genesis has number 0. */
  lemma {:induction false} SearchFinds(db: Db, genesis: Header, block: Header, pivot: Option<nat>)
    requires ParentClosed(db.headers, genesis) && BlockPresent(db, HashOf(block)) && BlockPresent(db, HashOf(genesis))
    ensures var found := StatefulFrom(db, genesis, block, pivot);
            && BlockPresent(db, HashOf(found)) && (found.root in db.states || found == genesis)
            && (found.number == 0 <==> found == genesis)
    decreases block.number
  {
    hide ParentClosed;
    FiledAt(db.headers, genesis, HashOf(block));
    GenesisFirst(db.headers, genesis);
    match db.GetBlock(block.parentHash, block.number - 1) {
      case None =>
      case Some(parent) =>
        FiledAt(db.headers, genesis, block.parentHash);
        SearchFinds(db, genesis, parent, pivot);
    }
  }

  lemma GenesisFirst(headers: map<Hash, Header>, genesis: Header)
    requires ParentClosed(headers, genesis)
    ensures genesis.number == 0 && WellLinked(genesis)
  {
    FiledAt(headers, genesis, HashOf(genesis));
    AncestorStored(headers, genesis, genesis, 0);
  }

  /** Rewinding to a header whose body is missing makes genesis the head, and that is written
      although the state of genesis is gone. */
  method GapForgetsState() returns (bc: BlockChain, ghost before: Rewind)
    ensures before.Valid() && Consistent(before.base, before.genesis, before.start) && MarkersPresent(before.base)
    ensures before.block0 == before.start && before.start.number == 2 && before.Stateful(2)
    ensures bc.hc.Valid() && bc.hc.current == before.At(1) && bc.hc.db == before.Final(1)
    ensures bc.currentBlock == before.genesis && bc.currentBlock.root !in bc.hc.db.states
  {
    hide *;
    var g := Header(NoHash, 0, 1, 7, [], 0);
    var h1 := Header(HashOf(g), 1, 1, 8, [], 0);
    var h2 := Header(HashOf(h1), 2, 1, 9, [], 0);
    AreGapped(g, h1, h2);
    GappedOpens(g, h1, h2);
    var hc := new HeaderChain(GappedStore(g, h1, h2));
    bc := new BlockChain(hc);
    var ok := bc.LoadLastState();
    GappedLoaded(g, h1, h2, bc);
    ghost var trace;
    before, trace := SetHead(bc, 1, None);
    RewindableValid(bc);
    HeadsThere(bc, before, 1);
  }

  /** Genesis, a header without its body, and a block with state on top; the state of genesis
      is gone. */
  function GappedStore(g: Header, h1: Header, h2: Header): Db {
    Db(map[0 := HashOf(g), 1 := HashOf(h1), 2 := HashOf(h2)], map[HashOf(g) := g, HashOf(h1) := h1, HashOf(h2) := h2],
       {HashOf(g), HashOf(h2)}, map[HashOf(g) := 1, HashOf(h1) := 2, HashOf(h2) := 3],
       HashOf(h2), HashOf(h2), HashOf(h2), map[], {9})
  }

  ghost predicate Gapped(g: Header, h1: Header, h2: Header) {
    && g.parentHash == NoHash && h1.parentHash == HashOf(g) && h2.parentHash == HashOf(h1)
    && g.number == 0 && h1.number == 1 && h2.number == 2
    && g.difficulty == h1.difficulty == h2.difficulty == 1 && g.root == 7 && h2.root == 9
  }

  lemma AreGapped(g: Header, h1: Header, h2: Header)
    requires g == Header(NoHash, 0, 1, 7, [], 0) && h1 == Header(HashOf(g), 1, 1, 8, [], 0) && h2 == Header(HashOf(h1), 2, 1, 9, [], 0)
    ensures Gapped(g, h1, h2)
  {
  }

  lemma GappedOpens(g: Header, h1: Header, h2: Header)
    requires Gapped(g, h1, h2)
    ensures var db := GappedStore(g, h1, h2);
            && db.GetHeader(db.CanonicalHash(0), 0) == Some(g) && Consistent(db, g, h2) && BodiesFiled(db, g)
            && MarkersPresent(db) && BlockPresent(db, HashOf(h2)) && !BlockPresent(db, HashOf(h1))
            && db.headBlock == db.headFast == db.headHeader == HashOf(h2)
    ensures WellLinked(h2) && Ancestor(h2, 1) == h1 && Ancestor(h2, 2) == h2
  {
    hide Consistent, MarkersPresent, IsChainOf, ParentClosed, TdsExact, TotalDifficulty;
    var db := GappedStore(g, h1, h2);
    GappedLinks(g, h1, h2);
    GappedFiled(g, h1, h2);
    GappedTds(g, h1, h2);
    GappedConsistent(db, g, h2);
    NamedHeadsPresent(db, db, g, h2, h2, h2);
  }

  lemma GappedConsistent(db: Db, g: Header, h2: Header)
    requires ParentClosed(db.headers, g) && TdsExact(db.tds, db.headers) && HashOf(h2) in db.headers && IsChainOf(db.canon, h2)
    requires BodiesFiled(db, g)
    ensures Consistent(db, g, h2) && Filed(db, g)
  {
  }

  lemma GappedLinks(g: Header, h1: Header, h2: Header)
    requires Gapped(g, h1, h2)
    ensures WellLinked(g) && WellLinked(h1) && WellLinked(h2)
    ensures Ancestor(h2, 0) == g && Ancestor(h2, 1) == h1 && Ancestor(h2, 2) == h2
  {
    assert WellLinked(g);
    assert WellLinked(h1);
    assert WellLinked(h2);
    assert Ancestor(h2, 2) == h2;
    assert Ancestor(h2, 1) == Ancestor(h1, 1) == h1;
    assert Ancestor(h2, 0) == Ancestor(h1, 0) == Ancestor(g, 0) == g;
  }

  lemma GappedFiled(g: Header, h1: Header, h2: Header)
    requires Gapped(g, h1, h2)
    ensures var db := GappedStore(g, h1, h2);
            IsChainOf(db.canon, h2) && ParentClosed(db.headers, g)
  {
    hide WellLinked, Ancestor;
    GappedLinks(g, h1, h2);
  }

  lemma GappedTds(g: Header, h1: Header, h2: Header)
    requires Gapped(g, h1, h2)
    ensures var db := GappedStore(g, h1, h2);
            TdsExact(db.tds, db.headers)
  {
    assert TotalDifficulty(g) == 1;
    assert TotalDifficulty(h1) == 2;
    assert TotalDifficulty(h2) == 3;
  }

  lemma GappedLoaded(g: Header, h1: Header, h2: Header, bc: BlockChain)
    requires Gapped(g, h1, h2) && bc.hc.db == GappedStore(g, h1, h2) && bc.hc.genesis == g
    requires bc.hc.current == h2 && bc.hc.currentHash == HashOf(h2) && HeadsLoaded(bc.hc.db, h2, bc.currentBlock, bc.currentFastBlock)
    ensures Rewindable(bc)
    ensures var r := RewindOf(bc, None);
            && r.Valid() && Consistent(r.base, r.genesis, r.start) && MarkersPresent(r.base) && r.block0 == r.start == h2
            && r.start.number == 2 && r.Stateful(2) && r.Forgotten(1) && r.Top() == 1 && r.Target(1) == 1
  {
    hide Rewind.Forgotten, Consistent, MarkersPresent, IsChainOf, ParentClosed, TdsExact, WellLinked, Ancestor;
    GappedOpens(g, h1, h2);
    RewindStarts(bc, None);
    GapAtTop(RewindOf(bc, None), 1);
  }

  lemma HeadsThere(bc: BlockChain, r: Rewind, n: nat)
    requires r.Valid() && n <= r.start.number && HeadsAt(bc, r, n)
    ensures bc.hc.current == r.At(n)
  {
  }

  lemma RewindableValid(bc: BlockChain)
    requires Rewindable(bc)
    ensures bc.hc.Valid()
  {
  }

  /** A missing body at the first header come to. */
  lemma GapAtTop(r: Rewind, n: nat)
    requires r.Valid() && 0 < n == r.Top() && n < r.start.number && !r.Present(n) && r.genesis.root !in r.base.states
    ensures r.Forgotten(n)
  {
    hide Rewind.Valid, Rewind.Present;
    PassableBelow(r, n);
    assert r.GapAt(n);
  }

  method NewFastHead(db: Db, genesis: Header, header: Header) returns (head: Header)
    requires ParentClosed(db.headers, genesis) && HashOf(header) in db.headers
    ensures head == if BlockPresent(db, HashOf(header)) then header else genesis
  {
    FiledAt(db.headers, genesis, HashOf(header));
    var block := db.GetBlock(HashOf(header), header.number);
    head := if block == None then genesis else block.value;
  }

  /** Move the block heads down to `header`: the new heads, what to write into the markers, and
      the store with the genesis state put back, which is not left to the batch. */
  method UpdateHeads(db: Db, genesis: Header, header: Header, block0: Header, fast0: Header, pivot: Option<nat>)
      returns (db': Db, block: Header, fast: Header, batch: seq<Write>)
    requires ParentClosed(db.headers, genesis) && HashOf(header) in db.headers && BlockPresent(db, HashOf(genesis))
    requires MarkHeads(db, block0, fast0)
    ensures block == if header.number <= block0.number then NewHead(db, genesis, header, pivot) else block0
    ensures fast == if header.number >= fast0.number then fast0 else if BlockPresent(db, HashOf(header)) then header else genesis
    ensures db' == db.(states := if header.number <= block0.number then NewStates(db, genesis, header, pivot) else db.states)
    ensures Flush(db', batch) == db'.(headBlock := HashOf(block), headFast := HashOf(fast))
  {
    hide Flush, ParentClosed, NewHead, NewStates;
    db', block, fast, batch := db, block0, fast0, [];
    FlushNothing(db);
    if header.number <= block0.number {
      var states;
      block, states := NewBlockHead(db, genesis, header, pivot);
      db' := db.(states := states);
      FlushNothing(db');
      FlushOneMore(db', [], PutHeadBlock(HashOf(block)));
      batch := [] + [PutHeadBlock(HashOf(block))];
    }
    if header.number < fast0.number {
      fast := NewFastHead(db, genesis, header);
      FlushOneMore(db', batch, PutHeadFast(HashOf(fast)));
      batch := batch + [PutHeadFast(HashOf(fast))];
    }
  }

  /** All hashes stored at a number, of side chains too. */
  function AllHashes(headers: map<Hash, Header>, n: nat): set<Hash> {
    set hash | hash in headers && headers[hash].number == n
  }

  /** The store without the data of `hashes`. */
  function Without(db: Db, hashes: set<Hash>): Db {
    db.(headers := db.headers - hashes, tds := db.tds - hashes, bodies := db.bodies - hashes)
  }

  lemma PurgeOneMore(db: Db, genesis: Header, n: nat)
    requires Filed(db, genesis)
    ensures var less := Without(Purged(db, n + 1), AllHashes(db.headers, n));
            less.(canon := less.canon - {n}) == Purged(db, n)
  {
    hide Filed, AllHashes, Lower, IsBelow;
    var hashes := AllHashes(db.headers, n);
    HashesAt(db, genesis, n);
    LowerOneMore(db.headers, hashes, n);
    LowerOneMore(db.tds, hashes, n);
    assert Purged(db, n + 1).bodies - hashes == Purged(db, n).bodies;
    assert Purged(db, n + 1).canon - {n} == Purged(db, n).canon;
  }

  /** The hashes at a number are those of all that is stored at it. */
  lemma HashesAt(db: Db, genesis: Header, n: nat)
    requires Filed(db, genesis)
    ensures var hashes := AllHashes(db.headers, n);
            && (forall hash :: hash in db.headers ==> (hash in hashes <==> !IsBelow(hash, n) && IsBelow(hash, n + 1)))
            && (forall hash :: IsBelow(hash, n) ==> IsBelow(hash, n + 1))
    ensures db.tds.Keys == db.headers.Keys && db.bodies <= db.headers.Keys
  {
  }

  lemma LowerOneMore<V>(m: map<Hash, V>, hashes: set<Hash>, n: nat)
    requires forall hash :: hash in m ==> (hash in hashes <==> !IsBelow(hash, n) && IsBelow(hash, n + 1))
    requires forall hash :: IsBelow(hash, n) ==> IsBelow(hash, n + 1)
    ensures Lower(m, n + 1) - hashes == Lower(m, n)
  {
  }

  /** A batch of deletions only. */
  ghost predicate OnlyDeletes(batch: seq<Write>) {
    forall i :: 0 <= i < |batch| ==>
      batch[i].DeleteCanonical? || batch[i].DeleteHeader? || batch[i].DeleteTd? || batch[i].DeleteBody?
  }

  /** Deletions do to a store the same whatever its markers and states are. */
  lemma {:induction false} DeletesAlike(db: Db, base: Db, batch: seq<Write>)
    requires OnlyDeletes(batch) && SameButHeads(base, db)
    ensures Flush(db, batch) == WithHeads(Flush(base, batch), db)
  {
    if batch != [] {
      DeletesAlike(db, base, batch[..|batch| - 1]);
    }
  }

  /** Put into a batch the deletion of all that is stored at a number. */
  method DeleteAt(db: Db, n: nat, own: Hash, batch: seq<Write>, ghost base: Db) returns (batch': seq<Write>)
    requires OnlyDeletes(batch)
    ensures OnlyDeletes(batch')
    ensures var hashes := AllHashes(db.headers, n);
            var less := Without(Flush(base, batch), if hashes == {} then {own} else hashes);
            Flush(base, batch') == less.(canon := less.canon - {n})
  {
    hide *;
    var hashes := AllHashes(db.headers, n);
    if hashes == {} {
      hashes := {own};
    }
    batch' := DeleteHashes(batch, hashes, base);
    FlushOneMore(base, batch', DeleteCanonical(n));
    OneMoreDelete(batch', DeleteCanonical(n));
    batch' := batch' + [DeleteCanonical(n)];
    DeletedAt(Flush(base, batch), hashes, n);
  }

  lemma OneMoreDelete(batch: seq<Write>, w: Write)
    requires OnlyDeletes(batch) && w.DeleteCanonical?
    ensures OnlyDeletes(batch + [w])
  {
  }

  lemma DeletedAt(db: Db, hashes: set<Hash>, n: nat)
    ensures Apply(Without(db, hashes), DeleteCanonical(n)) == Without(db, hashes).(canon := Without(db, hashes).canon - {n})
  {
  }

  method DeleteHashes(batch: seq<Write>, hashes: set<Hash>, ghost base: Db) returns (batch': seq<Write>)
    requires OnlyDeletes(batch)
    ensures OnlyDeletes(batch') && Flush(base, batch') == Without(Flush(base, batch), hashes)
  {
    hide *;
    batch' := batch;
    var rest := hashes;
    WithoutNone(Flush(base, batch));
    assert hashes - rest == {};
    while rest != {}
      invariant rest <= hashes && OnlyDeletes(batch')
      invariant Flush(base, batch') == Without(Flush(base, batch), hashes - rest)
      decreases |rest|
    {
      var hash :| hash in rest;
      WithoutOneMore(Flush(base, batch), hashes - rest, hash);
      assert hashes - (rest - {hash}) == hashes - rest + {hash};
      batch' := DeleteHash(batch', hash, base);
      rest := rest - {hash};
    }
    assert hashes - rest == hashes;
  }

  lemma WithoutNone(db: Db)
    ensures Without(db, {}) == db
  {
  }

  lemma WithoutOneMore(db: Db, hashes: set<Hash>, hash: Hash)
    ensures Without(Without(db, hashes), {hash}) == Without(db, hashes + {hash})
  {
  }

  function DeleteHash(batch: seq<Write>, hash: Hash, ghost base: Db): (batch': seq<Write>)
    ensures OnlyDeletes(batch) ==> OnlyDeletes(batch')
    ensures Flush(base, batch') == Without(Flush(base, batch), {hash})
  {
    FlushOneMore(base, batch, DeleteBody(hash));
    FlushOneMore(base, batch + [DeleteBody(hash)], DeleteHeader(hash));
    FlushOneMore(base, batch + [DeleteBody(hash)] + [DeleteHeader(hash)], DeleteTd(hash));
    batch + [DeleteBody(hash)] + [DeleteHeader(hash)] + [DeleteTd(hash)]
  }

  ghost function AtLeast(headers: map<Hash, Header>, n: nat): set<Hash> {
    set hash | hash in headers && headers[hash].number >= n
  }

  lemma StoredAtEvery(headers: map<Hash, Header>, genesis: Header, hash: Hash, n: nat)
    requires ParentClosed(headers, genesis) && hash in headers && n <= headers[hash].number
    ensures AllHashes(headers, n) != {}
  {
    assert InPlace(headers, genesis, hash);
    AncestorStored(headers, genesis, headers[hash], n);
    var ancestor := HashOf(Ancestor(headers[hash], n));
    assert InPlace(headers, genesis, ancestor);
    assert ancestor in AllHashes(headers, n);
  }

  /** Stored numbers have no gaps: above a number nobody has, there is nothing. */
  lemma NothingPastGap(headers: map<Hash, Header>, genesis: Header, n: nat)
    requires ParentClosed(headers, genesis) && AllHashes(headers, n) == {}
    ensures forall hash :: hash in headers ==> IsBelow(hash, n)
  {
    forall hash | hash in headers
      ensures IsBelow(hash, n)
    {
      assert InPlace(headers, genesis, hash);
      if headers[hash].number >= n {
        StoredAtEvery(headers, genesis, hash, n);
      }
    }
  }

  /** Numbers above `num` that still have data, highest first. */
  method Leftovers(db: Db, num: nat) returns (nums: seq<nat>, ghost top: nat)
    ensures Descending(db.headers, nums, top) && |nums| == top - num - 1 && AllHashes(db.headers, top) == {}
  {
    nums := [];
    var n := num + 1;
    while AllHashes(db.headers, n) != {}
      invariant n > num && Descending(db.headers, nums, n) && |nums| == n - num - 1
      decreases |AtLeast(db.headers, n)|
    {
      nums := [n] + nums;
      Shrinks(db.headers, n);
      n := n + 1;
    }
    top := n;
  }

  lemma Shrinks(headers: map<Hash, Header>, n: nat)
    requires AllHashes(headers, n) != {}
    ensures |AtLeast(headers, n + 1)| < |AtLeast(headers, n)|
  {
    var hash :| hash in AllHashes(headers, n);
    assert hash in AtLeast(headers, n) && hash !in AtLeast(headers, n + 1);
    assert AtLeast(headers, n + 1) < AtLeast(headers, n);
    SmallerSet(AtLeast(headers, n + 1), AtLeast(headers, n));
  }

  lemma SmallerSet(a: set<Hash>, b: set<Hash>)
    requires a < b
    ensures |a| < |b|
  {
    assert b == a + (b - a);
  }

  /** `nums` counts down from just below `top`, and there is data at each. */
  ghost predicate Descending(headers: map<Hash, Header>, nums: seq<nat>, top: nat) {
    && |nums| <= top
    && forall i :: 0 <= i < |nums| ==> nums[i] == top - 1 - i && AllHashes(headers, nums[i]) != {}
  }

  method DeleteNumbers(db: Db, nums: seq<nat>, own: Hash, batch: seq<Write>, ghost base: Db, ghost genesis: Header,
                       ghost top: nat)
      returns (batch': seq<Write>)
    requires Filed(base, genesis) && db.headers == base.headers && Descending(db.headers, nums, top)
    requires OnlyDeletes(batch) && Flush(base, batch) == Purged(base, top)
    ensures OnlyDeletes(batch') && |nums| <= top && Flush(base, batch') == Purged(base, top - |nums|)
  {
    hide Filed, AllHashes, OnlyDeletes, Flush, Purged, Without;
    batch' := batch;
    for i := 0 to |nums|
      invariant OnlyDeletes(batch') && Flush(base, batch') == Purged(base, top - i)
    {
      PurgeOneMore(base, genesis, nums[i]);
      batch' := DeleteAt(db, nums[i], own, batch', base);
    }
  }

  /** The rewind that starts from here. */
  ghost function RewindOf(bc: BlockChain, pivot: Option<nat>): Rewind
    reads bc, bc.hc
  {
    Rewind(bc.hc.db, bc.hc.genesis, bc.hc.current, bc.currentBlock, bc.currentFastBlock, pivot)
  }

  /** The chain is fit to be rewound: it is consistent, and its block heads are present and no
      higher than its header head. */
  ghost predicate Rewindable(bc: BlockChain)
    reads bc, bc.hc
  {
    && bc.hc.Valid() && BodiesFiled(bc.hc.db, bc.hc.genesis)
    && MarkHeads(bc.hc.db, bc.currentBlock, bc.currentFastBlock)
    && HeadsBelow(bc.hc.db, bc.hc.current, bc.currentBlock, bc.currentFastBlock)
  }

  /** The rewind has come down to `n`: heads and markers are there, and nothing is deleted yet. */
  ghost predicate Reached(bc: BlockChain, r: Rewind, n: nat)
    reads bc, bc.hc
  {
    && r.Valid() && n <= r.start.number && bc.hc.genesis == r.genesis
    && bc.hc.db == r.MarkedAt(n) && HeadsAt(bc, r, n)
  }

  ghost predicate HeadsAt(bc: BlockChain, r: Rewind, n: nat)
    requires r.Valid() && n <= r.start.number
    reads bc, bc.hc
  {
    && bc.hc.current == r.At(n) && bc.hc.currentHash == HashOf(r.At(n))
    && bc.currentBlock == r.BlockAt(n) && bc.currentFastBlock == r.FastAt(n)
  }

  /** Move all heads down to the parent of the current header. */
  method LowerHeads(bc: BlockChain, pivot: Option<nat>, ghost r: Rewind, ghost n: nat, ghost trace: seq<Db>)
      returns (ghost trace': seq<Db>)
    requires Reached(bc, r, n + 1) && pivot == r.pivot
    modifies bc`currentBlock, bc`currentFastBlock, bc.hc`db, bc.hc`current, bc.hc`currentHash
    ensures Reached(bc, r, n)
    ensures trace' == trace + [r.MarkedAt(n + 1).(states := r.StatesAt(n))] + [r.MarkedAt(n)]
  {
    hide *;
    var hdr := bc.hc.current;
    var parent := bc.hc.db.GetHeader(hdr.parentHash, hdr.number - 1);
    var header := if parent == None then bc.hc.genesis else parent.value;
    ParentFound(bc, r, n);
    ghost var marked := bc.hc.db;
    var db', block, fast, markers := UpdateHeads(bc.hc.db, bc.hc.genesis, header, bc.currentBlock, bc.currentFastBlock, pivot);
    bc.hc.db := db';
    trace' := trace + [bc.hc.db];
    FlushOneMore(db', markers, PutHeadHeader(HashOf(header)));
    Lowered(r, n, marked, db', Flush(db', markers), header, block, fast);
    bc.hc.db := Flush(db', markers + [PutHeadHeader(HashOf(header))]);
    trace' := trace' + [bc.hc.db];
    bc.currentBlock, bc.currentFastBlock := block, fast;
    bc.hc.current, bc.hc.currentHash := header, HashOf(header);
    IsReached(bc, r, n);
  }

  /** Where the heads are, the parent is read, and the heads can be moved. */
  lemma ParentFound(bc: BlockChain, r: Rewind, n: nat)
    requires Reached(bc, r, n + 1)
    ensures r.Valid() && n < r.start.number && bc.hc.genesis == r.genesis
    ensures bc.hc.db == r.MarkedAt(n + 1) && bc.currentBlock == r.BlockAt(n + 1) && bc.currentFastBlock == r.FastAt(n + 1)
    ensures bc.hc.db.GetHeader(bc.hc.current.parentHash, bc.hc.current.number - 1) == Some(r.At(n))
    ensures ParentClosed(bc.hc.db.headers, r.genesis) && HashOf(r.At(n)) in bc.hc.db.headers
    ensures BlockPresent(bc.hc.db, HashOf(r.genesis)) && MarkHeads(bc.hc.db, bc.currentBlock, bc.currentFastBlock)
  {
    hide Rewind.Valid, Rewind.At, Rewind.BlockAt, Rewind.FastAt, Rewind.StatesAt;
    AtStored(r, n);
    AtStored(r, n + 1);
    ValidFacts(r);
  }

  /** Moving the heads gives what is to be at `n`. */
  lemma Lowered(r: Rewind, n: nat, marked: Db, db: Db, flushed: Db, header: Header, block: Header, fast: Header)
    requires r.Valid() && n < r.start.number && marked == r.MarkedAt(n + 1) && header == r.At(n)
    requires var block0, fast0 := r.BlockAt(n + 1), r.FastAt(n + 1);
             && block == (if header.number <= block0.number then NewHead(marked, r.genesis, header, r.pivot) else block0)
             && fast == (if header.number >= fast0.number then fast0
                         else if BlockPresent(marked, HashOf(header)) then header else r.genesis)
             && db == marked.(states := if header.number <= block0.number then NewStates(marked, r.genesis, header, r.pivot)
                                        else marked.states)
    requires flushed == db.(headBlock := HashOf(block), headFast := HashOf(fast))
    ensures db == r.MarkedAt(n + 1).(states := r.StatesAt(n))
    ensures Apply(flushed, PutHeadHeader(HashOf(header))) == r.MarkedAt(n)
    ensures block == r.BlockAt(n) && fast == r.FastAt(n)
  {
    hide Rewind.Valid, Rewind.At, Rewind.BlockAt, Rewind.FastAt, Rewind.StatesAt, NewHead, NewStates;
    StepDown(r, n);
    assert r.At(n).number == n;
    assert r.Present(n) <==> BlockPresent(marked, HashOf(header));
  }

  /** Rewind to height `head`. The deletions wait in one batch until the end, while the markers
      are written at every step; each single write leaves them naming present data. In the end
      all that was stored above the target is gone, side chains included, and what is left is a
      consistent chain again. The full-block head has state, except where it is genesis because
      of a missing body. */
  method SetHead(bc: BlockChain, head: nat, pivot: Option<nat>) returns (ghost r: Rewind, ghost trace: seq<Db>)
    requires Rewindable(bc)
    modifies bc`currentBlock, bc`currentFastBlock, bc.hc`db, bc.hc`current, bc.hc`currentHash
    ensures r == old(RewindOf(bc, pivot)) && r.Valid() && Rewindable(bc)
    ensures bc.hc.db == r.Final(head) && HeadsAt(bc, r, r.Target(head))
    ensures r.IsTrace(trace, head) && forall d :: d in trace ==> MarkersPresent(d)
    ensures if head > r.Top() then bc.currentBlock == r.block0 && bc.hc.db.states == r.base.states
            else bc.currentBlock.root !in bc.hc.db.states <==> r.Forgotten(head)
    ensures r.Forgotten(head) ==> bc.currentBlock == r.genesis
    ensures head <= r.Top() && r.NoGap() ==>
              && bc.currentBlock == r.At(bc.currentBlock.number) && r.NoneAbove(bc.currentBlock.number, head)
              && (bc.currentBlock.number == head || bc.currentBlock == r.genesis || pivot == None || pivot.value <= bc.currentBlock.number)
    ensures bc.hc.current.number == if head < old(bc.hc.current).number then head else old(bc.hc.current).number
    ensures OnlyGoneAbove(old(bc.hc.db), bc.hc.db, if head < old(bc.hc.current).number then Some(head) else None)
  {
    hide *;
    r := RewindOf(bc, pivot);
    RewindStarts(bc, pivot);
    trace := [];
    var batch: seq<Write> := [];
    var origin := true;
    ghost var n := r.start.number;
    while bc.hc.current.number > head
      invariant Reached(bc, r, n) && bc.hc.current.number == n && r.Target(head) <= n
      invariant origin <==> n == r.start.number
      invariant OnlyDeletes(batch) && Flush(r.base, batch) == if origin then r.base else Purged(r.base, n + 1)
      invariant StepsTo(r, trace, n)
      decreases bc.hc.current.number
    {
      var own, num := bc.hc.currentHash, bc.hc.current.number;
      Below(r, head, n);
      n := n - 1;
      OneMoreStep(r, trace, n);
      trace := LowerHeads(bc, pivot, r, n, trace);
      ReachedFacts(bc, r, n);
      batch := DeleteDown(bc.hc.db, origin, num, own, batch, r);
      origin := false;
    }
    Below(r, head, n);
    ReachedFacts(bc, r, n);
    RewindEnds(r, head, bc.hc.db, batch);
    TraceEnds(r, trace, n, head);
    bc.hc.db := Flush(bc.hc.db, batch);
    trace := trace + [bc.hc.db];
    var ok := bc.LoadLastState();
    LoadedAgain(r, head, bc.hc.db, bc.hc.current, bc.currentBlock, bc.currentFastBlock);
    AreHeadsAt(bc, r, r.Target(head));
    StillRewindable(bc, r, head);
    StateFound(r, head);
    GoneInTheEnd(r, head);
  }

  /** Exactly what is numbered above `limit` is gone, if there is one: canonical hashes, headers,
      total difficulties and bodies. */
  ghost predicate OnlyGoneAbove(db: Db, db': Db, limit: Option<nat>) {
    && (forall n: nat :: n in db'.canon <==> n in db.canon && (limit == None || n <= limit.value))
    && (forall n: nat :: n in db'.canon ==> db'.canon[n] == db.canon[n])
    && (forall h: Header :: HashOf(h) in db'.headers <==> HashOf(h) in db.headers && (limit == None || h.number <= limit.value))
    && (forall h: Header :: HashOf(h) in db'.tds <==> HashOf(h) in db.tds && (limit == None || h.number <= limit.value))
    && (forall h: Header :: HashOf(h) in db'.headers ==> db'.headers[HashOf(h)] == db.headers[HashOf(h)])
    && (forall h: Header :: HashOf(h) in db'.tds ==> db'.tds[HashOf(h)] == db.tds[HashOf(h)])
    && (forall h: Header :: HashOf(h) in db'.bodies <==> HashOf(h) in db.bodies && (limit == None || h.number <= limit.value))
  }

  lemma GoneInTheEnd(r: Rewind, head: nat)
    requires r.Valid()
    ensures OnlyGoneAbove(r.base, r.Final(head), if head < r.start.number then Some(head) else None)
    ensures r.At(r.Target(head)).number == if head < r.start.number then head else r.start.number
  {
    hide Rewind.Valid, Rewind.At, Rewind.MarkedAt;
    PurgedIs(r.base, head + 1);
    assert r.At(r.Target(head)).number == r.Target(head);
  }

  lemma PurgedIs(db: Db, n: nat)
    requires n > 0
    ensures OnlyGoneAbove(db, Purged(db, n), Some(n - 1))
  {
  }

  lemma IsReached(bc: BlockChain, r: Rewind, n: nat)
    requires r.Valid() && n <= r.start.number && bc.hc.genesis == r.genesis && bc.hc.db == r.MarkedAt(n)
    requires bc.hc.current == r.At(n) && bc.hc.currentHash == HashOf(r.At(n))
    requires bc.currentBlock == r.BlockAt(n) && bc.currentFastBlock == r.FastAt(n)
    ensures Reached(bc, r, n)
  {
  }

  lemma AreHeadsAt(bc: BlockChain, r: Rewind, n: nat)
    requires r.Valid() && n <= r.start.number
    requires bc.hc.current == r.At(n) && bc.hc.currentHash == HashOf(r.At(n))
    requires bc.currentBlock == r.BlockAt(n) && bc.currentFastBlock == r.FastAt(n)
    ensures HeadsAt(bc, r, n)
  {
  }

  lemma ReachedFacts(bc: BlockChain, r: Rewind, n: nat)
    requires Reached(bc, r, n)
    ensures r.Valid() && n <= r.start.number && bc.hc.db == r.MarkedAt(n) && SameButHeads(r.base, bc.hc.db)
    ensures bc.hc.current.number == n && HeadsAt(bc, r, n)
  {
    hide Rewind.Valid;
  }

  /** The first trace entries are the stores after the writes on the way down to `n`. */
  ghost predicate StepsTo(r: Rewind, trace: seq<Db>, n: nat) {
    && r.Valid() && n <= r.start.number && |trace| == 2 * (r.start.number - n)
    && forall i: nat :: i < |trace| ==> trace[i] == r.Written(i)
  }

  lemma OneMoreStep(r: Rewind, trace: seq<Db>, n: nat)
    requires StepsTo(r, trace, n + 1)
    ensures StepsTo(r, trace + [r.MarkedAt(n + 1).(states := r.StatesAt(n))] + [r.MarkedAt(n)], n)
  {
    hide Rewind.Valid, Rewind.MarkedAt;
    assert r.Written(|trace|) == r.MarkedAt(n + 1).(states := r.StatesAt(n));
    assert r.Written(|trace| + 1) == r.MarkedAt(n);
  }

  lemma TraceEnds(r: Rewind, trace: seq<Db>, n: nat, head: nat)
    requires StepsTo(r, trace, n) && n == r.Target(head)
    ensures r.IsTrace(trace + [r.Final(head)], head)
    ensures forall d :: d in trace + [r.Final(head)] ==> MarkersPresent(d)
  {
    hide Rewind.Valid, Rewind.Written, Rewind.Final, MarkersPresent;
    forall i: nat | i < |trace|
      ensures MarkersPresent(trace[i])
    {
      MarkersStayPresent(r, i);
    }
    FinalConsistent(r, head);
  }

  lemma Below(r: Rewind, head: nat, n: nat)
    requires n <= r.start.number && r.Target(head) <= n
    ensures head < n ==> r.Target(head) < n
    ensures n <= head ==> r.Target(head) == n && (if head < r.start.number then n == head else n == r.start.number)
  {
  }

  lemma RewindStarts(bc: BlockChain, pivot: Option<nat>)
    requires Rewindable(bc)
    ensures var r := RewindOf(bc, pivot);
            && r.Valid() && r.base == bc.hc.db && r.pivot == pivot && r.genesis == bc.hc.genesis
            && Reached(bc, r, r.start.number) && bc.hc.current.number == r.start.number
            && OnlyDeletes([]) && Flush(r.base, []) == r.base && StepsTo(r, [], r.start.number)
            && forall head :: r.Target(head) <= r.start.number
  {
    hide ParentClosed, IsChainOf, TdsExact, WellLinked;
    var r := RewindOf(bc, pivot);
    StartLinked(r.base.canon, r.start);
    AtStored(r, r.start.number);
  }

  lemma StartLinked(canon: map<nat, Hash>, start: Header)
    requires IsChainOf(canon, start)
    ensures WellLinked(start)
  {
  }

  /** Loading the heads anew from the markers changes none. */
  lemma LoadedAgain(r: Rewind, head: nat, db: Db, header: Header, block: Header, fast: Header)
    requires r.Valid() && db == r.Final(head)
    ensures BlockPresent(db, db.headBlock) && db.headBlock != NoHash
    ensures HeadsLoaded(db, header, block, fast) ==>
              header == r.At(r.Target(head)) && block == r.BlockAt(r.Target(head)) && fast == r.FastAt(r.Target(head))
  {
    hide Rewind.Valid, Rewind.At, Rewind.BlockAt, Rewind.FastAt, Rewind.StatesAt, ParentClosed, Filed;
    FinalConsistent(r, head);
    var n := r.Target(head);
    FiledAt(db.headers, r.genesis, HashOf(r.BlockAt(n)));
    FiledAt(db.headers, r.genesis, HashOf(r.FastAt(n)));
    FiledAt(db.headers, r.genesis, HashOf(r.At(n)));
  }

  lemma StillRewindable(bc: BlockChain, r: Rewind, head: nat)
    requires r.Valid() && bc.hc.genesis == r.genesis && bc.hc.db == r.Final(head) && HeadsAt(bc, r, r.Target(head))
    ensures Rewindable(bc)
  {
    hide Rewind.Valid, Rewind.At, Rewind.BlockAt, Rewind.FastAt, Rewind.StatesAt, Consistent;
    FinalConsistent(r, head);
  }

  lemma StateFound(r: Rewind, head: nat)
    requires r.Valid()
    ensures r.Final(head).states == r.StatesAt(r.Target(head))
    ensures if head > r.Top() then r.BlockAt(r.Target(head)) == r.block0 && r.StatesAt(r.Target(head)) == r.base.states
            else r.BlockAt(r.Target(head)).root !in r.StatesAt(r.Target(head)) <==> r.Forgotten(head)
    ensures r.Forgotten(head) ==> r.BlockAt(r.Target(head)) == r.genesis
    ensures head <= r.Top() && r.NoGap() ==>
              var block := r.BlockAt(r.Target(head));
              && block.number <= head == r.Target(head) && block == r.At(block.number) && r.NoneAbove(block.number, head)
              && (block.number == head || block == r.genesis || r.pivot == None || r.pivot.value <= block.number)
  {
    hide *;
    FinalStates(r, head);
    if head <= r.Top() {
      StateIffNotForgotten(r, head);
      if r.NoGap() {
        HighestWithState(r, head);
      }
    } else {
      AboveTop(r, head);
    }
  }

  lemma FinalStates(r: Rewind, head: nat)
    requires r.Valid()
    ensures r.Target(head) <= r.start.number && r.Final(head).states == r.StatesAt(r.Target(head))
    ensures head <= r.Top() ==> head == r.Target(head)
  {
    hide Rewind.Valid, Rewind.At, Rewind.BlockAt, Rewind.StatesAt, Rewind.FastAt;
  }

  lemma AboveTop(r: Rewind, head: nat)
    requires r.Valid() && head > r.Top()
    ensures r.BlockAt(r.Target(head)) == r.block0 && r.StatesAt(r.Target(head)) == r.base.states
    ensures !r.Forgotten(head)
  {
    hide Rewind.Valid, Rewind.GapAt, Rewind.Passable;
  }

  /** Put into the batch the deletion of the old head's number, and the first time of all
      that is left over above it. */
  method DeleteDown(db: Db, origin: bool, num: nat, own: Hash, batch: seq<Write>, ghost r: Rewind)
      returns (batch': seq<Write>)
    requires r.Valid() && SameButHeads(r.base, db) && num <= r.start.number
    requires OnlyDeletes(batch) && Flush(r.base, batch) == if origin then r.base else Purged(r.base, num + 1)
    requires origin ==> num == r.start.number
    ensures OnlyDeletes(batch') && Flush(r.base, batch') == Purged(r.base, num)
  {
    hide *;
    var nums: seq<nat> := [];
    ghost var top := num + 1;
    if origin {
      nums, top := Leftovers(db, num);
      NothingAboveTop(db, r, top);
    }
    NumbersDown(db, r, nums, num, top);
    batch' := DeleteNumbers(db, nums + [num], own, batch, r.base, r.genesis, top);
  }

  lemma NumbersDown(db: Db, r: Rewind, nums: seq<nat>, num: nat, top: nat)
    requires r.Valid() && SameButHeads(r.base, db) && num <= r.start.number
    requires (nums == [] && top == num + 1) || (Descending(db.headers, nums, top) && |nums| == top - num - 1)
    ensures Filed(r.base, r.genesis) && db.headers == r.base.headers
    ensures Descending(db.headers, nums + [num], top) && top - |nums + [num]| == num
  {
    hide Rewind.Valid, Filed, AllHashes;
    ValidFacts(r);
    FiledAt(r.base.headers, r.genesis, HashOf(r.start));
    StoredAtEvery(r.base.headers, r.genesis, HashOf(r.start), num);
  }

  lemma NothingAboveTop(db: Db, r: Rewind, top: nat)
    requires r.Valid() && SameButHeads(r.base, db) && AllHashes(db.headers, top) == {} && r.start.number < top
    ensures Purged(r.base, top) == r.base
  {
    NothingPastGap(r.base.headers, r.genesis, top);
    NothingToPurge(r.base, r.genesis, r.start, top);
  }

  lemma NothingToPurge(base: Db, genesis: Header, start: Header, top: nat)
    requires Filed(base, genesis) && IsChainOf(base.canon, start) && start.number < top
    requires forall hash :: hash in base.headers ==> IsBelow(hash, top)
    ensures Purged(base, top) == base
  {
  }

  /** Below any height a filed store is filed, and the canonical map is cut to its chain. */
  lemma PurgedFiled(base: Db, genesis: Header, start: Header, current: Header)
    requires Filed(base, genesis) && IsChainOf(base.canon, start) && HashOf(current) in base.headers
    requires current.number <= start.number && current == Ancestor(start, current.number)
    ensures var less := Purged(base, current.number + 1);
            Filed(less, genesis) && IsChainOf(less.canon, current) && HashOf(current) in less.headers
  {
    hide ParentClosed, TdsExact, IsChainOf, Lower, WellLinked, Ancestor;
    LowerClosed(base.headers, genesis, current.number + 1);
    LowerTds(base.tds, base.headers, current.number + 1);
    CanonBelow(base.canon, start, current);
    LowerHas(base.headers, current.number + 1, HashOf(current));
    OnlyOneGenesis(base.headers, genesis);
    LowerKeys(base.headers, current.number + 1);
  }

  lemma OnlyOneGenesis(headers: map<Hash, Header>, genesis: Header)
    requires ParentClosed(headers, genesis)
    ensures genesis.number == 0
  {
    assert InPlace(headers, genesis, HashOf(genesis));
    AncestorStored(headers, genesis, genesis, 0);
  }

  lemma LowerHas(headers: map<Hash, Header>, n: nat, hash: Hash)
    requires hash in headers && IsBelow(hash, n)
    ensures hash in Lower(headers, n)
  {
  }

  lemma LowerKeys(headers: map<Hash, Header>, n: nat)
    ensures forall hash :: hash in headers && IsBelow(hash, n) ==> hash in Lower(headers, n)
  {
  }

  lemma LowerClosed(headers: map<Hash, Header>, genesis: Header, n: nat)
    requires ParentClosed(headers, genesis) && n > 0
    ensures ParentClosed(Lower(headers, n), genesis)
  {
    OnlyOneGenesis(headers, genesis);
    var lower := Lower(headers, n);
    forall hash | hash in lower
      ensures InPlace(lower, genesis, hash)
    {
      assert InPlace(headers, genesis, hash);
      if headers[hash].number > 0 {
        assert InPlace(headers, genesis, headers[hash].parentHash);
      }
    }
  }

  lemma LowerTds(tds: map<Hash, int>, headers: map<Hash, Header>, n: nat)
    requires TdsExact(tds, headers)
    ensures TdsExact(Lower(tds, n), Lower(headers, n))
  {
  }

  lemma CanonBelow(canon: map<nat, Hash>, start: Header, current: Header)
    requires IsChainOf(canon, start) && current.number <= start.number && current == Ancestor(start, current.number)
    ensures IsChainOf(map k | k in canon && k < current.number + 1 :: canon[k], current)
  {
    forall n: nat | n <= current.number
      ensures Ancestor(current, n) == Ancestor(start, n)
    {
      AncestorOfAncestor(start, current.number, n);
    }
  }

  /** Once the deletions are written, though the markers changed since they were collected, what
      is left is the chain of the new head. */
  lemma RewindEnds(r: Rewind, head: nat, db: Db, batch: seq<Write>)
    requires r.Valid() && db == r.MarkedAt(r.Target(head)) && OnlyDeletes(batch)
    requires Flush(r.base, batch) == if head < r.start.number then Purged(r.base, head + 1) else r.base
    ensures Flush(db, batch) == r.Final(head)
    ensures var after, current := r.Final(head), r.At(r.Target(head));
            && Consistent(after, r.genesis, current) && BodiesFiled(after, r.genesis) && MarkersPresent(after)
            && after.headers == (if head < r.start.number then Lower(r.base.headers, head + 1) else r.base.headers)
  {
    hide Rewind.Valid, Rewind.At, Rewind.BlockAt, Rewind.FastAt, Rewind.StatesAt, Flush, Consistent, BodiesFiled, MarkersPresent;
    DeletesAlike(db, r.base, batch);
    FinalConsistent(r, head);
  }

  lemma FinalConsistent(r: Rewind, head: nat)
    requires r.Valid()
    ensures var after, n := r.Final(head), r.Target(head);
            && Consistent(after, r.genesis, r.At(n)) && BodiesFiled(after, r.genesis) && MarkersPresent(after)
            && ParentClosed(after.headers, r.genesis) && HeadsBelow(after, r.At(n), r.BlockAt(n), r.FastAt(n))
            && after.headHeader == HashOf(r.At(n)) && MarkHeads(after, r.BlockAt(n), r.FastAt(n))
  {
    hide Rewind.Valid, Rewind.At, Rewind.BlockAt, Rewind.FastAt, Rewind.StatesAt, Filed, IsChainOf, Lower, MarkersPresent;
    var n := r.Target(head);
    AtStored(r, n);
    HeadsStayBelow(r, n);
    ChainOfBase(r, n);
    var kept := if head < r.start.number then Purged(r.base, head + 1) else r.base;
    if head < r.start.number {
      PurgedFiled(r.base, r.genesis, r.start, r.At(n));
      LowerHas(r.base.headers, n + 1, HashOf(r.BlockAt(n)));
      LowerHas(r.base.headers, n + 1, HashOf(r.FastAt(n)));
    }
    FiledIsConsistent(kept, r.Final(head), r.genesis, r.At(n));
    NamedHeadsPresent(kept, r.Final(head), r.genesis, r.At(n), r.BlockAt(n), r.FastAt(n));
  }

  lemma ChainOfBase(r: Rewind, n: nat)
    requires r.Valid() && n <= r.start.number
    ensures Filed(r.base, r.genesis) && IsChainOf(r.base.canon, r.start) && WellLinked(r.start)
    ensures r.At(n) == Ancestor(r.start, n) && (n == r.start.number ==> r.At(n) == r.start)
  {
  }

  lemma FiledIsConsistent(kept: Db, db: Db, genesis: Header, current: Header)
    requires Filed(kept, genesis) && IsChainOf(kept.canon, current) && HashOf(current) in kept.headers && SameButHeads(kept, db)
    ensures Consistent(db, genesis, current) && BodiesFiled(db, genesis) && ParentClosed(db.headers, genesis)
  {
  }
}
