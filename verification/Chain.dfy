/** Headers linked by an injective hash, and the key-value store that keeps them. */
module Chains {
  import opened Wrappers

  type TxId = nat

  /** A hash is the free image of what is hashed, so equal hashes mean equal headers. The
      zero hash is nobody's. */
  datatype Hash = NoHash | HashOf(header: Header)

  /** The header of a block. Through its transaction root it also fixes the transactions. */
  datatype Header = Header(parentHash: Hash, number: nat, difficulty: nat, root: nat, txs: seq<TxId>, extra: nat)

  /** Numbers count up from a genesis, which alone has no parent. */
  ghost predicate WellLinked(h: Header) {
    match h.parentHash
    case NoHash => h.number == 0
    case HashOf(parent) => h.number == parent.number + 1 && WellLinked(parent)
  }

  /** The header reached from `h` over parent links at number `n`. */
  ghost function Ancestor(h: Header, n: nat): (a: Header)
    requires WellLinked(h) && n <= h.number
    ensures WellLinked(a) && a.number == n
  {
    if n == h.number then h else Ancestor(h.parentHash.header, n)
  }

  /** The header reached from `h` by following `steps` parent links. */
  ghost function WalkBack(h: Header, steps: nat): (a: Header)
    requires WellLinked(h) && steps <= h.number
    ensures WellLinked(a) && a.number == h.number - steps
  {
    if steps == 0 then h else WalkBack(h.parentHash.header, steps - 1)
  }

  /** The sum of difficulties along the ancestry of `h`. */
  ghost function TotalDifficulty(h: Header): nat {
    h.difficulty + if h.parentHash.HashOf? then TotalDifficulty(h.parentHash.header) else 0
  }

  lemma {:induction false} AncestorOfAncestor(h: Header, n: nat, m: nat)
    requires WellLinked(h) && m <= n <= h.number
    ensures Ancestor(Ancestor(h, n), m) == Ancestor(h, m)
  {
    if n < h.number {
      AncestorOfAncestor(h.parentHash.header, n, m);
    }
  }

  lemma {:induction false} WalkingIsAncestor(h: Header, steps: nat)
    requires WellLinked(h) && steps <= h.number
    ensures WalkBack(h, steps) == Ancestor(h, h.number - steps)
  {
    if steps > 0 {
      WalkingIsAncestor(h.parentHash.header, steps - 1);
    }
  }

  /** `canon` is exactly the ancestor chain of `head`, with nothing above it. */
  ghost predicate IsChainOf(canon: map<nat, Hash>, head: Header) {
    && WellLinked(head)
    && (forall n: nat :: n in canon <==> n <= head.number)
    && forall n: nat :: n <= head.number ==> canon[n] == HashOf(Ancestor(head, n))
  }

  /** Two chains that agree at a number agree below it. */
  lemma ChainsMeet(a: Header, b: Header, n: nat, m: nat)
    requires WellLinked(a) && WellLinked(b) && m <= n <= a.number && n <= b.number && Ancestor(a, n) == Ancestor(b, n)
    ensures Ancestor(a, m) == Ancestor(b, m)
  {
  }

  /** The contents of the key-value store. `txIndex` is the transaction lookup table, and
      `states` are the state roots that can be opened. */
  datatype Db = Db(canon: map<nat, Hash>, headers: map<Hash, Header>, bodies: set<Hash>, tds: map<Hash, int>,
                   headHeader: Hash, headFast: Hash, headBlock: Hash, txIndex: map<TxId, nat>, states: set<nat>) {
    /** The canonical hash at a number, or the zero hash. */
    function CanonicalHash(n: nat): Hash {
      if n in canon then canon[n] else NoHash
    }

    /** Entries are keyed by number and hash together. */
    function GetHeader(hash: Hash, number: int): Option<Header> {
      if hash in headers && headers[hash].number == number then Some(headers[hash]) else None
    }

    function GetTd(hash: Hash, number: int): Option<int> {
      if hash in tds && hash.HashOf? && hash.header.number == number then Some(tds[hash]) else None
    }

    /** A block is there when its header and its body are. */
    function GetBlock(hash: Hash, number: int): Option<Header> {
      if hash in bodies then GetHeader(hash, number) else None
    }
  }

  /** The two stores differ at most in their canonical hashes. */
  ghost predicate SameButCanon(db: Db, db': Db) {
    db'.(canon := map[]) == db.(canon := map[])
  }

  lemma CanonChangesCompose(db: Db, db': Db, db'': Db)
    requires SameButCanon(db, db') && SameButCanon(db', db'')
    ensures SameButCanon(db, db'')
  {
  }

  /** One write of a batch. */
  datatype Write = PutCanonical(number: nat, hash: Hash) | DeleteCanonical(number: nat)
                 | PutHeader(header: Header) | DeleteHeader(hash: Hash)
                 | PutTd(hash: Hash, td: int) | DeleteTd(hash: Hash)
                 | DeleteBody(hash: Hash)
                 | PutHeadHeader(hash: Hash) | PutHeadFast(hash: Hash) | PutHeadBlock(hash: Hash)
                 | PutTxIndex(tx: TxId, number: nat) | DeleteTxIndex(tx: TxId)

  function Apply(db: Db, w: Write): Db {
    match w
    case PutCanonical(n, hash) => db.(canon := db.canon[n := hash])
    case DeleteCanonical(n) => db.(canon := db.canon - {n})
    case PutHeader(h) => db.(headers := db.headers[HashOf(h) := h])
    case DeleteHeader(hash) => db.(headers := db.headers - {hash})
    case PutTd(hash, td) => db.(tds := db.tds[hash := td])
    case DeleteTd(hash) => db.(tds := db.tds - {hash})
    case DeleteBody(hash) => db.(bodies := db.bodies - {hash})
    case PutHeadHeader(hash) => db.(headHeader := hash)
    case PutHeadFast(hash) => db.(headFast := hash)
    case PutHeadBlock(hash) => db.(headBlock := hash)
    case PutTxIndex(tx, n) => db.(txIndex := db.txIndex[tx := n])
    case DeleteTxIndex(tx) => db.(txIndex := db.txIndex - {tx})
  }

  /** What the store becomes when a batch is written. Until then, reads do not see it. */
  function Flush(db: Db, batch: seq<Write>): Db {
    if batch == [] then db else Apply(Flush(db, batch[..|batch| - 1]), batch[|batch| - 1])
  }

  lemma FlushNothing(db: Db)
    ensures Flush(db, []) == db
  {
  }

  lemma FlushOneMore(db: Db, batch: seq<Write>, w: Write)
    ensures Flush(db, batch + [w]) == Apply(Flush(db, batch), w)
  {
  }

  /** The store files every header under its own hash, is closed under parents, and all its
      headers grow from `genesis`. */
  ghost predicate ParentClosed(headers: map<Hash, Header>, genesis: Header) {
    && HashOf(genesis) in headers
    && forall hash :: hash in headers ==> InPlace(headers, genesis, hash)
  }

  ghost predicate InPlace(headers: map<Hash, Header>, genesis: Header, hash: Hash)
    requires hash in headers
  {
    var h := headers[hash];
    && hash == HashOf(h) && WellLinked(h)
    && (h.number == 0 ==> h == genesis) && (h.number > 0 ==> h.parentHash in headers)
  }

  lemma FiledAt(headers: map<Hash, Header>, genesis: Header, hash: Hash)
    requires ParentClosed(headers, genesis) && hash in headers
    ensures InPlace(headers, genesis, hash)
  {
  }

  lemma {:induction false} AncestorStored(headers: map<Hash, Header>, genesis: Header, h: Header, n: nat)
    requires ParentClosed(headers, genesis) && HashOf(h) in headers && n <= h.number
    ensures WellLinked(h) && HashOf(Ancestor(h, n)) in headers
    ensures Ancestor(h, 0) == genesis
    decreases h
  {
    assert headers[HashOf(h)] == h;
    if h.number > 0 {
      AncestorStored(headers, genesis, h.parentHash.header, if n < h.number then n else h.number - 1);
    }
  }

  /** Each header continues the one before it. */
  ghost predicate Contiguous(headers: seq<Header>) {
    forall i :: 0 < i < |headers| ==>
      headers[i].parentHash == HashOf(headers[i - 1]) && headers[i].number == headers[i - 1].number + 1
  }

  lemma {:induction false} ContiguousChain(headers: seq<Header>, i: nat)
    requires Contiguous(headers) && headers != [] && WellLinked(headers[0]) && i < |headers|
    ensures WellLinked(headers[i]) && headers[i].number == headers[0].number + i
    ensures forall k :: 0 <= k <= i ==> Ancestor(headers[i], headers[0].number + k) == headers[k]
    ensures forall n: nat :: 0 <= n <= headers[0].number ==> Ancestor(headers[i], n) == Ancestor(headers[0], n)
  {
    if i > 0 {
      ContiguousChain(headers, i - 1);
      assert headers[i].parentHash == HashOf(headers[i - 1]);
    }
  }
}
