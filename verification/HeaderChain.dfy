/** The header chain (core/headerchain.go) over the store. Its caches are taken to mirror
    the store. */
module HeaderChains {
  import opened Wrappers
  import opened Chains
  import opened ForkChoices

  datatype ChainError = MissingParent | UnknownAncestor | Aborted | MissingTd | InvalidOldChain | InvalidNewChain

  /** Every stored header has the total difficulty of its ancestry on record, and nothing
      else has. */
  ghost predicate TdsExact(tds: map<Hash, int>, headers: map<Hash, Header>) {
    && tds.Keys == headers.Keys
    && forall hash :: hash in tds ==> hash.HashOf? && tds[hash] == TotalDifficulty(hash.header)
  }

  /** The canonical map without the numbers from `lo` up to but excluding `hi`. */
  function CutRange(canon: map<nat, Hash>, lo: nat, hi: nat): map<nat, Hash> {
    map n | n in canon && !(lo <= n < hi) :: canon[n]
  }

  lemma CutOneMore(canon: map<nat, Hash>, lo: nat, hi: nat)
    requires lo <= hi
    ensures CutRange(canon, lo, hi) - {hi} == CutRange(canon, lo, hi + 1)
    ensures CutRange(canon, lo, lo) == canon
  {
  }

  /** Exactly the numbers up to `top` have a canonical hash. */
  ghost predicate DenseUpTo(canon: map<nat, Hash>, top: nat) {
    && (forall n: nat :: n in canon <==> n <= top)
    && forall n: nat :: n in canon ==> canon[n] != NoHash
  }

  /** Put into a batch the deletion of all canonical hashes from `from` up to the first
      number that has none. The batch is not visible to the reads of the loop. */
  method DeleteCanonicalFrom(db: Db, from: nat, batch: seq<Write>, ghost top: nat) returns (batch': seq<Write>)
    requires DenseUpTo(db.canon, top)
    ensures SameButCanon(Flush(db, batch), Flush(db, batch'))
    ensures Flush(db, batch').canon == CutRange(Flush(db, batch).canon, from, if from <= top then top + 1 else from)
  {
    hide Flush, CutRange;
    batch' := batch;
    var i := from;
    CutOneMore(Flush(db, batch).canon, from, from);
    while db.CanonicalHash(i) != NoHash
      invariant from <= i && (i <= top + 1 || i == from)
      invariant Flush(db, batch') == Flush(db, batch).(canon := CutRange(Flush(db, batch).canon, from, i))
      decreases top + 1 - i
    {
      FlushOneMore(db, batch', DeleteCanonical(i));
      CutOneMore(Flush(db, batch).canon, from, i);
      batch' := batch' + [DeleteCanonical(i)];
      i := i + 1;
    }
  }

  /** How many parents have to be looked up on the way `togo` steps back from `h`, until
      a canonical header is met. */
  ghost function ParentSteps(canon: map<nat, Hash>, h: Header, togo: nat): nat {
    if togo == 0 || h.parentHash == NoHash || (h.number in canon && canon[h.number] == HashOf(h)) then 0
    else 1 + ParentSteps(canon, h.parentHash.header, togo - 1)
  }

  /** Headers are stored parent-closed with their total difficulties, and the canonical map
      is the chain of `current`. */
  ghost predicate Consistent(db: Db, genesis: Header, current: Header) {
    && ParentClosed(db.headers, genesis) && TdsExact(db.tds, db.headers)
    && HashOf(current) in db.headers && IsChainOf(db.canon, current)
  }

  lemma ChainFacts(db: Db, genesis: Header, current: Header)
    requires Consistent(db, genesis, current)
    ensures IsChainOf(db.canon, current) && NothingAbove(db.canon, current.number)
    ensures HashOf(current) in db.headers
  {
  }

  /** A canonical header is stored, and so is its parent. */
  lemma CanonicalStored(db: Db, genesis: Header, current: Header, h: Header)
    requires Consistent(db, genesis, current) && db.CanonicalHash(h.number) == HashOf(h)
    ensures HashOf(h) in db.headers && (h.number > 0 ==> h.parentHash in db.headers)
    ensures Ancestor(current, h.number) == h
  {
    AncestorStored(db.headers, genesis, current, h.number);
    assert db.headers[HashOf(h)] == h;
  }

  /** Of a stored header, its parent can be read. */
  lemma ParentReadable(db: Db, genesis: Header, current: Header, h: Header)
    requires Consistent(db, genesis, current) && WellLinked(h) && h.number > 0
    ensures HashOf(h) in db.headers ==> h.parentHash in db.headers
    ensures db.GetHeader(h.parentHash, h.number - 1) == if h.parentHash in db.headers then Some(h.parentHash.header) else None
  {
  }

  /** Overwrite canonical hashes going backwards from `first` until the cross link. That is
      far enough, because below it the two chains are the same. */
  method RewriteToCrossLink(db: Db, ghost genesis: Header, ghost current: Header, first: Header, batch: seq<Write>,
                            ghost top: nat)
    returns (batch': seq<Write>, err: Option<ChainError>)
    requires Consistent(db, genesis, current) && WellLinked(first) && first.number <= top
    requires CanonUpTo(Flush(db, batch).canon, db.canon, first.number) && NothingAbove(Flush(db, batch).canon, top)
    ensures err != None <==> first.number > 0 && first.parentHash !in db.headers
    ensures err == None ==> var after := Flush(db, batch');
              && SameButCanon(Flush(db, batch), after)
              && FollowsUpTo(after.canon, first, first.number + 1) && NothingAbove(after.canon, top)
  {
    hide Flush, Ancestor, WellLinked, Consistent, Rewritten, FollowsUpTo, NothingAbove;
    batch', err := batch, None;
    var header, headHash := first, HashOf(first);
    var headNumber: nat := first.number;
    AncestorAtOwn(first);
    ghost var view: map<nat, Hash> := Flush(db, batch).canon;
    NothingRewritten(view, db.canon, first);
    while db.CanonicalHash(headNumber) != headHash
      invariant headNumber <= first.number && header == Ancestor(first, headNumber) && headHash == HashOf(header)
      invariant headNumber < first.number ==> headHash in db.headers && first.parentHash in db.headers
      invariant Flush(db, batch') == Flush(db, batch).(canon := view)
      invariant Rewritten(view, db.canon, first, headNumber + 1) && NothingAbove(view, top)
      decreases headNumber
    {
      FlushOneMore(db, batch', PutCanonical(headNumber, headHash));
      batch' := batch' + [PutCanonical(headNumber, headHash)];
      RewriteOneMore(view, db.canon, first, headNumber, top);
      view := view[headNumber := headHash];
      if headNumber == 0 {
        RewrittenToTheEnd(view, db.canon, first);
        return;
      }
      ParentReadable(db, genesis, current, header);
      AncestorStep(first, headNumber - 1);
      headHash, headNumber := header.parentHash, header.number - 1;
      var parent := db.GetHeader(headHash, headNumber);
      if parent == None {
        return batch', Some(MissingParent);
      }
      header := parent.value;
    }
    CanonicalStored(db, genesis, current, header);
    ChainFacts(db, genesis, current);
    CrossLinkFound(view, db.canon, first, current, headNumber);
  }

  /** What is asked of GetAncestor. */
  datatype Query = Query(hash: Hash, number: nat, ancestor: nat, maxNonCanonical: nat)

  /** The loop of GetAncestor. */
  method Walk(db: Db, ghost genesis: Header, ghost current: Header, q: Query) returns (r: Hash, n: nat, left: nat)
    requires Consistent(db, genesis, current) && q.ancestor != 1 && q.ancestor <= q.number
    ensures AncestorFound(db, q, r, n, left)
  {
    hide *;
    SettingOut(db, genesis, current, q);
    r, n, left := q.hash, q.number, q.maxNonCanonical;
    var togo: nat := q.ancestor;
    while togo != 0
      invariant togo <= n && Underway(db, q, r, n, togo, left)
      decreases togo
    {
      if db.CanonicalHash(n) == r {
        CanonicalMet(db, genesis, current, q, r, n, togo, left);
        return db.CanonicalHash(n - togo), n - togo, left;
      }
      if left == 0 {
        AllowanceSpent(db, genesis, current, q, r, n, togo);
        return NoHash, 0, left;
      }
      OneStep(db, genesis, current, q, r, n, togo, left);
      left, togo := left - 1, togo - 1;
      var header := db.GetHeader(r, n);
      if header == None {
        return NoHash, 0, left;
      }
      r, n := header.value.parentHash, n - 1;
    }
    Arrived(db, genesis, current, q, r, n, left);
  }

  /** The answer is right. Of a header that is stored, has that many ancestors, and meets the
      canonical chain within the allowance (or the walk is over by then), it is the hash that
      walking the parent links gives, and the allowance is charged for every parent looked up;
      of any other it is the zero hash. The zero hash itself passes for canonical above the
      head, and is then given the canonical hash so many numbers below. */
  ghost predicate AncestorFound(db: Db, q: Query, r: Hash, n: nat, left: nat) {
    if q.ancestor == 0 then
      (r, n, left) == (q.hash, q.number, q.maxNonCanonical)
    else if q.hash == NoHash then
      if 1 < q.ancestor <= q.number && db.CanonicalHash(q.number) == NoHash
      then r == db.CanonicalHash(q.number - q.ancestor) && n == q.number - q.ancestor
      else r == NoHash && n == 0
    else if Reachable(db, q) then
      && WellLinked(q.hash.header) && r == HashOf(WalkBack(q.hash.header, q.ancestor)) && n == q.number - q.ancestor
      && left == q.maxNonCanonical - if q.ancestor == 1 then 0 else ParentSteps(db.canon, q.hash.header, q.ancestor)
    else
      r == NoHash && n == 0
  }

  /** The ancestor exists and can be found within the allowance. */
  ghost predicate Reachable(db: Db, q: Query) {
    && q.ancestor <= q.number && Stored(db, q.hash, q.number) && q.number == q.hash.header.number
    && (q.ancestor == 1 || ParentSteps(db.canon, q.hash.header, q.ancestor) <= q.maxNonCanonical)
  }

  /** In the search for an ancestor we have come to `r` at `n`, with `togo` to go. */
  ghost predicate Underway(db: Db, q: Query, r: Hash, n: nat, togo: nat, left: nat) {
    && q.ancestor != 1 && togo <= n && n - togo == q.number - q.ancestor && q.ancestor <= q.number
    && (Stored(db, q.hash, q.number) <==> Stored(db, r, n))
    && (Stored(db, r, n) ==> OnTheWay(db, q, r, togo, left))
    && (!Stored(db, r, n) ==> togo == q.ancestor && r == q.hash && left == q.maxNonCanonical)
  }

  ghost predicate Stored(db: Db, hash: Hash, number: nat) {
    hash != NoHash && db.GetHeader(hash, number) == Some(hash.header)
  }

  /** On the way back from the header asked about, we have come to `r` with `togo` to go. */
  ghost predicate OnTheWay(db: Db, q: Query, r: Hash, togo: nat, left: nat) {
    && q.hash != NoHash && r != NoHash && WellLinked(q.hash.header) && WellLinked(r.header)
    && q.ancestor <= q.hash.header.number && togo <= r.header.number
    && WalkBack(q.hash.header, q.ancestor) == WalkBack(r.header, togo)
    && ParentSteps(db.canon, q.hash.header, q.ancestor) - ParentSteps(db.canon, r.header, togo) == q.maxNonCanonical - left
  }

  lemma ParentOnly(db: Db, genesis: Header, current: Header, q: Query)
    requires Consistent(db, genesis, current)
    ensures q.ancestor > q.number ==> AncestorFound(db, q, NoHash, 0, q.maxNonCanonical)
    ensures q.ancestor == 1 <= q.number ==> match db.GetHeader(q.hash, q.number)
              case None => AncestorFound(db, q, NoHash, 0, q.maxNonCanonical)
              case Some(h) => AncestorFound(db, q, h.parentHash, q.number - 1, q.maxNonCanonical)
  {
  }

  lemma SettingOut(db: Db, genesis: Header, current: Header, q: Query)
    requires Consistent(db, genesis, current) && q.ancestor <= q.number && q.ancestor != 1
    ensures Underway(db, q, q.hash, q.number, q.ancestor, q.maxNonCanonical)
  {
  }

  lemma AllowanceSpent(db: Db, genesis: Header, current: Header, q: Query, r: Hash, n: nat, togo: nat)
    requires Consistent(db, genesis, current) && Underway(db, q, r, n, togo, 0)
    requires togo > 0 && db.CanonicalHash(n) != r
    ensures AncestorFound(db, q, NoHash, 0, 0)
  {
  }

  lemma OneStep(db: Db, genesis: Header, current: Header, q: Query, r: Hash, n: nat, togo: nat, left: nat)
    requires Consistent(db, genesis, current) && Underway(db, q, r, n, togo, left)
    requires 0 < togo <= n && left > 0 && db.CanonicalHash(n) != r
    ensures db.GetHeader(r, n) == None ==> AncestorFound(db, q, NoHash, 0, left - 1)
    ensures db.GetHeader(r, n) != None ==> r != NoHash && db.GetHeader(r, n) == Some(r.header)
    ensures db.GetHeader(r, n) != None ==> Underway(db, q, r.header.parentHash, n - 1, togo - 1, left - 1)
  {
  }

  lemma CanonicalMet(db: Db, genesis: Header, current: Header, q: Query, r: Hash, n: nat, togo: nat, left: nat)
    requires Consistent(db, genesis, current) && Underway(db, q, r, n, togo, left)
    requires 0 < togo && r == db.CanonicalHash(n)
    ensures AncestorFound(db, q, db.CanonicalHash(n - togo), n - togo, left)
  {
    hide Consistent;
    if r != NoHash {
      CanonicalAt(db, genesis, current, r, n);
      CanonicalAncestor(db, genesis, current, r.header, togo);
      assert ParentSteps(db.canon, r.header, togo) == 0;
    }
  }

  lemma CanonicalAt(db: Db, genesis: Header, current: Header, r: Hash, n: nat)
    requires Consistent(db, genesis, current) && r != NoHash && r == db.CanonicalHash(n)
    ensures n <= current.number && r == HashOf(Ancestor(current, n)) && r.header.number == n && Stored(db, r, n)
  {
    AncestorStored(db.headers, genesis, current, n);
  }

  /** Below a canonical header the canonical hashes are those of its ancestors. */
  lemma CanonicalAncestor(db: Db, genesis: Header, current: Header, h: Header, steps: nat)
    requires Consistent(db, genesis, current) && WellLinked(h) && steps <= h.number && db.CanonicalHash(h.number) == HashOf(h)
    ensures db.CanonicalHash(h.number - steps) == HashOf(WalkBack(h, steps))
  {
    CanonicalAt(db, genesis, current, HashOf(h), h.number);
    WalkingIsAncestor(h, steps);
    AncestorOfAncestor(current, h.number, h.number - steps);
  }

  lemma Arrived(db: Db, genesis: Header, current: Header, q: Query, r: Hash, n: nat, left: nat)
    requires Consistent(db, genesis, current) && Underway(db, q, r, n, 0, left)
    ensures AncestorFound(db, q, r, n, left)
  {
  }

  /** What Reorg is going to write. */
  method ReorgBatch(db: Db, ghost genesis: Header, ghost current: Header, currentHash: Hash, headers: seq<Header>)
    returns (batch: seq<Write>, err: Option<ChainError>)
    requires currentHash == HashOf(current) && Consistent(db, genesis, current)
    requires Contiguous(headers) && headers != [] && WellLinked(headers[0])
    ensures err != None <==> headers[0].number > 0 && headers[0].parentHash !in db.headers
    ensures err == None ==> var last, after := headers[|headers| - 1], Flush(db, batch);
              IsChainOf(after.canon, last) && after == db.(canon := after.canon, headHeader := HashOf(last))
  {
    hide Flush, Contiguous, Ancestor, WellLinked, IsChainOf, Consistent;
    ContiguousChain(headers, |headers| - 1);
    batch, err := Unwind(db, genesis, current, currentHash, headers[0], headers[|headers| - 1].number);
    if err == None {
      batch := PileOn(db, headers, batch);
    }
  }

  /** Put into a batch what makes the numbers below `first` its ancestors and leaves none
      above `top`. */
  method Unwind(db: Db, ghost genesis: Header, ghost current: Header, currentHash: Hash, first: Header, top: nat)
    returns (batch: seq<Write>, err: Option<ChainError>)
    requires currentHash == HashOf(current) && Consistent(db, genesis, current) && WellLinked(first) && first.number <= top
    ensures err != None <==> first.number > 0 && first.parentHash !in db.headers
    ensures err == None ==> var after := Flush(db, batch);
              && SameButCanon(db, after)
              && FollowsUpTo(after.canon, first, first.number) && NothingAbove(after.canon, top)
  {
    if first.parentHash == currentHash {
      FlushNothing(db);
      Extends(db.canon, current, first);
      NothingHigher(db.canon, first.number, top);
      return [], None;
    }
    batch, err := UnwindFork(db, genesis, current, first, top);
  }

  method UnwindFork(db: Db, ghost genesis: Header, ghost current: Header, first: Header, top: nat)
    returns (batch: seq<Write>, err: Option<ChainError>)
    requires Consistent(db, genesis, current) && WellLinked(first) && first.number <= top
    ensures err != None <==> first.number > 0 && first.parentHash !in db.headers
    ensures err == None ==> var after := Flush(db, batch);
              && SameButCanon(db, after)
              && FollowsUpTo(after.canon, first, first.number) && NothingAbove(after.canon, top)
  {
    hide *;
    FlushNothing(db);
    ChainFacts(db, genesis, current);
    CanonHashes(db.canon, current);
    batch := DeleteCanonicalFrom(db, top + 1, [], current.number);
    CutLeaves(db.canon, first.number, top, current.number);
    ghost var cut := Flush(db, batch);
    batch, err := RewriteToCrossLink(db, genesis, current, first, batch, top);
    if err == None {
      CanonChangesCompose(db, cut, Flush(db, batch));
      FollowsLess(Flush(db, batch).canon, first);
    }
  }

  lemma CanonHashes(canon: map<nat, Hash>, h: Header)
    requires IsChainOf(canon, h)
    ensures DenseUpTo(canon, h.number)
  {
  }

  lemma CutLeaves(canon: map<nat, Hash>, first: nat, last: nat, top: nat)
    requires first <= last && NothingAbove(canon, top)
    ensures var cut := CutRange(canon, last + 1, if last + 1 <= top then top + 1 else last + 1);
            CanonUpTo(cut, canon, first) && NothingAbove(cut, last)
  {
  }

  lemma NothingHigher(canon: map<nat, Hash>, n: nat, m: nat)
    requires NothingAbove(canon, n) && n <= m
    ensures NothingAbove(canon, m)
  {
  }

  lemma FollowsLess(canon: map<nat, Hash>, h: Header)
    requires FollowsUpTo(canon, h, h.number + 1)
    ensures FollowsUpTo(canon, h, h.number)
  {
  }

  lemma Extends(canon: map<nat, Hash>, h: Header, child: Header)
    requires IsChainOf(canon, h) && WellLinked(child) && child.parentHash == HashOf(h)
    ensures FollowsUpTo(canon, child, child.number) && NothingAbove(canon, child.number)
  {
  }

  /** Put into a batch the canonical hashes of `headers` and the head header. */
  method PileOn(db: Db, headers: seq<Header>, batch: seq<Write>) returns (batch': seq<Write>)
    requires headers != [] && Contiguous(headers) && WellLinked(headers[0])
    requires FollowsUpTo(Flush(db, batch).canon, headers[0], headers[0].number)
    requires NothingAbove(Flush(db, batch).canon, headers[|headers| - 1].number)
    ensures var last := headers[|headers| - 1];
            var after := Flush(db, batch');
            IsChainOf(after.canon, last) && after == Flush(db, batch).(canon := after.canon, headHeader := HashOf(last))
  {
    hide Flush, Ancestor, WellLinked, FollowsUpTo, NothingAbove, Contiguous;
    var last := headers[|headers| - 1];
    ghost var start := headers[0].number;
    ContiguousChain(headers, |headers| - 1);
    batch' := batch;
    ghost var view: map<nat, Hash> := Flush(db, batch).canon;
    ghost var head := Flush(db, batch).headHeader;
    FollowsAlike(view, headers[0], last, start);
    for i := 0 to |headers| - 1
      invariant Flush(db, batch') == Flush(db, batch).(canon := view, headHeader := head)
      invariant FollowsUpTo(view, last, start + i) && NothingAbove(view, last.number)
    {
      NextParent(headers, i);
      batch' := PutHead(db, batch', headers[i].number, headers[i + 1].parentHash);
      FollowOneMore(view, last, start + i);
      view, head := view[headers[i].number := headers[i + 1].parentHash], headers[i + 1].parentHash;
    }
    batch' := PutHead(db, batch', last.number, HashOf(last));
    FollowOneMore(view, last, last.number);
    AncestorAtOwn(last);
    FollowedIsChain(view[last.number := HashOf(last)], last);
  }

  /** Put into a batch a canonical hash that is also the new head header. */
  method PutHead(db: Db, batch: seq<Write>, number: nat, hash: Hash) returns (batch': seq<Write>)
    ensures Flush(db, batch') == Flush(db, batch).(canon := Flush(db, batch).canon[number := hash], headHeader := hash)
  {
    hide Flush;
    FlushOneMore(db, batch, PutCanonical(number, hash));
    FlushOneMore(db, batch + [PutCanonical(number, hash)], PutHeadHeader(hash));
    batch' := batch + [PutCanonical(number, hash)] + [PutHeadHeader(hash)];
  }

  lemma NextParent(headers: seq<Header>, i: nat)
    requires Contiguous(headers) && i + 1 < |headers| && WellLinked(headers[0])
    ensures var last := headers[|headers| - 1];
            && WellLinked(last) && headers[i].number == headers[0].number + i <= last.number
            && headers[i + 1].parentHash == HashOf(Ancestor(last, headers[0].number + i))
  {
    ContiguousChain(headers, |headers| - 1);
    ContiguousChain(headers, i);
  }

  lemma FollowsAlike(canon: map<nat, Hash>, a: Header, b: Header, k: nat)
    requires FollowsUpTo(canon, a, k) && WellLinked(b) && k <= a.number <= b.number
    requires forall n: nat :: 0 <= n <= a.number ==> Ancestor(a, n) == Ancestor(b, n)
    ensures FollowsUpTo(canon, b, k)
  {
  }

  lemma FollowOneMore(canon: map<nat, Hash>, h: Header, k: nat)
    requires FollowsUpTo(canon, h, k) && NothingAbove(canon, h.number) && k <= h.number
    ensures FollowsUpTo(canon[k := HashOf(Ancestor(h, k))], h, k + 1)
    ensures NothingAbove(canon[k := HashOf(Ancestor(h, k))], h.number)
  {
  }

  lemma FollowedIsChain(canon: map<nat, Hash>, h: Header)
    requires FollowsUpTo(canon, h, h.number + 1) && NothingAbove(canon, h.number)
    ensures IsChainOf(canon, h)
  {
  }

  lemma NothingRewritten(view: map<nat, Hash>, canon: map<nat, Hash>, h: Header)
    requires WellLinked(h) && CanonUpTo(view, canon, h.number)
    ensures Rewritten(view, canon, h, h.number + 1)
  {
  }

  lemma RewriteOneMore(view: map<nat, Hash>, canon: map<nat, Hash>, h: Header, n: nat, top: nat)
    requires Rewritten(view, canon, h, n + 1) && NothingAbove(view, top) && n <= h.number <= top
    ensures Rewritten(view[n := HashOf(Ancestor(h, n))], canon, h, n)
    ensures NothingAbove(view[n := HashOf(Ancestor(h, n))], top)
  {
  }

  lemma RewrittenToTheEnd(view: map<nat, Hash>, canon: map<nat, Hash>, h: Header)
    requires Rewritten(view, canon, h, 0)
    ensures FollowsUpTo(view, h, h.number + 1)
  {
  }

  /** Once the canonical hash at `n` is the one of the ancestor there, the old chain and the
      new one are the same from `n` down. */
  lemma CrossLinkFound(view: map<nat, Hash>, canon: map<nat, Hash>, h: Header, before: Header, n: nat)
    requires Rewritten(view, canon, h, n + 1) && IsChainOf(canon, before)
    requires n in canon && canon[n] == HashOf(Ancestor(h, n))
    ensures FollowsUpTo(view, h, h.number + 1)
  {
    SameBelow(before, h, n);
  }

  /** The numbers below `k` lead to the ancestors of `h`. */
  ghost predicate FollowsUpTo(canon: map<nat, Hash>, h: Header, k: nat) {
    WellLinked(h) && k <= h.number + 1 && forall n: nat :: 0 <= n < k ==> n in canon && canon[n] == HashOf(Ancestor(h, n))
  }

  ghost predicate NothingAbove(canon: map<nat, Hash>, top: nat) {
    forall n: nat :: n in canon ==> n <= top
  }

  ghost predicate CanonUpTo(canon': map<nat, Hash>, canon: map<nat, Hash>, k: nat) {
    forall n: nat :: 0 <= n <= k ==> (n in canon' <==> n in canon) && (n in canon ==> canon'[n] == canon[n])
  }

  /** From `k` up to `h` the numbers lead to ancestors of `h`; below `k` nothing is changed. */
  ghost predicate Rewritten(canon': map<nat, Hash>, canon: map<nat, Hash>, h: Header, k: nat) {
    && WellLinked(h) && k <= h.number + 1
    && (forall n: nat :: k <= n <= h.number ==> n in canon' && canon'[n] == HashOf(Ancestor(h, n)))
    && forall n: nat :: 0 <= n < k ==> (n in canon' <==> n in canon) && (n in canon ==> canon'[n] == canon[n])
  }

  lemma AncestorAtOwn(h: Header)
    requires WellLinked(h)
    ensures Ancestor(h, h.number) == h
  {
  }

  lemma AncestorStep(h: Header, n: nat)
    requires WellLinked(h) && n < h.number
    ensures var a := Ancestor(h, n + 1);
            a.parentHash == HashOf(Ancestor(h, n))
  {
    AncestorOfAncestor(h, n + 1, n);
  }

  lemma SameBelow(a: Header, b: Header, n: nat)
    requires WellLinked(a) && WellLinked(b) && n <= a.number && n <= b.number && Ancestor(a, n) == Ancestor(b, n)
    ensures forall m :: 0 <= m <= n ==> Ancestor(a, m) == Ancestor(b, m)
  {
    forall m | 0 <= m <= n
      ensures Ancestor(a, m) == Ancestor(b, m)
    {
      ChainsMeet(a, b, n, m);
    }
  }

  /** A header whose parent is stored is put into the store with its total difficulty. */
  lemma OneMoreStored(headers: map<Hash, Header>, tds: map<Hash, int>, genesis: Header, h: Header)
    requires ParentClosed(headers, genesis) && TdsExact(tds, headers)
    requires WellLinked(h) && h.parentHash in headers
    ensures ParentClosed(headers[HashOf(h) := h], genesis)
    ensures TdsExact(tds[HashOf(h) := TotalDifficulty(h)], headers[HashOf(h) := h])
  {
  }

  function HashesOf(headers: seq<Header>): set<Hash> {
    set i | 0 <= i < |headers| :: HashOf(headers[i])
  }

  /** `stored` is the store with the first `k` of `headers` added to those of `before`, each with
      the total difficulty of its ancestry. */
  ghost predicate StoredUpTo(before: Db, after: Db, genesis: Header, headers: seq<Header>, k: nat) {
    && k <= |headers|
    && ParentClosed(after.headers, genesis) && TdsExact(after.tds, after.headers)
    && after.headers.Keys == before.headers.Keys + HashesOf(headers[..k])
    && after == before.(headers := after.headers, tds := after.tds)
  }

  lemma NothingStored(db: Db, genesis: Header, headers: seq<Header>)
    requires ParentClosed(db.headers, genesis) && TdsExact(db.tds, db.headers)
    ensures StoredUpTo(db, db, genesis, headers, 0)
  {
  }

  lemma NextHash(headers: seq<Header>, k: nat)
    requires k < |headers|
    ensures HashesOf(headers[..k + 1]) == HashesOf(headers[..k]) + {HashOf(headers[k])}
  {
  }

  /** A header that was known before is skipped; so were all before it, as their store was
      closed under parents. */
  lemma KnownSkipped(before: Db, after: Db, genesis: Header, headers: seq<Header>, k: nat)
    requires StoredUpTo(before, after, genesis, headers, k) && k < |headers| && HashOf(headers[k]) in before.headers
    ensures StoredUpTo(before, after, genesis, headers, k + 1)
  {
    NextHash(headers, k);
  }

  lemma NewStored(before: Db, after: Db, genesis: Header, headers: seq<Header>, k: nat)
    requires StoredUpTo(before, after, genesis, headers, k) && k < |headers| && HashOf(headers[k]) !in before.headers
    requires Contiguous(headers) && WellLinked(headers[0]) && headers[0].parentHash in before.headers
    ensures var h := headers[k];
            var after' := after.(headers := after.headers[HashOf(h) := h], tds := after.tds[HashOf(h) := TotalDifficulty(h)]);
            StoredUpTo(before, after', genesis, headers, k + 1) && |after'.headers| == |after.headers| + 1
  {
    hide ParentClosed, TdsExact, Contiguous, WellLinked, TotalDifficulty, HashesOf;
    NextHash(headers, k);
    LinkedAt(headers, k);
    ParentAmong(headers, k);
    NotAmong(headers, k);
    OneMoreStored(after.headers, after.tds, genesis, headers[k]);
  }

  lemma LinkedAt(headers: seq<Header>, k: nat)
    requires Contiguous(headers) && k < |headers| && WellLinked(headers[0])
    ensures WellLinked(headers[k])
  {
    ContiguousChain(headers, k);
  }

  lemma ParentAmong(headers: seq<Header>, k: nat)
    requires Contiguous(headers) && k < |headers|
    ensures k > 0 ==> headers[k].parentHash in HashesOf(headers[..k])
  {
    if k > 0 {
      assert headers[..k][k - 1] == headers[k - 1];
    }
  }

  lemma NotAmong(headers: seq<Header>, k: nat)
    requires Contiguous(headers) && k < |headers| && WellLinked(headers[0])
    ensures HashOf(headers[k]) !in HashesOf(headers[..k])
  {
    forall i | 0 <= i < k
      ensures headers[i] != headers[k]
    {
      ContiguousChain(headers, i);
      ContiguousChain(headers, k);
    }
  }

  /** The loop of WriteHeaders. */
  method StoreBatch(db: Db, ghost genesis: Header, headers: seq<Header>, ptd: int) returns (inserted: nat, batch: seq<Write>)
    requires ParentClosed(db.headers, genesis) && TdsExact(db.tds, db.headers)
    requires Contiguous(headers) && headers != [] && WellLinked(headers[0])
    requires headers[0].parentHash != NoHash && headers[0].parentHash in db.headers
    requires ptd == TotalDifficulty(headers[0].parentHash.header)
    ensures StoredUpTo(db, Flush(db, batch), genesis, headers, |headers|)
    ensures inserted == |Flush(db, batch).headers| - |db.headers|
  {
    hide Flush, StoredUpTo, TotalDifficulty, Contiguous, WellLinked, ParentClosed, TdsExact;
    var newTd, parentKnown := ptd, true;
    inserted, batch := 0, [];
    FlushNothing(db);
    NothingStored(db, genesis, headers);
    for i := 0 to |headers|
      invariant StoredUpTo(db, Flush(db, batch), genesis, headers, i)
      invariant inserted == |Flush(db, batch).headers| - |db.headers|
      invariant newTd == TotalDifficulty(if i == 0 then headers[0].parentHash.header else headers[i - 1])
      invariant parentKnown == (i == 0 || HashOf(headers[i - 1]) in db.headers)
    {
      var header := headers[i];
      var hash := if i < |headers| - 1 then headers[i + 1].parentHash else HashOf(header);
      newTd := newTd + header.difficulty;
      assert hash == HashOf(header) by { NextIsChild(headers, i); }
      var alreadyKnown := parentKnown && db.GetHeader(hash, header.number) != None;
      TdOfChild(headers, i);
      KnownBefore(db, genesis, headers, i);
      if alreadyKnown {
        KnownSkipped(db, Flush(db, batch), genesis, headers, i);
      } else {
        NewStored(db, Flush(db, batch), genesis, headers, i);
        batch, inserted := PutStored(db, batch, header, newTd), inserted + 1;
      }
      parentKnown := alreadyKnown;
    }
  }

  /** Put the total difficulty and the header into a batch. */
  function PutStored(db: Db, batch: seq<Write>, header: Header, td: int): (batch': seq<Write>)
    ensures var before := Flush(db, batch);
            Flush(db, batch') == before.(headers := before.headers[HashOf(header) := header],
                                         tds := before.tds[HashOf(header) := td])
  {
    FlushOneMore(db, batch, PutTd(HashOf(header), td));
    FlushOneMore(db, batch + [PutTd(HashOf(header), td)], PutHeader(header));
    batch + [PutTd(HashOf(header), td)] + [PutHeader(header)]
  }

  lemma NextIsChild(headers: seq<Header>, i: nat)
    requires Contiguous(headers) && i < |headers|
    ensures i + 1 < |headers| ==> headers[i + 1].parentHash == HashOf(headers[i])
  {
  }

  lemma TdOfChild(headers: seq<Header>, i: nat)
    requires Contiguous(headers) && i < |headers| && headers[0].parentHash.HashOf?
    ensures var parent := if i == 0 then headers[0].parentHash.header else headers[i - 1];
            TotalDifficulty(headers[i]) == TotalDifficulty(parent) + headers[i].difficulty
  {
  }

  lemma KnownBefore(db: Db, genesis: Header, headers: seq<Header>, i: nat)
    requires ParentClosed(db.headers, genesis) && Contiguous(headers) && i < |headers| && WellLinked(headers[0])
    ensures i > 0 && HashOf(headers[i]) in db.headers ==> HashOf(headers[i - 1]) in db.headers
    ensures db.GetHeader(HashOf(headers[i]), headers[i].number) != None <==> HashOf(headers[i]) in db.headers
  {
  }

  class HeaderChain {
    const genesis: Header
    var db: Db
    var current: Header
    var currentHash: Hash

    /** Open the header chain of a store that has a genesis. The head is at first the header
        of the head block; the block chain corrects it where the headers are ahead. */
    constructor (db: Db)
      requires db.GetHeader(db.CanonicalHash(0), 0).Some?
      ensures this.db == db && Some(genesis) == db.GetHeader(db.CanonicalHash(0), 0) && currentHash == HashOf(current)
      ensures current == if db.headBlock in db.headers then db.headers[db.headBlock] else genesis
      ensures forall head :: Consistent(db, genesis, head) && db.headBlock == db.headHeader == HashOf(head) ==>
                Valid() && current == head
    {
      var first := db.GetHeader(db.CanonicalHash(0), 0).value;
      var head := if db.headBlock in db.headers then db.headers[db.headBlock] else first;
      this.db, genesis, current, currentHash := db, first, head, HashOf(head);
      new;
      forall h | Consistent(db, genesis, h) && db.headBlock == HashOf(h)
        ensures current == h
      {
        assert InPlace(db.headers, genesis, HashOf(h));
      }
    }

    /** The store is consistent with the current header, which the markers name. */
    ghost predicate Valid()
      reads this
    {
      Consistent(db, genesis, current) && currentHash == HashOf(current) && db.headHeader == currentHash
    }

    /** The ancestor of a header some steps back. */
    method GetAncestor(hash: Hash, number: nat, ancestor: nat, maxNonCanonical: nat) returns (r: Hash, n: nat, left: nat)
      requires Valid()
      ensures AncestorFound(db, Query(hash, number, ancestor, maxNonCanonical), r, n, left)
    {
      hide Consistent, AncestorFound, Db.GetHeader;
      var q := Query(hash, number, ancestor, maxNonCanonical);
      ParentOnly(db, genesis, current, q);
      if ancestor > number {
        return NoHash, 0, maxNonCanonical;
      }
      if ancestor == 1 {
        match db.GetHeader(hash, number) {
          case None => return NoHash, 0, maxNonCanonical;
          case Some(header) => return header.parentHash, number - 1, maxNonCanonical;
        }
      }
      r, n, left := Walk(db, genesis, current, q);
    }

    /** Store a contiguous run of headers whose parent is known. Each gets the sum of the
        difficulties along its ancestry, and `inserted` counts exactly those that were not
        yet stored: skipping known headers only while their parents were known too leaves
        none out. */
    method WriteHeaders(headers: seq<Header>, interrupted: bool) returns (inserted: nat, err: Option<ChainError>)
      requires Valid() && Contiguous(headers) && (headers != [] ==> WellLinked(headers[0]))
      modifies this`db
      ensures Valid()
      ensures err == if headers != [] && headers[0].parentHash !in old(db).headers then Some(UnknownAncestor)
                     else if headers != [] && interrupted then Some(Aborted) else None
      ensures err != None ==> db == old(db) && inserted == 0
      ensures err == None ==>
                && db == old(db).(headers := db.headers, tds := db.tds)
                && db.headers.Keys == old(db).headers.Keys + HashesOf(headers)
                && inserted == |db.headers| - |old(db).headers|
    {
      if headers == [] {
        return 0, None;
      }
      var ptd := db.GetTd(headers[0].parentHash, headers[0].number - 1);
      if ptd == None {
        return 0, Some(UnknownAncestor);
      }
      var batch;
      inserted, batch := StoreBatch(db, genesis, headers, ptd.value);
      if interrupted {
        return 0, Some(Aborted);
      }
      db := Flush(db, batch);
      assert headers[..|headers|] == headers;
      return inserted, None;
    }

    /** Make the canonical chain the one of the last of `headers`. It fails, changing
        nothing, exactly when the parent of the first is not stored. */
    method Reorg(headers: seq<Header>) returns (err: Option<ChainError>)
      requires Valid() && Contiguous(headers) && (headers != [] ==> WellLinked(headers[0]))
      modifies this`db, this`current, this`currentHash
      ensures err != None <==> headers != [] && headers[0].number > 0 && headers[0].parentHash !in old(db).headers
      ensures err != None || headers == [] ==> unchanged(this)
      ensures err == None && headers != [] ==>
                && current == headers[|headers| - 1] && currentHash == HashOf(current)
                && IsChainOf(db.canon, current)
                && db == old(db).(canon := db.canon, headHeader := currentHash)
      ensures headers == [] || HashOf(headers[|headers| - 1]) in db.headers ==> Valid()
    {
      if headers == [] {
        return None;
      }
      var last := headers[|headers| - 1];
      ContiguousChain(headers, |headers| - 1);
      var batch: seq<Write>;
      batch, err := ReorgBatch(db, genesis, current, currentHash, headers);
      if err == None {
        db := Flush(db, batch);
        currentHash := HashOf(last);
        current := last;
      }
    }

    /** Store a run of headers and make the last of them the head if the fork choice says so.
        The head is heavier than before or at least as heavy, until the terminal total
        difficulty is reached; a last header that is canonical already is left in place. */
    method WriteHeadersAndSetHead(headers: seq<Header>, interrupted: bool, ttd: Option<int>, c: Contest)
        returns (status: WriteStatus, err: Option<ChainError>)
      requires Valid() && Contiguous(headers) && headers != [] && WellLinked(headers[0])
      requires c.number == headers[|headers| - 1].number && c.headNumber == current.number
      modifies this`db, this`current, this`currentHash
      ensures Valid()
      ensures err == if headers[0].parentHash !in old(db).headers then Some(UnknownAncestor)
                     else if interrupted then Some(Aborted) else None
      ensures err != None ==> unchanged(this) && status == NonStatTy
      ensures err == None ==>
                var last := headers[|headers| - 1];
                var wins := ReorgNeeded(Some(TotalDifficulty(old(current))), Some(TotalDifficulty(last)), ttd, c) == Some(true);
                && db.headers.Keys == old(db).headers.Keys + HashesOf(headers)
                && current == (if wins && !old(IsCanonical(last)) then last else old(current))
                && status == (if wins && !old(IsCanonical(last)) then CanonStatTy
                              else if !wins && db.headers.Keys != old(db).headers.Keys then SideStatTy else NonStatTy)
      ensures Terminal(ttd, TotalDifficulty(current)) || TotalDifficulty(old(current)) <= TotalDifficulty(current)
      ensures status == CanonStatTy <==> current != old(current)
      ensures current == old(current) || (current == headers[|headers| - 1] && !old(IsCanonical(headers[|headers| - 1])))
      ensures err == None && !old(IsCanonical(headers[|headers| - 1])) ==>
                var last := headers[|headers| - 1];
                var local, extern := TotalDifficulty(old(current)), TotalDifficulty(last);
                && (Terminal(ttd, extern) || extern > local ==> current == last)
                && (!Terminal(ttd, extern) && extern < local ==> current == old(current))
                && (!Terminal(ttd, extern) && extern == local ==>
                      && current.number <= old(current).number && (last.number < old(current).number ==> current == last)
                      && (last.number == old(current).number ==>
                            (current == last <==> !c.currentPreserve && (c.externPreserve || c.coin))))
    {
      hide Contiguous, WellLinked, HashesOf, ReorgNeeded, TotalDifficulty, Consistent, Terminal;
      ghost var current0, db0 := current, db;
      HeadIsCanonical(db, genesis, current);
      status, err := StoreAndChoose(headers, interrupted, ttd, c);
      var last := headers[|headers| - 1];
      if err == None {
        ContestDecides(TotalDifficulty(current0), TotalDifficulty(last), ttd, c, current0, last,
                       db0.CanonicalHash(last.number) == HashOf(last), current);
      }
    }

    method StoreAndChoose(headers: seq<Header>, interrupted: bool, ttd: Option<int>, c: Contest)
        returns (status: WriteStatus, err: Option<ChainError>)
      requires Valid() && Contiguous(headers) && headers != [] && WellLinked(headers[0])
      requires c.number == headers[|headers| - 1].number && c.headNumber == current.number
      modifies this`db, this`current, this`currentHash
      ensures Valid()
      ensures err == if headers[0].parentHash !in old(db).headers then Some(UnknownAncestor)
                     else if interrupted then Some(Aborted) else None
      ensures err != None ==> unchanged(this) && status == NonStatTy
      ensures err == None ==>
                var last := headers[|headers| - 1];
                var wins := ReorgNeeded(Some(TotalDifficulty(old(current))), Some(TotalDifficulty(last)), ttd, c) == Some(true);
                && db.headers.Keys == old(db).headers.Keys + HashesOf(headers)
                && current == (if wins && !old(IsCanonical(last)) then last else old(current))
                && status == (if wins && !old(IsCanonical(last)) then CanonStatTy
                              else if !wins && db.headers.Keys != old(db).headers.Keys then SideStatTy else NonStatTy)
      ensures Terminal(ttd, TotalDifficulty(current)) || TotalDifficulty(old(current)) <= TotalDifficulty(current)
    {
      hide Contiguous, WellLinked, HashesOf, ReorgNeeded, ParentClosed, IsChainOf, TotalDifficulty;
      ghost var db0 := db;
      var inserted;
      inserted, err := WriteHeaders(headers, interrupted);
      if err != None {
        return NonStatTy, err;
      }
      var last := headers[|headers| - 1];
      LastStored(db0, db, headers);
      ChainFacts(db, genesis, current);
      assert inserted != 0 <==> db.headers.Keys != db0.headers.Keys by {
        GrownBy(db0.headers, db.headers);
      }
      ContestSettled(TotalDifficulty(current), TotalDifficulty(last), ttd, c);
      var wins := ReorgNeeded(db.GetTd(currentHash, current.number), db.GetTd(HashOf(last), last.number), ttd, c);
      if wins == None {
        return NonStatTy, Some(MissingTd);
      }
      if !wins.value {
        return if inserted != 0 then SideStatTy else NonStatTy, None;
      }
      if db.CanonicalHash(last.number) == HashOf(last) && last.number <= current.number {
        return NonStatTy, None;
      }
      err := Reorg(headers);
      status := CanonStatTy;
    }

    /** Any run of imports below the terminal total difficulty, interrupted or not and whatever
        ties are drawn: the head never gets lighter, nor higher without getting heavier. */
    method ImportAll(imports: seq<Import>, ttd: Option<int>)
      requires Valid()
      requires forall i :: 0 <= i < |imports| ==> imports[i].Fits(ttd)
      modifies this`db, this`current, this`currentHash
      ensures Valid() && TotalDifficulty(old(current)) <= TotalDifficulty(current)
      ensures TotalDifficulty(old(current)) == TotalDifficulty(current) ==> current.number <= old(current).number
    {
      hide Consistent, TotalDifficulty, WellLinked, Contiguous, HashesOf, ReorgNeeded;
      for i := 0 to |imports|
        invariant Valid() && TotalDifficulty(old(current)) <= TotalDifficulty(current)
        invariant TotalDifficulty(old(current)) == TotalDifficulty(current) ==> current.number <= old(current).number
      {
        var x := imports[i];
        assert x.Fits(ttd);
        var contest := Contest(x.headers[|x.headers| - 1].number, current.number, x.currentPreserve, x.externPreserve, x.coin);
        var status, err := WriteHeadersAndSetHead(x.headers, x.interrupted, ttd, contest);
      }
    }

    /** The header is on the canonical chain. */
    ghost predicate IsCanonical(h: Header)
      reads this
    {
      db.CanonicalHash(h.number) == HashOf(h)
    }
  }

  /** A run of headers to import, and what is drawn for its contest with the head. */
  datatype Import = Import(headers: seq<Header>, interrupted: bool, currentPreserve: bool, externPreserve: bool, coin: bool) {
    ghost predicate Fits(ttd: Option<int>) {
      headers != [] && Contiguous(headers) && WellLinked(headers[0]) && !Terminal(ttd, TotalDifficulty(headers[|headers| - 1]))
    }
  }

  lemma ContestSettled(localTd: int, externTd: int, ttd: Option<int>, c: Contest)
    ensures var r := ReorgNeeded(Some(localTd), Some(externTd), ttd, c);
            r != None && (r.value && !Terminal(ttd, externTd) ==> localTd <= externTd)
  {
  }

  lemma HeadIsCanonical(db: Db, genesis: Header, current: Header)
    requires Consistent(db, genesis, current)
    ensures db.CanonicalHash(current.number) == HashOf(current)
  {
    assert Ancestor(current, current.number) == current;
  }

  /** What the fork choice means for the head when `last` wins unless it is canonical already. */
  lemma ContestDecides(localTd: int, externTd: int, ttd: Option<int>, c: Contest, head: Header, last: Header, canonical: bool,
                       head': Header)
    requires c.number == last.number && c.headNumber == head.number
    requires head' == if ReorgNeeded(Some(localTd), Some(externTd), ttd, c) == Some(true) && !canonical then last else head
    ensures !canonical && (Terminal(ttd, externTd) || externTd > localTd) ==> head' == last
    ensures !canonical && !Terminal(ttd, externTd) && externTd < localTd ==> head' == head
    ensures !canonical && !Terminal(ttd, externTd) && externTd == localTd && last != head ==>
              && head'.number <= head.number && (last.number < head.number ==> head' == last)
              && (last.number == head.number ==> (head' == last <==> !c.currentPreserve && (c.externPreserve || c.coin)))
  {
  }

  datatype WriteStatus = NonStatTy | CanonStatTy | SideStatTy

  lemma LastStored(before: Db, after: Db, headers: seq<Header>)
    requires headers != [] && after.headers.Keys == before.headers.Keys + HashesOf(headers)
    ensures HashOf(headers[|headers| - 1]) in after.headers
  {
  }

  lemma GrownBy(before: map<Hash, Header>, after: map<Hash, Header>)
    requires before.Keys <= after.Keys
    ensures |after| == |before| <==> after.Keys == before.Keys
  {
    assert after.Keys == before.Keys + (after.Keys - before.Keys);
    assert |after.Keys| == |before.Keys| + |after.Keys - before.Keys|;
  }
}
