/** Indexing the canonical chain in sections (core/chain_indexer.go). The indexer gives up its
    lock while it processes a section, so chain and index may change under it. */
module ChainIndexers {
  import opened Wrappers
  import opened Chains

  /** The hash reached by following `steps` parent links; the zero hash past a genesis. */
  ghost function Back(hash: Hash, steps: nat): Hash {
    if steps == 0 || hash == NoHash then hash else Back(hash.header.parentHash, steps - 1)
  }

  lemma BackOneMore(hash: Hash, steps: nat)
    requires hash != NoHash
    ensures Back(hash, steps + 1) == Back(hash.header.parentHash, steps)
  {
  }

  /** Where the processing of a section stands while the lock is not held. */
  datatype Job = Idle
               | Resetting(section: nat, oldHead: Hash)
               | Dropping
               | Processing(section: nat, oldHead: Hash, number: nat, lastHead: Hash)
               | Done(section: nat, oldHead: Hash, newHead: Hash)
               | Failed

  /** The head of a section, or the zero hash. */
  function HeadAt(heads: map<nat, Hash>, section: int): Hash {
    if section in heads then heads[section] else NoHash
  }

  /** The head of a section is its last header and descends from the previous section's by
      exactly one section of parent links. */
  ghost predicate LinkedAt(heads: map<nat, Hash>, size: nat, section: nat) {
    var head := HeadAt(heads, section);
    head != NoHash && head.header.number == (section + 1) * size - 1 && Back(head, size) == HeadAt(heads, section - 1)
  }

  /** From just below the checkpoint on, the heads of all stored sections are there, and from it
      on they are linked; there are none beyond them. A count below the checkpoint means that
      the index was reset, or the checkpoint added while an earlier section was processed. */
  ghost predicate IndexLinked(heads: map<nat, Hash>, stored: nat, checkpoint: nat, size: nat) {
    && (forall i: nat :: i in heads ==> i < stored && heads[i] != NoHash)
    && (forall i: nat :: checkpoint <= i < stored ==> LinkedAt(heads, size, i))
    && (forall i: nat :: i < stored && checkpoint <= i + 1 ==> i in heads)
  }

  /** What is known about a job: what it has processed is linked to the head it was started
      from, which only the first section lacks. */
  ghost predicate JobLinked(job: Job, size: nat) {
    match job
    case Idle => true
    case Dropping => true
    case Failed => true
    case Resetting(section, oldHead) => section == 0 <==> oldHead == NoHash
    case Processing(section, oldHead, number, lastHead) =>
      && (section == 0 <==> oldHead == NoHash)
      && section * size <= number <= (section + 1) * size && Back(lastHead, number - section * size) == oldHead
      && (number > section * size ==> lastHead != NoHash && lastHead.header.number == number - 1)
      && (number == section * size ==> lastHead == oldHead)
    case Done(section, oldHead, newHead) =>
      && (section == 0 <==> oldHead == NoHash)
      && newHead != NoHash && newHead.header.number == (section + 1) * size - 1 && Back(newHead, size) == oldHead
  }

  lemma {:induction false} BackIsWalk(h: Header, steps: nat)
    requires WellLinked(h) && steps <= h.number
    ensures Back(HashOf(h), steps) == HashOf(WalkBack(h, steps))
  {
    if steps > 0 {
      BackIsWalk(h.parentHash.header, steps - 1);
    }
  }

  lemma SectionBounds(section: nat, size: nat)
    ensures (section + 1) * size == section * size + size
  {
  }

  /** That the last stored head is canonical makes the heads of all sections canonical from
      just below the checkpoint on, provided the canonical map is a linked chain. */
  lemma {:induction false} LastHeadVouches(heads: map<nat, Hash>, stored: nat, checkpoint: nat, size: nat,
                                           canon: map<nat, Hash>, head: Header, i: nat)
    requires IndexLinked(heads, stored, checkpoint, size) && IsChainOf(canon, head) && size > 0
    requires checkpoint < stored && i < stored && checkpoint <= i + 1
    requires IsCanonical(heads, canon, size, stored - 1)
    ensures IsCanonical(heads, canon, size, i)
    decreases stored - i
  {
    if i < stored - 1 {
      LastHeadVouches(heads, stored, checkpoint, size, canon, head, i + 1);
      SectionBounds(i + 1, size);
      SectionBounds(i, size);
      OneSectionDown(heads, canon, head, size, i);
    }
  }

  ghost predicate IsCanonical(heads: map<nat, Hash>, canon: map<nat, Hash>, size: nat, section: nat)
    requires size > 0
  {
    var last := (section + 1) * size - 1;
    section in heads && last in canon && canon[last] == heads[section]
  }

  lemma OneSectionDown(heads: map<nat, Hash>, canon: map<nat, Hash>, head: Header, size: nat, i: nat)
    requires IsChainOf(canon, head) && size > 0 && IsCanonical(heads, canon, size, i + 1) && LinkedAt(heads, size, i + 1)
    requires i in heads
    ensures IsCanonical(heads, canon, size, i)
  {
    SectionBounds(i + 1, size);
    SectionBounds(i, size);
    var n: nat := (i + 2) * size - 1;
    BackIsWalk(Ancestor(head, n), size);
    WalkingIsAncestor(Ancestor(head, n), size);
    AncestorOfAncestor(head, n, n - size);
  }

  /** The chain database as the indexer sees it: canonical hashes, and headers by hash. */
  datatype ChainDb = ChainDb(canon: map<nat, Hash>, headers: set<Hash>) {
    function CanonicalHash(n: int): Hash {
      if n in canon then canon[n] else NoHash
    }

    function ReadHeader(hash: Hash, n: nat): Option<Header> {
      if hash in headers && hash.HashOf? && hash.header.number == n then Some(hash.header) else None
    }
  }

  /** The heads once the one of `section` is stored and is the last. */
  function WithLast(heads: map<nat, Hash>, section: nat, head: Hash): map<nat, Hash> {
    var more := heads[section := head];
    map i | i in more && i <= section :: more[i]
  }

  datatype Event = HeadEvent(head: nat, reorg: bool) | ChainChange(chain: ChainDb) | Query | LoopStep(ok: bool)
                 | Checkpoint(section: nat, shead: Hash)

  /** The number just past a section. */
  function EndOf(section: nat, size: nat): nat {
    (section + 1) * size
  }

  /** `n / size` is the number of whole sections in the first `n` blocks. */
  lemma SectionsUpTo(n: nat, size: nat)
    requires size > 0
    ensures n / size * size <= n
    ensures forall i: nat :: EndOf(i, size) <= n <==> i < n / size
  {
    var k: nat := n / size;
    assert k * size <= n < k * size + size;
    forall i: nat
      ensures EndOf(i, size) <= n <==> i < k
    {
      MulOrdered(i + 1, k, size);
      MulOrdered(k + 1, i + 1, size);
      SectionBounds(k, size);
    }
  }

  lemma NextMultiple(n: nat, size: nat)
    requires size > 0
    ensures n / size * size <= n < (n / size + 1) * size
  {
  }

  function Least(a: int, b: int): int {
    if a <= b then a else b
  }

  lemma MulOrdered(a: nat, b: nat, size: nat)
    ensures a <= b ==> a * size <= b * size
  {
  }

  class ChainIndexer {
    const sectionSize: nat
    const confirmsReq: nat
    var chain: ChainDb
    var heads: map<nat, Hash>
    var storedSections: nat
    var knownSections: nat
    var cascadedHead: int
    var checkpointSections: nat
    var checkpointHead: Hash
    var job: Job

    ghost predicate Valid()
      reads this
    {
      && sectionSize > 0
      && IndexLinked(heads, storedSections, checkpointSections, sectionSize)
      && JobLinked(job, sectionSize)
      && LastThere()
    }

    /** The head of the last stored section is there, except while all are being dropped. */
    ghost predicate LastThere()
      reads this
    {
      storedSections > 0 && !job.Dropping? ==> storedSections - 1 in heads
    }

    /** Open an indexer over an index that was never started from a checkpoint. */
    constructor (sectionSize: nat, confirmsReq: nat, chain: ChainDb, heads: map<nat, Hash>, stored: nat)
      requires sectionSize > 0 && IndexLinked(heads, stored, 0, sectionSize)
      ensures Valid() && job == Idle && checkpointSections == knownSections == 0 && cascadedHead == 0
      ensures this.sectionSize == sectionSize && this.confirmsReq == confirmsReq && this.chain == chain
      ensures this.heads == heads && storedSections == stored && checkpointHead == NoHash
    {
      this.sectionSize, this.confirmsReq, this.chain := sectionSize, confirmsReq, chain;
      this.heads, storedSections, knownSections, cascadedHead := heads, stored, 0, 0;
      checkpointSections, checkpointHead, job := 0, NoHash, Idle;
    }

    /** Change the number of valid sections; the heads of sections reorged out are removed. */
    method SetValidSections(sections: nat)
      requires forall i: nat :: i in heads ==> i < storedSections || i < sections
      modifies this`storedSections, this`heads
      ensures storedSections == sections
      ensures heads == map i | i in old(heads) && i < sections :: old(heads)[i]
    {
      while storedSections > sections
        invariant storedSections >= sections || storedSections == old(storedSections)
        invariant forall i: nat :: i in heads <==> i in old(heads) && (i < storedSections || i < sections)
        invariant forall i: nat :: i in heads ==> heads[i] == old(heads)[i]
        decreases storedSections
      {
        storedSections := storedSections - 1;
        heads := heads - {storedSections};
      }
      storedSections := sections;
    }

    /** Start from a checkpoint, unless one at least as high or more sections are there. */
    method AddCheckpoint(section: nat, shead: Hash)
      requires Valid() && shead != NoHash
      modifies this`checkpointSections, this`checkpointHead, this`storedSections, this`heads
      ensures Valid()
      ensures old(checkpointSections) >= section + 1 || section < old(storedSections) ==> unchanged(this)
      ensures !(old(checkpointSections) >= section + 1 || section < old(storedSections)) ==>
                && checkpointSections == storedSections == section + 1 && checkpointHead == shead
                && heads == old(heads)[section := shead]
    {
      if checkpointSections >= section + 1 || section < storedSections {
        return;
      }
      checkpointSections := section + 1;
      checkpointHead := shead;
      heads := heads[section := shead];
      SetValidSections(section + 1);
    }

    /** Cut the index down to `sections`. */
    method CutTo(sections: nat)
      requires Valid() && sections <= storedSections && (checkpointSections <= sections || sections == 0)
      modifies this`storedSections, this`heads
      ensures Valid() && storedSections == sections
      ensures heads == map i | i in old(heads) && i < sections :: old(heads)[i]
    {
      SetValidSections(sections);
      assert forall i: nat :: i < sections ==> HeadAt(heads, i) == old(HeadAt(heads, i));
      assert forall i: nat :: checkpointSections <= i < sections && old(LinkedAt(heads, sectionSize, i)) ==>
          LinkedAt(heads, sectionSize, i);
    }

    function SectionHead(section: int): Hash
      reads this
    {
      HeadAt(heads, section)
    }

    /** Roll back while the last stored head is not canonical. Only such heads go; and if the
        canonical map is a linked chain, all that is left above the checkpoint is canonical,
        although only the last head was compared. */
    method VerifyLastHead()
      requires Valid()
      modifies this`storedSections, this`heads
      ensures Valid() && storedSections <= old(storedSections)
      ensures heads == map i | i in old(heads) && i < storedSections :: old(heads)[i]
      ensures forall i: nat :: storedSections <= i < old(storedSections) ==>
                old(HeadAt(heads, i)) != chain.CanonicalHash(EndOf(i, sectionSize) - 1)
      ensures old(storedSections) >= checkpointSections ==> storedSections >= checkpointSections
      ensures storedSections > checkpointSections ==>
                SectionHead(storedSections - 1) == chain.CanonicalHash(storedSections * sectionSize - 1) != NoHash
      ensures storedSections > checkpointSections ==> forall h :: IsChainOf(chain.canon, h) ==>
                AllCanonical(heads, chain.canon, sectionSize, checkpointSections, storedSections)
    {
      CutNothing();
      while storedSections > 0 && storedSections > checkpointSections
        invariant Valid() && storedSections <= old(storedSections)
        invariant heads == map i | i in old(heads) && i < storedSections :: old(heads)[i]
        invariant forall i: nat :: storedSections <= i < old(storedSections) ==>
                    old(HeadAt(heads, i)) != chain.CanonicalHash(EndOf(i, sectionSize) - 1)
        invariant old(storedSections) >= checkpointSections ==> storedSections >= checkpointSections
        decreases storedSections
      {
        if SectionHead(storedSections - 1) == chain.CanonicalHash(storedSections * sectionSize - 1) {
          forall h | IsChainOf(chain.canon, h)
            ensures AllCanonical(heads, chain.canon, sectionSize, checkpointSections, storedSections)
          {
            AllVouchedFor(heads, storedSections, checkpointSections, sectionSize, chain.canon, h);
          }
          return;
        }
        CutTo(storedSections - 1);
      }
    }

    /** The number of whole sections in the first `n` blocks, if the checkpoint is reached. */
    function WholeSections(n: nat): nat
      requires sectionSize > 0
      reads this
    {
      if n / sectionSize < checkpointSections then 0 else n / sectionSize
    }

    /** The sections known after a new head: those confirmed, once the chain has been seen to
        match the checkpoint. */
    function KnownAfter(head: nat, known: nat): nat
      requires sectionSize > 0
      reads this
    {
      var sections := if head >= confirmsReq then WholeSections(head + 1 - confirmsReq) else 0;
      var matches := chain.CanonicalHash(checkpointSections * sectionSize - 1) == checkpointHead;
      if sections > known && (known >= checkpointSections || matches) then sections else known
    }

    /** A new chain head, or the block that a reorganisation goes back to. After the latter no
        section above the checkpoint reaches past it; after the former only confirmed sections
        are known, and the first of them only if the synced chain has the checkpoint's head. */
    method NewHead(head: nat, reorg: bool) returns (update: bool)
      requires Valid()
      modifies this`storedSections, this`heads, this`knownSections, this`cascadedHead
      ensures Valid()
      ensures reorg ==> !update && knownSections == Least(old(knownSections), WholeSections(head + 1))
                        && cascadedHead == Least(old(cascadedHead), WholeSections(head + 1) * sectionSize)
                        && knownSections * sectionSize <= head + 1
      ensures reorg ==> storedSections <= old(storedSections)
                        && heads == (map i | i in old(heads) && i < storedSections :: old(heads)[i])
      ensures reorg ==> forall i: nat :: checkpointSections <= i < old(storedSections) ==>
                (EndOf(i, sectionSize) <= head + 1 <==> i < storedSections)
      ensures reorg && checkpointSections * sectionSize <= head + 1 ==>
                forall i: nat :: i < knownSections <==> i < old(knownSections) && EndOf(i, sectionSize) <= head + 1
      ensures reorg && checkpointSections * sectionSize > head + 1 ==> knownSections == 0
      ensures !reorg && !old(SeesCheckpoint(head)) ==> knownSections == old(knownSections)
      ensures !reorg && old(SeesCheckpoint(head)) ==> forall i: nat ::
                i < knownSections <==> i < old(knownSections) || EndOf(i, sectionSize) + confirmsReq <= head + 1
      ensures !reorg ==> heads == old(heads) && storedSections == old(storedSections) && cascadedHead == old(cascadedHead)
      ensures !reorg ==> (update <==> knownSections > old(knownSections)) && knownSections == KnownAfter(head, old(knownSections))
      ensures !reorg && update ==>
                && checkpointSections <= knownSections && knownSections * sectionSize + confirmsReq <= head + 1
                && (old(knownSections) < checkpointSections ==>
                      chain.CanonicalHash(checkpointSections * sectionSize - 1) == checkpointHead)
    {
      if reorg {
        WholeSectionsUpTo(head + 1);
        Revert(head);
        return false;
      }
      KnownIsConfirmed(head, knownSections);
      update := Advance(head);
    }

    /** The confirmed part of the chain covers the checkpoint, and matched it once or does now. */
    predicate SeesCheckpoint(head: nat)
      reads this
    {
      && checkpointSections * sectionSize + confirmsReq <= head + 1
      && (knownSections >= checkpointSections || chain.CanonicalHash(checkpointSections * sectionSize - 1) == checkpointHead)
    }

    lemma WholeSectionsUpTo(n: nat)
      requires sectionSize > 0
      ensures checkpointSections * sectionSize <= n ==> forall i: nat :: i < WholeSections(n) <==> EndOf(i, sectionSize) <= n
      ensures checkpointSections * sectionSize > n ==> WholeSections(n) == 0
    {
      SectionsUpTo(n, sectionSize);
      MulOrdered(checkpointSections, n / sectionSize, sectionSize);
      MulOrdered(n / sectionSize + 1, checkpointSections, sectionSize);
      NextMultiple(n, sectionSize);
    }

    lemma KnownIsConfirmed(head: nat, known: nat)
      requires sectionSize > 0 && known == knownSections
      ensures !SeesCheckpoint(head) ==> KnownAfter(head, known) == known
      ensures SeesCheckpoint(head) ==> forall i: nat ::
                i < KnownAfter(head, known) <==> i < known || EndOf(i, sectionSize) + confirmsReq <= head + 1
    {
      hide EndOf, ChainIndexer.WholeSections;
      SectionsNotEmpty();
      if head >= confirmsReq {
        var n := head + 1 - confirmsReq;
        WholeSectionsUpTo(n);
        var sections := WholeSections(n);
        assert SeesCheckpoint(head) ==> KnownAfter(head, known) == if sections > known then sections else known;
        forall i: nat | SeesCheckpoint(head)
          ensures i < KnownAfter(head, known) <==> i < known || EndOf(i, sectionSize) + confirmsReq <= head + 1
        {
          assert i < sections <==> EndOf(i, sectionSize) <= n;
        }
      } else {
        forall i: nat
          ensures EndOf(i, sectionSize) + confirmsReq > head + 1
        {
          assert EndOf(i, sectionSize) >= sectionSize;
        }
        assert KnownAfter(head, known) == known;
      }
    }

    lemma SectionsNotEmpty()
      requires sectionSize > 0
      ensures forall i: nat :: EndOf(i, sectionSize) >= sectionSize
    {
      forall i: nat
        ensures EndOf(i, sectionSize) >= sectionSize
      {
        MulOrdered(1, i + 1, sectionSize);
      }
    }

    method Revert(head: nat)
      requires Valid()
      modifies this`storedSections, this`heads, this`knownSections, this`cascadedHead
      ensures Valid() && knownSections * sectionSize <= head + 1
      ensures knownSections == Least(old(knownSections), WholeSections(head + 1))
      ensures cascadedHead == Least(old(cascadedHead), WholeSections(head + 1) * sectionSize)
      ensures storedSections <= old(storedSections) && heads == (map i | i in old(heads) && i < storedSections :: old(heads)[i])
      ensures forall i: nat :: checkpointSections <= i < old(storedSections) ==>
                (EndOf(i, sectionSize) <= head + 1 <==> i < storedSections)
    {
      var known := (head + 1) / sectionSize;
      SectionsUpTo(head + 1, sectionSize);
      var stored := known;
      if known < checkpointSections {
        known := 0;
      }
      if stored < checkpointSections {
        stored := checkpointSections;
      }
      if known < knownSections {
        knownSections := known;
      }
      MulOrdered(knownSections, (head + 1) / sectionSize, sectionSize);
      CutNothing();
      if stored < storedSections {
        CutTo(stored);
      }
      if known * sectionSize < cascadedHead {
        cascadedHead := known * sectionSize;
      }
    }

    method Advance(head: nat) returns (update: bool)
      requires Valid()
      modifies this`knownSections
      ensures Valid() && (update <==> knownSections > old(knownSections)) && knownSections == KnownAfter(head, old(knownSections))
      ensures update ==>
                && checkpointSections <= knownSections && knownSections * sectionSize + confirmsReq <= head + 1
                && (old(knownSections) < checkpointSections ==>
                      chain.CanonicalHash(checkpointSections * sectionSize - 1) == checkpointHead)
    {
      update := false;
      if head >= confirmsReq {
        var sections := (head + 1 - confirmsReq) / sectionSize;
        SectionsUpTo(head + 1 - confirmsReq, sectionSize);
        if sections < checkpointSections {
          sections := 0;
        }
        if sections > knownSections {
          if knownSections < checkpointSections {
            if chain.CanonicalHash(checkpointSections * sectionSize - 1) != checkpointHead {
              return;
            }
          }
          knownSections := sections;
          return true;
        }
      }
    }

    /** The update loop picks the next section, under the lock. */
    method Begin()
      requires Valid() && job == Idle
      modifies this`storedSections, this`heads, this`job
      ensures Valid() && storedSections <= old(storedSections)
      ensures knownSections <= old(storedSections) ==> job == Idle && heads == old(heads) && storedSections == old(storedSections)
      ensures knownSections > old(storedSections) ==>
                && job == Resetting(storedSections, SectionHead(storedSections - 1))
                && (storedSections > checkpointSections ==>
                      SectionHead(storedSections - 1) == chain.CanonicalHash(storedSections * sectionSize - 1))
    {
      if knownSections > storedSections {
        VerifyLastHead();
        var section := storedSections;
        var oldHead := if section > 0 then SectionHead(section - 1) else NoHash;
        job := Resetting(section, oldHead);
      }
    }

    /** The backend is reset; if it cannot be, all sections are to be given up. */
    method BackendReset(ok: bool)
      requires Valid() && job.Resetting?
      modifies this`job
      ensures Valid()
      ensures job == if ok then Processing(old(job).section, old(job).oldHead, old(job).section * sectionSize, old(job).oldHead)
                     else Dropping
    {
      SectionBounds(job.section, sectionSize);
      job := if ok then Processing(job.section, job.oldHead, job.section * sectionSize, job.oldHead) else Dropping;
    }

    /** Give up the last section, without the lock, so heads and checkpoints can come between. */
    method DropOne()
      requires Valid() && job.Dropping?
      modifies this`storedSections, this`heads, this`job
      ensures Valid()
      ensures old(storedSections) > 0 ==>
                && storedSections == old(storedSections) - 1 && job == Dropping
                && heads == map i | i in old(heads) && i < storedSections :: old(heads)[i]
      ensures old(storedSections) == 0 ==> storedSections == 0 && heads == map[] && job == Failed
    {
      if storedSections == 0 {
        job := Failed;
        return;
      }
      storedSections := storedSections - 1;
      heads := heads - {storedSections};
      assert forall i: nat :: i < storedSections ==> HeadAt(heads, i) == old(HeadAt(heads, i));
      assert forall i: nat :: checkpointSections <= i < storedSections && old(LinkedAt(heads, sectionSize, i)) ==>
          LinkedAt(heads, sectionSize, i);
    }

    /** Process one header, without the lock. It has to be the child of the one before, so a
        reorganisation in between is noticed. */
    method ProcessNext(ok: bool)
      requires Valid() && job.Processing? && job.number < (job.section + 1) * sectionSize
      modifies this`job
      ensures Valid()
      ensures var hash := chain.CanonicalHash(old(job).number);
              var header := chain.ReadHeader(hash, old(job).number);
              job == if ok && header.Some? && header.value.parentHash == old(job).lastHead
                     then old(job).(number := old(job).number + 1, lastHead := hash) else Failed
    {
      var hash := chain.CanonicalHash(job.number);
      if hash == NoHash {
        job := Failed;
        return;
      }
      var header := chain.ReadHeader(hash, job.number);
      if header == None || header.value.parentHash != job.lastHead || !ok {
        job := Failed;
        return;
      }
      BackOneMore(hash, job.number - job.section * sectionSize);
      job := job.(number := job.number + 1, lastHead := hash);
    }

    method Commit(ok: bool)
      requires Valid() && job.Processing? && job.number == (job.section + 1) * sectionSize
      modifies this`job
      ensures Valid() && job == if ok then Done(old(job).section, old(job).oldHead, old(job).lastHead) else Failed
    {
      SectionBounds(job.section, sectionSize);
      job := if ok then Done(job.section, job.oldHead, job.lastHead) else Failed;
    }

    /** The head that the job was started from is still stored. */
    predicate StillFits()
      reads this
    {
      job.Done? && (job.section == 0 || job.oldHead == SectionHead(job.section - 1))
    }

    /** Back under the lock: the section is stored exactly if the head it was started from is
        still stored, and it is then the last, even if a checkpoint beyond it was added in the
        meantime. Otherwise nothing is retried until further notice. */
    method Finish()
      requires Valid() && (job.Done? || job.Failed?)
      modifies this`storedSections, this`heads, this`knownSections, this`cascadedHead, this`job
      ensures Valid() && job == Idle
      ensures old(job.Done? && (job.section == 0 || job.oldHead == SectionHead(job.section - 1))) ==>
                && storedSections == old(job).section + 1 && knownSections == old(knownSections)
                && heads == WithLast(old(heads), old(job).section, old(job).newHead)
                && cascadedHead == storedSections * sectionSize - 1
      ensures !old(job.Done? && (job.section == 0 || job.oldHead == SectionHead(job.section - 1))) ==>
                && storedSections <= old(storedSections)
                && heads == (map i | i in old(heads) && i < storedSections :: old(heads)[i])
                && knownSections == storedSections && cascadedHead == old(cascadedHead)
      ensures !old(job.Done? && (job.section == 0 || job.oldHead == SectionHead(job.section - 1))) && storedSections > checkpointSections ==>
                SectionHead(storedSections - 1) == chain.CanonicalHash(storedSections * sectionSize - 1)
    {
      if StillFits() {
        StoreDone();
        cascadedHead := storedSections * sectionSize - 1;
      } else {
        VerifyLastHead();
        knownSections := storedSections;
      }
      job := Idle;
    }

    method StoreDone()
      requires Valid() && StillFits()
      modifies this`storedSections, this`heads
      ensures IndexLinked(heads, storedSections, checkpointSections, sectionSize) && LastThere()
      ensures storedSections == job.section + 1
      ensures heads == WithLast(old(heads), job.section, job.newHead)
    {
      heads := heads[job.section := job.newHead];
      SetValidSections(job.section + 1);
      assert forall i: nat :: i < job.section ==> HeadAt(heads, i) == old(HeadAt(heads, i));
      assert forall i: nat :: checkpointSections <= i < job.section && old(LinkedAt(heads, sectionSize, i)) ==>
          LinkedAt(heads, sectionSize, i);
    }

    /** What is stored, after verification. */
    method Sections() returns (stored: nat, last: int, head: Hash)
      requires Valid()
      modifies this`storedSections, this`heads
      ensures Valid() && stored == storedSections && last == stored * sectionSize - 1
      ensures stored > checkpointSections ==> head == chain.CanonicalHash(last) != NoHash
      ensures stored > checkpointSections ==> forall h :: IsChainOf(chain.canon, h) ==>
                AllCanonical(heads, chain.canon, sectionSize, checkpointSections, stored)
    {
      VerifyLastHead();
      return storedSections, storedSections * sectionSize - 1, SectionHead(storedSections - 1);
    }

    /** The next step of the update loop: a section is picked as long as one is known that is not
        stored, its headers are processed one by one, and it is stored or nothing is retried. */
    method Step(ok: bool)
      requires Valid()
      modifies this`storedSections, this`heads, this`knownSections, this`cascadedHead, this`job
      ensures Valid() && Follows(old(job), job, ok)
      ensures old(job == Idle && knownSections > storedSections) ==> job.Resetting? && job.section == storedSections
      ensures old(job == Idle && knownSections <= storedSections) ==> unchanged(this)
      ensures old(job).Done? || old(job).Failed? ==>
                || (old(job).Done? && storedSections == old(job).section + 1 && HeadAt(heads, old(job).section) == old(job).newHead)
                || knownSections == storedSections <= old(storedSections)
    {
      match job {
        case Idle => Begin();
        case Resetting(_, _) => BackendReset(ok);
        case Dropping => DropOne();
        case Processing(section, _, number, _) =>
          if number < (section + 1) * sectionSize {
            ProcessNext(ok);
          } else {
            Commit(ok);
          }
        case _ => Finish();
      }
    }

    /** What the job may become in one step, given whether backend and context allow it. */
    ghost predicate Follows(job: Job, job': Job, ok: bool)
      reads this`chain
    {
      match job
      case Idle => job' == Idle || job'.Resetting?
      case Resetting(section, oldHead) =>
        job' == if ok then Processing(section, oldHead, section * sectionSize, oldHead) else Dropping
      case Dropping => job' == Dropping || job' == Failed
      case Processing(section, oldHead, number, lastHead) =>
        if number < (section + 1) * sectionSize then
          var hash := chain.CanonicalHash(number);
          var header := chain.ReadHeader(hash, number);
          job' == if ok && header.Some? && header.value.parentHash == lastHead
                  then Processing(section, oldHead, number + 1, hash) else Failed
        else job' == if ok then Done(section, oldHead, lastHead) else Failed
      case _ => job' == Idle
    }

    /** Any interleaving of head notifications, changes of the chain, checkpoints, queries and
        steps of the update loop. Whenever a query returns sections above the checkpoint and the canonical
        map is a linked chain, they are all canonical. */
    method Run(events: seq<Event>) returns (stored: nat)
      requires Valid() && forall e :: e in events && e.Checkpoint? ==> e.shead != NoHash
      modifies this
      ensures Valid() && stored == storedSections
      ensures stored > checkpointSections ==> forall h :: IsChainOf(chain.canon, h) ==>
                AllCanonical(heads, chain.canon, sectionSize, checkpointSections, stored)
    {
      for i := 0 to |events|
        invariant Valid()
      {
        match events[i] {
          case HeadEvent(head, reorg) => var update := NewHead(head, reorg);
          case ChainChange(chain') => chain := chain';
          case Query => var stored', last, head := Sections();
          case LoopStep(ok) => Step(ok);
          case Checkpoint(section, shead) => AddCheckpoint(section, shead);
        }
      }
      var last, head;
      stored, last, head := Sections();
    }

    lemma CutNothing()
      requires Valid()
      ensures heads == map i | i in heads && i < storedSections :: heads[i]
    {
    }
  }

  lemma NothingIndexed()
    ensures IndexLinked(map[], 0, 0, 1)
  {
  }

  /** A checkpoint that is added while an earlier section is processed is given up when that
      section is done. */
  method CheckpointGivenUp() returns (index: ChainIndexer)
    ensures index.Valid() && index.job == Idle
    ensures index.checkpointSections == 6 && index.storedSections == 1 && index.heads.Keys == {0}
  {
    hide ChainIndexer.Valid, IndexLinked;
    var header := Header(NoHash, 0, 1, 0, [], 0);
    var hash := HashOf(header);
    NothingIndexed();
    index := new ChainIndexer(1, 0, ChainDb(map[0 := hash], {hash}), map[], 0);
    var update := index.NewHead(0, false);
    index.Begin();
    index.BackendReset(true);
    index.ProcessNext(true);
    index.Commit(true);
    index.AddCheckpoint(5, hash);
    index.Finish();
  }

  /** All sections from just below the checkpoint on are canonical. */
  ghost predicate AllCanonical(heads: map<nat, Hash>, canon: map<nat, Hash>, size: nat, checkpoint: nat, stored: nat)
    requires size > 0
  {
    forall i: nat :: i < stored && checkpoint <= i + 1 ==> IsCanonical(heads, canon, size, i)
  }

  lemma AllVouchedFor(heads: map<nat, Hash>, stored: nat, checkpoint: nat, size: nat, canon: map<nat, Hash>, head: Header)
    requires IndexLinked(heads, stored, checkpoint, size) && IsChainOf(canon, head) && size > 0 && checkpoint < stored
    requires HeadAt(heads, stored - 1) == if stored * size - 1 in canon then canon[stored * size - 1] else NoHash
    ensures AllCanonical(heads, canon, size, checkpoint, stored)
  {
    assert LinkedAt(heads, size, stored - 1);
    forall i: nat | i < stored && checkpoint <= i + 1
      ensures IsCanonical(heads, canon, size, i)
    {
      LastHeadVouches(heads, stored, checkpoint, size, canon, head, i);
    }
  }
}
