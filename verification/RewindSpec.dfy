/** What a rewind (setHeadBeyondRoot in core/blockchain.go) is to do: the heads and markers at
    every height on the way down, as functions of what it finds in the beginning. */
module RewindSpecs {
  import opened Wrappers
  import opened Chains
  import opened HeaderChains
  import opened BlockChains

  /** The three stored heads name data that is present, and neither block head is above the
      header head. */
  ghost predicate MarkersPresent(db: Db) {
    && db.headHeader in db.headers && BlockPresent(db, db.headBlock) && BlockPresent(db, db.headFast)
    && db.headers[db.headBlock].number <= db.headers[db.headHeader].number
    && db.headers[db.headFast].number <= db.headers[db.headHeader].number
  }

  /** Bodies belong to stored headers, and genesis has one. */
  ghost predicate BodiesFiled(db: Db, genesis: Header) {
    db.bodies <= db.headers.Keys && HashOf(genesis) in db.bodies
  }

  /** Data, total difficulties and bodies belong together. */
  ghost predicate Filed(db: Db, genesis: Header) {
    ParentClosed(db.headers, genesis) && TdsExact(db.tds, db.headers) && BodiesFiled(db, genesis)
  }

  /** The markers name these two heads. */
  ghost predicate MarkHeads(db: Db, block: Header, fast: Header) {
    db.headBlock == HashOf(block) && db.headFast == HashOf(fast)
  }

  /** The two block heads are no higher than `header`, and present. */
  ghost predicate HeadsBelow(db: Db, header: Header, block: Header, fast: Header) {
    && BlockPresent(db, HashOf(block)) && block.number <= header.number
    && BlockPresent(db, HashOf(fast)) && fast.number <= header.number
  }

  function WithHeads(db: Db, heads: Db): Db {
    db.(headHeader := heads.headHeader, headFast := heads.headFast, headBlock := heads.headBlock, states := heads.states)
  }

  ghost predicate SameButHeads(base: Db, db: Db) {
    db == WithHeads(base, db)
  }

  /** The block to go back to from `block`: the first with state, or genesis when the pivot or
      a missing block comes first. */
  function StatefulFrom(db: Db, genesis: Header, block: Header, pivot: Option<nat>): Header
    decreases block.number
  {
    if block.root in db.states then block
    else if pivot != None && block.number <= pivot.value then genesis
    else match db.GetBlock(block.parentHash, block.number - 1)
      case None => genesis
      case Some(parent) => StatefulFrom(db, genesis, parent, pivot)
  }

  /** The full-block head after going down to `header`. */
  function NewHead(db: Db, genesis: Header, header: Header, pivot: Option<nat>): Header {
    if BlockPresent(db, HashOf(header)) then StatefulFrom(db, genesis, header, pivot) else genesis
  }

  /** The states after going down to `header`: those of genesis are put back when it becomes the
      head, but not when that is because the body of `header` is missing. */
  function NewStates(db: Db, genesis: Header, header: Header, pivot: Option<nat>): set<nat> {
    if BlockPresent(db, HashOf(header)) && StatefulFrom(db, genesis, header, pivot) == genesis then db.states + {genesis.root}
    else db.states
  }

  predicate IsBelow(hash: Hash, n: nat) {
    hash.HashOf? && hash.header.number < n
  }

  function Lower<V>(m: map<Hash, V>, n: nat): map<Hash, V> {
    map hash | hash in m && IsBelow(hash, n) :: m[hash]
  }

  /** The store without everything that is numbered `n` or higher. */
  function Purged(db: Db, n: nat): Db {
    db.(canon := map k | k in db.canon && k < n :: db.canon[k],
        headers := Lower(db.headers, n), tds := Lower(db.tds, n), bodies := set hash | hash in db.bodies && IsBelow(hash, n))
  }

  /** A rewind: the store and the heads it finds, and the number of the sync pivot. */
  datatype Rewind = Rewind(base: Db, genesis: Header, start: Header, block0: Header, fast0: Header, pivot: Option<nat>) {
    /** The chain is consistent, and its block heads are present and no higher than its header
        head. */
    ghost predicate Valid() {
      && Filed(base, genesis) && IsChainOf(base.canon, start) && HashOf(start) in base.headers
      && base.headHeader == HashOf(start) && MarkHeads(base, block0, fast0) && HeadsBelow(base, start, block0, fast0)
    }

    ghost function At(n: nat): (h: Header)
      requires Valid() && n <= start.number
      ensures WellLinked(h) && h.number == n
    {
      Ancestor(start, n)
    }

    ghost predicate Present(n: nat)
      requires Valid() && n <= start.number
    {
      BlockPresent(base, HashOf(At(n)))
    }

    ghost predicate Stateful(n: nat)
      requires Valid() && n <= start.number
    {
      At(n).root in base.states
    }

    /** The highest header that the full-block head comes down to, or -1. */
    function Top(): int {
      if block0.number < start.number then block0.number else start.number - 1
    }

    /** No body is missing where the full-block head goes. */
    ghost predicate NoGap()
      requires Valid()
    {
      forall n: nat :: n <= Top() ==> Present(n)
    }

    /** No block above `low` up to `high`, down to the pivot, has state. */
    ghost predicate NoneAbove(low: nat, high: nat)
      requires Valid() && high <= start.number
    {
      forall n: nat :: low < n <= high && (pivot == None || pivot.value <= n) ==> !Stateful(n)
    }

    /** From the top down to `lo` no body is missing, and none stateless from the pivot down. */
    ghost predicate Passable(lo: nat)
      requires Valid()
    {
      forall n: nat :: lo <= n <= Top() ==> Present(n) && (pivot != None && n <= pivot.value ==> Stateful(n))
    }

    /** The first missing body on the way is met with the head just above it. */
    ghost predicate GapAt(n: nat)
      requires Valid() && n <= Top()
    {
      !Present(n) && Passable(n + 1) && (n < Top() ==> Stateful(n + 1))
    }

    /** The full-block head is genesis without state: it had none in the beginning, and the way
        down to `n` came upon a missing body. */
    ghost predicate Forgotten(n: nat)
      requires Valid()
    {
      n > 0 && genesis.root !in base.states && exists m: nat :: n <= m <= Top() && GapAt(m)
    }

    /** The full-block head when the header head has come down to `n`. */
    ghost function BlockAt(n: nat): Header
      requires Valid() && n <= start.number
    {
      if n > Top() then block0
      else if Passable(n) then StatefulFrom(base, genesis, At(n), pivot)
      else genesis
    }

    ghost function StatesAt(n: nat): set<nat>
      requires Valid() && n <= start.number
    {
      if n <= Top() && BlockAt(n) == genesis && !Forgotten(n) then base.states + {genesis.root} else base.states
    }

    /** The fast head then. */
    ghost function FastAt(n: nat): Header
      requires Valid() && n <= start.number
    {
      if n >= fast0.number then fast0
      else if forall m: nat :: n <= m < fast0.number ==> Present(m) then At(n)
      else genesis
    }

    /** The store then, while nothing has been deleted yet. */
    ghost function MarkedAt(n: nat): Db
      requires Valid() && n <= start.number
    {
      base.(headHeader := HashOf(At(n)), headBlock := HashOf(BlockAt(n)), headFast := HashOf(FastAt(n)), states := StatesAt(n))
    }

    /** The store after write number `i` on the way down. Going down one header takes two: the
        state of genesis, should it be needed, and the markers in one batch. */
    ghost function Written(i: nat): Db
      requires Valid() && i / 2 < start.number
    {
      var n := start.number - i / 2 - 1;
      if i % 2 == 0 then MarkedAt(n + 1).(states := StatesAt(n)) else MarkedAt(n)
    }

    /** The number at which a rewind to `head` ends. */
    function Target(head: nat): nat {
      if head < start.number then head else start.number
    }

    /** The store after a rewind to `head`: all that was above is gone, side chains included. */
    ghost function Final(head: nat): Db
      requires Valid()
    {
      WithHeads(if head < start.number then Purged(base, head + 1) else base, MarkedAt(Target(head)))
    }

    /** All the stores of a rewind, one after every single write: the markers go down step by
        step, and the deletions are written last and at once. */
    ghost predicate IsTrace(trace: seq<Db>, head: nat)
      requires Valid()
    {
      && |trace| == 2 * (start.number - Target(head)) + 1
      && (forall i: nat :: i < |trace| - 1 ==> trace[i] == Written(i))
      && trace[|trace| - 1] == Final(head)
    }
  }

  lemma ValidFacts(r: Rewind)
    requires r.Valid()
    ensures WellLinked(r.start) && Filed(r.base, r.genesis) && ParentClosed(r.base.headers, r.genesis)
    ensures BodiesFiled(r.base, r.genesis) && HashOf(r.start) in r.base.headers
    ensures r.block0.number <= r.start.number && r.fast0.number <= r.start.number
  {
  }

  /** The headers of the chain are stored, each the parent of the one above. */
  lemma AtStored(r: Rewind, n: nat)
    requires r.Valid() && n <= r.start.number
    ensures HashOf(r.At(n)) in r.base.headers && r.base.headers[HashOf(r.At(n))] == r.At(n)
    ensures r.At(0) == r.genesis && r.Present(0) && r.genesis.number == 0
    ensures n > 0 ==> r.At(n).parentHash == HashOf(r.At(n - 1))
    ensures r.At(r.start.number) == r.start
  {
    ValidFacts(r);
    AncestorStored(r.base.headers, r.genesis, r.start, n);
    FiledAt(r.base.headers, r.genesis, HashOf(r.At(n)));
    FiledAt(r.base.headers, r.genesis, HashOf(r.genesis));
    if n > 0 {
      AncestorStep(r.start, n - 1);
    }
  }

  /** One step of the search on the chain. */
  lemma StatefulStep(r: Rewind, n: nat)
    requires r.Valid() && n <= r.start.number
    ensures StatefulFrom(r.base, r.genesis, r.At(n), r.pivot) ==
            if r.Stateful(n) then r.At(n)
            else if n == 0 || (r.pivot != None && n <= r.pivot.value) || !r.Present(n - 1) then r.genesis
            else StatefulFrom(r.base, r.genesis, r.At(n - 1), r.pivot)
  {
    hide Rewind.Valid, Ancestor, WellLinked;
    AtStored(r, n);
    if n > 0 {
      AtStored(r, n - 1);
    }
  }

  /** What the search finds is a block of the chain with state, or genesis; and it is not below the
      pivot, unless the search starts there or gives up. */
  lemma {:induction false} StatefulFound(r: Rewind, n: nat)
    requires r.Valid() && n <= r.start.number
    ensures var block := StatefulFrom(r.base, r.genesis, r.At(n), r.pivot);
            && block.number <= n && block == r.At(block.number)
            && (r.Present(n) ==> r.Present(block.number)) && (r.Stateful(block.number) || block == r.genesis)
            && (block.number == n || block == r.genesis || r.pivot == None || r.pivot.value <= block.number)
    decreases n
  {
    hide Rewind.Valid, Rewind.Present, Rewind.At, StatefulFrom;
    StatefulStep(r, n);
    AtStored(r, 0);
    if n > 0 {
      StatefulFound(r, n - 1);
    }
  }

  /** The search looks at headers, bodies and states only. */
  lemma {:induction false} SearchAlike(db: Db, db': Db, genesis: Header, block: Header, pivot: Option<nat>)
    requires db.headers == db'.headers && db.bodies == db'.bodies && db.states == db'.states
    ensures StatefulFrom(db, genesis, block, pivot) == StatefulFrom(db', genesis, block, pivot)
    decreases block.number
  {
    match db.GetBlock(block.parentHash, block.number - 1) {
      case None =>
      case Some(parent) => SearchAlike(db, db', genesis, parent, pivot);
    }
  }

  lemma PassableBelow(r: Rewind, n: nat)
    requires r.Valid() && n <= r.Top()
    ensures r.Passable(n) <==> r.Passable(n + 1) && r.Present(n) && (r.pivot != None && n <= r.pivot.value ==> r.Stateful(n))
    ensures n == r.Top() ==> r.Passable(n + 1)
  {
    hide Rewind.Valid, Rewind.Present, Rewind.Stateful;
  }

  /** A gap met below makes genesis the head without state; one passed over does not. */
  lemma ForgottenBelow(r: Rewind, n: nat)
    requires r.Valid() && n <= r.Top()
    ensures r.Forgotten(n) <==> n > 0 && r.genesis.root !in r.base.states && (r.GapAt(n) || r.Forgotten(n + 1))
  {
    hide Rewind.Valid, Rewind.GapAt;
    if m: nat :| n <= m <= r.Top() && r.GapAt(m) {
      assert m == n || n + 1 <= m;
    }
  }

  lemma NotForgottenIfPassable(r: Rewind, n: nat)
    requires r.Valid() && n <= r.start.number && r.Passable(n)
    ensures !r.Forgotten(n)
  {
    hide Rewind.Valid, Rewind.Present, Rewind.Stateful;
  }

  lemma ForgottenLacks(r: Rewind, n: nat)
    requires r.Valid() && r.Forgotten(n)
    ensures n > 0 && r.genesis.root !in r.base.states
  {
  }

  /** The final full-block head lacks its state exactly if the state of genesis was forgotten. */
  lemma StateIffNotForgotten(r: Rewind, n: nat)
    requires r.Valid() && n <= r.start.number && n <= r.Top()
    ensures r.BlockAt(n).root !in r.StatesAt(n) <==> r.Forgotten(n)
    ensures r.Forgotten(n) ==> r.BlockAt(n) == r.genesis
  {
    hide Rewind.Valid, Rewind.Present, Rewind.At, Rewind.Passable, Rewind.Forgotten, StatefulFrom;
    if r.Passable(n) {
      NotForgottenIfPassable(r, n);
      StatefulFound(r, n);
    } else {
      if r.Forgotten(n) {
        ForgottenLacks(r, n);
      }
    }
  }

  /** The step from `n + 1` to `n` makes these the full-block head and the states. */
  ghost predicate BlockStep(r: Rewind, n: nat)
    requires r.Valid() && n < r.start.number
  {
    var db, header, block := r.MarkedAt(n + 1), r.At(n), r.BlockAt(n + 1);
    && r.BlockAt(n) == (if n <= block.number then NewHead(db, r.genesis, header, r.pivot) else block)
    && r.StatesAt(n) == (if n <= block.number then NewStates(db, r.genesis, header, r.pivot) else db.states)
  }

  /** What a landing at `n` in the untouched states does. */
  lemma Landing(r: Rewind, n: nat)
    requires r.Valid() && n <= r.Top() && n < r.start.number && r.Passable(n + 1) && (n < r.Top() ==> r.Stateful(n + 1))
    ensures r.BlockAt(n) == NewHead(r.base, r.genesis, r.At(n), r.pivot)
    ensures r.StatesAt(n) == NewStates(r.base, r.genesis, r.At(n), r.pivot)
  {
    hide Rewind.Valid, Rewind.At, Rewind.Passable, Rewind.Forgotten, StatefulFrom;
    PassableBelow(r, n);
    StatefulStep(r, n);
    ForgottenBelow(r, n);
    NotForgottenIfPassable(r, n + 1);
    AtStored(r, n);
    AtStored(r, 0);
    if r.genesis.root in r.base.states {
      assert r.base.states + {r.genesis.root} == r.base.states;
    }
  }

  /** With a block head other than genesis, the states are untouched. */
  lemma StepFromBlock(r: Rewind, n: nat)
    requires r.Valid() && n < r.Top() && n < r.start.number && r.BlockAt(n + 1) != r.genesis
    ensures BlockStep(r, n)
  {
    hide Rewind.Valid, Rewind.At, Rewind.Passable, Rewind.Forgotten, StatefulFrom;
    SearchAlike(r.base, r.MarkedAt(n + 1), r.genesis, r.At(n), r.pivot);
    if r.Stateful(n + 1) {
      StatefulStep(r, n + 1);
      Landing(r, n);
    } else {
      StatelessAbove(r, n);
    }
  }

  lemma StatelessAbove(r: Rewind, n: nat)
    requires r.Valid() && n < r.Top() && n < r.start.number && r.BlockAt(n + 1) != r.genesis && !r.Stateful(n + 1)
    ensures r.Passable(n + 1) && r.BlockAt(n + 1) == StatefulFrom(r.base, r.genesis, r.At(n), r.pivot) == r.BlockAt(n)
    ensures r.Present(n)
  {
    hide Rewind.Valid, Rewind.At, Rewind.Forgotten, Rewind.Present, StatefulFrom;
    PassableBelow(r, n);
    PassableBelow(r, n + 1);
    StatefulStep(r, n + 1);
    StatefulStep(r, n);
  }

  /** With genesis as the block head, the next landing is on genesis. */
  lemma StepFromGenesis(r: Rewind, n: nat)
    requires r.Valid() && n < r.Top() && n < r.start.number && r.BlockAt(n + 1) == r.genesis
    ensures BlockStep(r, n)
  {
    hide Rewind.Valid, Rewind.At, Rewind.Passable, Rewind.Forgotten, StatefulFrom;
    AtStored(r, 0);
    GenesisStays(r, n);
    if n == 0 {
      OnlyGenesisThere(r.MarkedAt(1), r.genesis, r.pivot);
      assert r.base.states + {r.genesis.root} + {r.genesis.root} == r.base.states + {r.genesis.root};
      ForgottenAbove(r);
    }
  }

  lemma ForgottenAbove(r: Rewind)
    requires r.Valid()
    ensures !r.Forgotten(0)
  {
  }

  lemma OnlyGenesisThere(db: Db, genesis: Header, pivot: Option<nat>)
    requires genesis.number == 0
    ensures StatefulFrom(db, genesis, genesis, pivot) == genesis
  {
  }

  lemma GenesisStays(r: Rewind, n: nat)
    requires r.Valid() && n < r.Top() && n < r.start.number && r.BlockAt(n + 1) == r.genesis
    ensures r.BlockAt(n) == r.genesis
    ensures n > 0 ==> (r.Forgotten(n) <==> r.Forgotten(n + 1))
  {
    hide Rewind.Valid, Rewind.At, Rewind.Forgotten, Rewind.Present, StatefulFrom;
    PassableBelow(r, n);
    PassableBelow(r, n + 1);
    ForgottenBelow(r, n);
    StatefulStep(r, n + 1);
    StatefulStep(r, n);
    AtStored(r, 0);
    assert r.At(n + 1).number == n + 1;
    if r.Forgotten(n + 1) {
      ForgottenLacks(r, n + 1);
    }
  }

  /** Every step of a rewind, heads and states. */
  lemma StepDown(r: Rewind, n: nat)
    requires r.Valid() && n < r.start.number
    ensures BlockStep(r, n)
    ensures var fast := r.FastAt(n + 1);
            r.FastAt(n) == if n >= fast.number then fast else if r.Present(n) then r.At(n) else r.genesis
  {
    hide Rewind.Valid, Rewind.Present, Rewind.Passable, Rewind.Forgotten, StatefulFrom;
    FastStep(r, n);
    if n < r.Top() {
      if r.BlockAt(n + 1) == r.genesis {
        StepFromGenesis(r, n);
      } else {
        StepFromBlock(r, n);
      }
    } else if n == r.Top() {
      PassableBelow(r, n);
      SearchAlike(r.base, r.MarkedAt(n + 1), r.genesis, r.At(n), r.pivot);
      Landing(r, n);
    }
  }

  lemma FastStep(r: Rewind, n: nat)
    requires r.Valid() && n < r.start.number
    ensures var fast := r.FastAt(n + 1);
            r.FastAt(n) == if n >= fast.number then fast else if r.Present(n) then r.At(n) else r.genesis
  {
    hide Rewind.Valid, Rewind.Present;
    AtStored(r, n);
  }

  lemma {:induction false} NoneWithStatePassed(r: Rewind, n: nat)
    requires r.Valid() && n <= r.start.number && n <= r.Top() && r.NoGap()
    ensures r.NoneAbove(StatefulFrom(r.base, r.genesis, r.At(n), r.pivot).number, n)
    decreases n
  {
    hide Rewind.Valid, Rewind.Present, Rewind.At, Rewind.Stateful, StatefulFrom;
    StatefulStep(r, n);
    AtStored(r, 0);
    assert r.At(n).number == n;
    if n > 0 {
      NoneWithStatePassed(r, n - 1);
    }
  }

  /** When no body is missing, the full-block head is the highest block of the chain, down to
      the pivot, that had state. */
  lemma HighestWithState(r: Rewind, n: nat)
    requires r.Valid() && n <= r.start.number && n <= r.Top() && r.NoGap()
    ensures var block := r.BlockAt(n);
            && block.number <= n && block == r.At(block.number) && block.root in r.StatesAt(n) && r.NoneAbove(block.number, n)
            && (block.number == n || block == r.genesis || r.pivot == None || r.pivot.value <= block.number)
  {
    hide Rewind.Valid, Rewind.Present, Rewind.At, Rewind.Stateful, Rewind.Forgotten, StatefulFrom;
    NoGapNeverForgotten(r, n);
    StateIffNotForgotten(r, n);
    AtStored(r, 0);
    if r.Passable(n) {
      StatefulFound(r, n);
      NoneWithStatePassed(r, n);
    }
  }

  lemma NoGapNeverForgotten(r: Rewind, n: nat)
    requires r.Valid() && r.NoGap()
    ensures !r.Forgotten(n)
  {
    hide Rewind.Valid, Rewind.Present;
  }

  /** On the way down the two block heads stay present and no higher than the header head. */
  lemma HeadsStayBelow(r: Rewind, n: nat)
    requires r.Valid() && n <= r.start.number
    ensures HeadsBelow(r.base, r.At(n), r.BlockAt(n), r.FastAt(n))
  {
    hide Rewind.Valid, Rewind.At, Rewind.Forgotten, StatefulFrom;
    ValidHeads(r);
    AtStored(r, 0);
    FastPresent(r, n);
    if n <= r.Top() && r.Passable(n) {
      StatefulFound(r, n);
    }
  }

  lemma ValidHeads(r: Rewind)
    requires r.Valid()
    ensures HeadsBelow(r.base, r.start, r.block0, r.fast0)
  {
  }

  lemma FastPresent(r: Rewind, n: nat)
    requires r.Valid() && n <= r.start.number
    ensures r.FastAt(n).number <= n && BlockPresent(r.base, HashOf(r.FastAt(n)))
  {
    hide Rewind.Valid, Rewind.At;
    ValidHeads(r);
    AtStored(r, 0);
    assert r.Present(n) <==> BlockPresent(r.base, HashOf(r.At(n)));
  }

  /** Heads that are present and named by the markers make the markers good. */
  lemma NamedHeadsPresent(base: Db, db: Db, genesis: Header, header: Header, block: Header, fast: Header)
    requires Filed(base, genesis) && SameButHeads(base, db)
    requires HashOf(header) in db.headers && HeadsBelow(db, header, block, fast)
    requires db.headHeader == HashOf(header) && MarkHeads(db, block, fast)
    ensures MarkersPresent(db)
  {
  }

  /** So after every single write the markers name data that is present. */
  lemma MarkersStayPresent(r: Rewind, i: nat)
    requires r.Valid() && i / 2 < r.start.number
    ensures MarkersPresent(r.Written(i)) && SameButHeads(r.base, r.Written(i))
  {
    hide Rewind.Valid, Rewind.At, Rewind.BlockAt, Rewind.FastAt, Rewind.StatesAt, Rewind.MarkedAt, MarkersPresent, SameButHeads;
    var n := r.start.number - i / 2 - 1;
    MarkedPresent(r, n, r.StatesAt(n));
    MarkedPresent(r, n + 1, r.StatesAt(n));
  }

  lemma MarkedPresent(r: Rewind, n: nat, states: set<nat>)
    requires r.Valid() && n <= r.start.number
    ensures var db := r.MarkedAt(n).(states := states);
            MarkersPresent(db) && SameButHeads(r.base, db)
    ensures var db := r.MarkedAt(n);
            MarkersPresent(db) && SameButHeads(r.base, db)
  {
    hide Rewind.Valid, Rewind.At, Rewind.BlockAt, Rewind.FastAt, Rewind.StatesAt, Filed, MarkersPresent;
    HeadsStayBelow(r, n);
    AtStored(r, n);
    ValidFacts(r);
    var db := r.MarkedAt(n);
    NamedHeadsPresent(r.base, db, r.genesis, r.At(n), r.BlockAt(n), r.FastAt(n));
    NamedHeadsPresent(r.base, db.(states := states), r.genesis, r.At(n), r.BlockAt(n), r.FastAt(n));
  }
}
