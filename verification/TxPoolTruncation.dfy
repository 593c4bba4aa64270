/** Truncation of the pending and queue lists (truncatePending and truncateQueue in
    core/tx_pool.go): what their loops keep true. */
module TxPoolTruncation {
  import opened Transactions
  import opened TxPoolModel

  ghost predicate Distinct(s: seq<Address>) {
    forall i, j :: 0 <= i < j < |s| ==> s[i] != s[j]
  }

  /** A high roller: a non-local account with more pending transactions than it is allowed. */
  ghost predicate Spams(p: Lists, locals: set<Address>, slots: nat, a: Address) {
    a in p && a !in locals && LenAt(p, a) > slots
  }

  /** The high rollers are those still queued by priority and those already penalised. */
  ghost predicate Ledger(p: Lists, locals: set<Address>, slots: nat, spammers: map<Address, nat>, offenders: seq<Address>) {
    && Distinct(offenders)
    && (forall a :: a in spammers || a in offenders <==> Spams(p, locals, slots, a))
    && (forall a :: a in spammers ==> a !in offenders && spammers[a] == LenAt(p, a))
  }

  /** Every list of `offs` has length `n`. */
  ghost predicate AllAt(p: Lists, offs: seq<Address>, n: nat) {
    forall a :: a in offs ==> LenAt(p, a) == n
  }

  /** From `p` to `p'` the lists of `offs` have come down to length `n`, the others are as
      they were. */
  ghost predicate Levelled(p: Lists, p': Lists, offs: seq<Address>, n: nat) {
    forall a :: LenAt(p', a) == if a in offs then n else LenAt(p, a)
  }

  lemma NothingLevelled(p: Lists, offs: seq<Address>, n: nat)
    requires AllAt(p, offs, n)
    ensures Levelled(p, p, offs, n)
  {
  }

  lemma LevelledLens(p: Lists, p': Lists, offs: seq<Address>, n: nat)
    requires Levelled(p, p', offs, n) && offs != []
    ensures LenAt(p', offs[|offs| - 1]) == n
    ensures forall a :: a in offs ==> LenAt(p', a) == n
  {
  }

  lemma OneLevelDown(p: Lists, p1: Lists, p2: Lists, offs: seq<Address>, n: nat)
    requires Levelled(p, p1, offs, n) && n > 0
    requires forall a :: LenAt(p2, a) == LenAt(p1, a) - if a in offs then 1 else 0
    ensures Levelled(p, p2, offs, n - 1)
  {
  }

  /** `p` are the lists at the start and `p'` those now. Only offenders have become shorter,
      none has come down to its allowance, and none that has been cut is shorter than any
      other high roller. */
  ghost predicate Fair(p: Lists, p': Lists, slots: nat, spammers: map<Address, nat>, offenders: seq<Address>) {
    && (forall a :: a !in offenders ==> LenAt(p', a) == LenAt(p, a))
    && (forall a :: a in offenders ==> slots < LenAt(p', a) <= LenAt(p, a))
    && (forall a, b :: a in offenders && b in spammers ==> spammers[b] <= LenAt(p', a))
    && (forall a, b :: a in offenders && b in offenders && LenAt(p', a) < LenAt(p, a) ==> LenAt(p', b) <= LenAt(p', a))
  }

  /** Taking the worst of the remaining high rollers as the next offender. */
  lemma NextOffender(p: Lists, locals: set<Address>, slots: nat, spammers: map<Address, nat>, offenders: seq<Address>, a: Address)
    requires Ledger(p, locals, slots, spammers, offenders) && a in spammers
    ensures Ledger(p, locals, slots, spammers - {a}, offenders + [a])
  {
  }

  /** Cutting all earlier offenders down towards the next one keeps things fair. */
  lemma EqualisingIsFair(p: Lists, p1: Lists, p2: Lists, locals: set<Address>, slots: nat,
                         spammers: map<Address, nat>, offenders: seq<Address>, next: Address, n: nat)
    requires Ledger(p, locals, slots, spammers, offenders) && Fair(p, p1, slots, spammers, offenders)
    requires next in spammers && forall b :: b in spammers ==> spammers[b] <= spammers[next]
    requires Levelled(p1, p2, offenders, n) && spammers[next] <= n
    requires forall a :: a in offenders ==> n <= LenAt(p1, a)
    ensures Fair(p, p2, slots, spammers - {next}, offenders + [next])
  {
  }

  /** What the caller is promised: within the limit or every non-local account within its
      allowance; nobody cut below the allowance, nobody else touched, and nobody who was
      cut left with less than another non-local account. */
  ghost predicate Truncated(p: Lists, p': Lists, locals: set<Address>, slots: nat, global: nat, total: nat) {
    && (total <= global || forall a :: a !in locals ==> LenAt(p', a) <= slots)
    && (forall a :: !Spams(p, locals, slots, a) ==> LenAt(p', a) == LenAt(p, a))
    && (forall a :: Spams(p, locals, slots, a) ==> slots <= LenAt(p', a) <= LenAt(p, a))
    && (forall a, b :: LenAt(p', a) < LenAt(p, a) && b !in locals ==> LenAt(p', b) <= LenAt(p', a))
  }

  lemma WithinLimit(p: Lists, locals: set<Address>, slots: nat, global: nat, total: nat)
    requires total <= global
    ensures Truncated(p, p, locals, slots, global, total)
  {
  }

  /** The equalising loop has brought the total within the limit. */
  lemma EqualisedIsTruncated(p: Lists, p': Lists, locals: set<Address>, slots: nat, global: nat, total: nat,
                             spammers: map<Address, nat>, offenders: seq<Address>)
    requires Ledger(p, locals, slots, spammers, offenders) && Fair(p, p', slots, spammers, offenders)
    requires total <= global || (offenders == [] && spammers == map[])
    ensures Truncated(p, p', locals, slots, global, total)
  {
  }

  /** All high rollers have been cut evenly, to the limit or to their allowance. */
  lemma ReducedIsTruncated(p: Lists, p1: Lists, p2: Lists, locals: set<Address>, slots: nat, global: nat, total: nat,
                           offenders: seq<Address>, n: nat)
    requires Ledger(p, locals, slots, map[], offenders) && Fair(p, p1, slots, map[], offenders)
    requires Levelled(p1, p2, offenders, n) && slots <= n && (total > global ==> n == slots)
    requires forall a :: a in offenders ==> n <= LenAt(p1, a)
    ensures Truncated(p, p2, locals, slots, global, total)
  {
  }

  function HighRollers(p: Lists, locals: set<Address>, slots: nat): map<Address, nat> {
    map a | a in p && a !in locals && |p[a].items| > slots :: |p[a].items|
  }

  lemma AtTheStart(p: Lists, locals: set<Address>, slots: nat)
    ensures Ledger(p, locals, slots, HighRollers(p, locals, slots), [])
    ensures Fair(p, p, slots, HighRollers(p, locals, slots), [])
  {
  }

  /** The next offender still has the length it is queued under, and all earlier ones have
      at least that. */
  lemma NextIsNoLonger(p: Lists, p': Lists, locals: set<Address>, slots: nat, spammers: map<Address, nat>,
                       offenders: seq<Address>, next: Address)
    requires Ledger(p, locals, slots, spammers, offenders) && Fair(p, p', slots, spammers, offenders)
    requires p'.Keys == p.Keys && next in spammers
    ensures next in p' && |p'[next].items| == LenAt(p', next) == spammers[next] > slots
    ensures forall a :: a in offenders ==> spammers[next] <= LenAt(p', a)
    ensures next !in offenders && Distinct(offenders)
  {
  }

  lemma AllAtNext(p: Lists, p': Lists, offenders: seq<Address>, next: Address, n: nat)
    requires Levelled(p, p', offenders, n) && next !in offenders && LenAt(p, next) == n
    ensures AllAt(p', offenders + [next], LenAt(p', next)) && LenAt(p', next) == n
  {
  }

  lemma OffendersAreLonger(p: Lists, p': Lists, locals: set<Address>, slots: nat, spammers: map<Address, nat>, offenders: seq<Address>)
    requires Ledger(p, locals, slots, spammers, offenders) && Fair(p, p', slots, spammers, offenders)
    ensures Distinct(offenders) && forall a :: a in offenders ==> slots < LenAt(p', a) && Spams(p, locals, slots, a)
    ensures forall a :: !Spams(p, locals, slots, a) ==> a !in offenders
  {
  }

  lemma EvenlyLong(p: Lists, offenders: seq<Address>, n: nat)
    requires AllAt(p, offenders, n)
    ensures forall a :: a in offenders ==> LenAt(p, a) == n
  {
  }

  function BeatOf(beats: map<Address, int>, a: Address): int {
    if a in beats then beats[a] else 0
  }

  /** The evictable accounts, youngest heartbeat first. */
  ghost predicate AgeOrder(order: seq<Address>, q: Lists, locals: set<Address>, beats: map<Address, int>) {
    && Distinct(order)
    && (forall a :: a in order <==> a in q && a !in locals)
    && forall i, j :: 0 <= i < j < |order| ==> BeatOf(beats, order[i]) >= BeatOf(beats, order[j])
  }

  lemma EachOnce(order: seq<Address>, q: Lists, locals: set<Address>, beats: map<Address, int>)
    requires AgeOrder(order, q, locals, beats)
    ensures Distinct(order)
  {
  }

  /** The accounts from position `k` of the order on have been emptied, but for the one at
      `k` itself when nothing is left to drop; everything before and all else is as it was. */
  ghost predicate EvictedFrom(q: Lists, q': Lists, order: seq<Address>, k: nat, left: nat) {
    && k <= |order|
    && (forall i :: k < i < |order| ==> ItemsAt(q', order[i]) == map[])
    && (k < |order| && left > 0 ==> ItemsAt(q', order[k]) == map[])
    && (k < |order| ==> IsCut(ItemsAt(q, order[k]), ItemsAt(q', order[k])))
    && (forall a :: a !in order[k..] ==> ItemsAt(q', a) == ItemsAt(q, a))
  }

  /** What the caller is promised: the excess is gone or every evictable account is empty;
      local accounts keep everything, every other keeps its lowest nonces; an account loses
      something only when all older ones have lost everything; and no two are left with a
      part of what they had. */
  ghost predicate QueueTruncated(q: Lists, q': Lists, locals: set<Address>, beats: map<Address, int>, limit: nat, total: nat) {
    && (total == limit || (total > limit && forall a :: a !in locals ==> ItemsAt(q', a) == map[]))
    && (forall a :: a in locals ==> ItemsAt(q', a) == ItemsAt(q, a))
    && AllCut(q, q')
    && (forall a, b ::
          a !in locals && b !in locals && BeatOf(beats, a) < BeatOf(beats, b) && ItemsAt(q', b) != ItemsAt(q, b) ==>
            ItemsAt(q', a) == map[])
    && (forall a, b :: PartlyLeft(q, q', a) && PartlyLeft(q, q', b) ==> a == b)
  }

  ghost predicate PartlyLeft(q: Lists, q': Lists, a: Address) {
    ItemsAt(q', a) != ItemsAt(q, a) && ItemsAt(q', a) != map[]
  }

  lemma EvictionIsOrderly(q: Lists, q': Lists, locals: set<Address>, beats: map<Address, int>, limit: nat, total: nat,
                          order: seq<Address>, k: nat, left: nat)
    requires AgeOrder(order, q, locals, beats) && EvictedFrom(q, q', order, k, left)
    requires total == limit + left && (left == 0 || k == 0)
    ensures QueueTruncated(q, q', locals, beats, limit, total)
  {
  }

  lemma NothingEvicted(q: Lists, order: seq<Address>, left: nat)
    ensures EvictedFrom(q, q, order, |order|, left)
  {
  }

  /** The oldest account not yet looked at is emptied or, at the end, cut. */
  lemma OneMoreEvicted(q: Lists, q1: Lists, q2: Lists, order: seq<Address>, k: nat, left: nat, left': nat)
    requires Distinct(order) && 0 < k <= |order| && EvictedFrom(q, q1, order, k, left) && left > 0
    requires forall a :: a != order[k - 1] ==> ItemsAt(q2, a) == ItemsAt(q1, a)
    requires IsCut(ItemsAt(q1, order[k - 1]), ItemsAt(q2, order[k - 1]))
    requires left' > 0 ==> ItemsAt(q2, order[k - 1]) == map[]
    ensures EvictedFrom(q, q2, order, k - 1, left')
  {
  }
}
