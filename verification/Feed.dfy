/** One-to-many subscriptions (event/feed.go): a sender and any number of subscribers share one
    array of select cases, of which the sender uses a shrinking prefix. */
module Feeds {
  /** A channel; the first select case of the array is the one that interrupts the sender. */
  type Chan = nat
  const REMOVE_SUB: Chan := 0

  /** What the holder of the send lock is doing. */
  datatype Phase = Unlocked | Locked | Trying(next: nat) | Selecting

  /** The index of the first case with the channel, or -1. */
  function Find(cases: seq<Chan>, channel: Chan): (index: int)
    ensures index == -1 <==> channel !in cases
    ensures index != -1 ==> 0 <= index < |cases| && cases[index] == channel && channel !in cases[..index]
  {
    if cases == [] then -1
    else if cases[0] == channel then 0
    else
      var rest := Find(cases[1..], channel);
      assert cases == [cases[0]] + cases[1..];
      assert rest != -1 ==> cases[..rest + 1] == [cases[0]] + cases[1..][..rest];
      if rest == -1 then -1 else rest + 1
  }

  /** One occurrence of the channel less. */
  function Less(channels: multiset<Chan>, channel: Chan): multiset<Chan> {
    channels - multiset{channel}
  }

  function Deleted(cases: seq<Chan>, index: nat): seq<Chan>
    requires index < |cases|
  {
    cases[..index] + cases[index + 1..]
  }

  /** The case at `index` and the last of the first `n` change places. */
  function Swapped(cases: seq<Chan>, index: nat, n: nat): seq<Chan>
    requires index < n <= |cases|
  {
    cases[index := cases[n - 1]][n - 1 := cases[index]]
  }

  lemma DeletedIs(cases: seq<Chan>, index: nat, shorter: seq<Chan>)
    requires index < |cases| == |shorter| + 1
    requires forall k :: 0 <= k < |shorter| ==> shorter[k] == cases[if k < index then k else k + 1]
    ensures shorter == Deleted(cases, index)
  {
  }

  lemma DeletedContents(cases: seq<Chan>, index: nat, lo: nat, hi: nat)
    requires lo <= index < hi <= |cases|
    ensures multiset(Deleted(cases, index)[lo..hi - 1]) == multiset(cases[lo..hi]) - multiset{cases[index]}
    ensures Deleted(cases, index)[hi - 1..] == cases[hi..]
    ensures lo > 0 ==> Deleted(cases, index)[0] == cases[0]
  {
    AroundIndex(cases, index, lo, hi);
    DeletedPart(cases, index, lo, hi);
    hide Deleted;
  }

  lemma AroundIndex(cases: seq<Chan>, index: nat, lo: nat, hi: nat)
    requires lo <= index < hi <= |cases|
    ensures cases[lo..hi] == cases[lo..index] + [cases[index]] + cases[index + 1..hi]
  {
  }

  lemma DeletedPart(cases: seq<Chan>, index: nat, lo: nat, hi: nat)
    requires lo <= index < hi <= |cases|
    ensures Deleted(cases, index)[lo..hi - 1] == cases[lo..index] + cases[index + 1..hi]
    ensures Deleted(cases, index)[hi - 1..] == cases[hi..]
    ensures lo > 0 ==> Deleted(cases, index)[0] == cases[0]
  {
    var left, right := Deleted(cases, index)[lo..hi - 1], cases[lo..index] + cases[index + 1..hi];
    assert |left| == |right|;
    forall k | 0 <= k < |left|
      ensures left[k] == right[k]
    {
      assert left[k] == Deleted(cases, index)[lo + k];
    }
    var after, rest := Deleted(cases, index)[hi - 1..], cases[hi..];
    assert |after| == |rest|;
    forall k | 0 <= k < |after|
      ensures after[k] == rest[k]
    {
      assert after[k] == Deleted(cases, index)[hi - 1 + k];
    }
  }

  lemma DeletedAbove(cases: seq<Chan>, index: nat, hi: nat)
    requires hi <= index < |cases|
    ensures Deleted(cases, index)[..hi] == cases[..hi]
    ensures multiset(Deleted(cases, index)[hi..]) == multiset(cases[hi..]) - multiset{cases[index]}
  {
    assert cases[hi..] == cases[hi..index] + [cases[index]] + cases[index + 1..];
    assert Deleted(cases, index)[hi..] == cases[hi..index] + cases[index + 1..];
  }

  lemma SwappedContents(cases: seq<Chan>, index: nat, n: nat)
    requires 0 < index < n <= |cases|
    ensures var cases' := Swapped(cases, index, n);
            && multiset(cases'[1..n - 1]) == multiset(cases[1..n]) - multiset{cases[index]}
            && multiset(cases'[n - 1..]) == multiset(cases[n..]) + multiset{cases[index]}
            && cases'[0] == cases[0]
  {
    assert Swapped(cases, index, n)[n - 1..] == [cases[index]] + cases[n..];
    SwappedPrefix(cases, index, n);
  }

  lemma SwappedPrefix(cases: seq<Chan>, index: nat, n: nat)
    requires 0 < index < n <= |cases|
    ensures multiset(Swapped(cases, index, n)[1..n - 1]) == multiset(cases[1..n]) - multiset{cases[index]}
  {
    var prefix, last := cases[1..n - 1], cases[n - 1];
    assert cases[1..n] == prefix + [last];
    if index == n - 1 {
      assert Swapped(cases, index, n)[1..n - 1] == prefix;
    } else {
      assert Swapped(cases, index, n)[1..n - 1] == prefix[index - 1 := last];
      assert multiset(prefix[index - 1 := last]) == multiset(prefix) - multiset{cases[index]} + multiset{last};
    }
  }

  /** The subscriptions are exactly those of the inbox and of the cases, and everybody who
      waits to be removed is among the cases. */
  ghost predicate Accounted(cases: seq<Chan>, inbox: seq<Chan>, live: multiset<Chan>, waiting: multiset<Chan>) {
    && |cases| >= 1 && cases[0] == REMOVE_SUB && REMOVE_SUB !in cases[1..]
    && multiset(inbox) + multiset(cases[1..]) == live && REMOVE_SUB !in live
    && waiting <= multiset(cases[1..])
  }

  /** The first `active` cases are those of the send still to be served. Of the channels it
      started with, each is still active, has been delivered to, or was removed while active. */
  ghost predicate SendAccounted(cases: seq<Chan>, active: nat, nsent: nat, send: Delivery) {
    && 1 <= active <= |cases|
    && send.started == send.delivered + send.revoked + multiset(cases[1..active])
    && multiset(cases[active..]) <= send.delivered
    && nsent == |send.delivered|
  }

  /** What a send started with, what it delivered to, and what was removed too early for it. */
  datatype Delivery = Delivery(started: multiset<Chan>, delivered: multiset<Chan>, revoked: multiset<Chan>)

  /** The send after one more delivery. */
  ghost function Served(send: Delivery, channel: Chan): Delivery {
    send.(delivered := send.delivered + multiset{channel})
  }

  predicate Sending(phase: Phase) {
    phase.Trying? || phase.Selecting?
  }

  lemma InboxLeft(cases: seq<Chan>, inbox: seq<Chan>, live: multiset<Chan>, waiting: multiset<Chan>, channel: Chan)
    requires Accounted(cases, inbox, live, waiting) && channel in inbox
    ensures Accounted(cases, Deleted(inbox, Find(inbox, channel)), Less(live, channel), waiting)
  {
    OneLess(inbox, Find(inbox, channel));
    hide Find, Deleted;
  }

  lemma OneLess(channels: seq<Chan>, index: nat)
    requires index < |channels|
    ensures multiset(Deleted(channels, index)) == multiset(channels) - multiset{channels[index]}
    ensures channels[index] in multiset(channels)
  {
    assert channels == channels[..index] + [channels[index]] + channels[index + 1..];
  }

  /** Whoever is not in the inbox is among the cases, with all those who wait already. */
  lemma WaitBegun(cases: seq<Chan>, inbox: seq<Chan>, live: multiset<Chan>, waiting: multiset<Chan>, channel: Chan)
    requires Accounted(cases, inbox, live, waiting) && channel !in inbox && live[channel] > waiting[channel]
    ensures Accounted(cases, inbox, live, waiting + multiset{channel})
  {
  }

  ghost predicate Consistent(cases: seq<Chan>, inbox: seq<Chan>, live: multiset<Chan>, waiting: multiset<Chan>,
                             phase: Phase, active: nat, nsent: nat, send: Delivery) {
    && Accounted(cases, inbox, live, waiting)
    && (Sending(phase) ==> SendAccounted(cases, active, nsent, send))
    && (phase.Trying? ==> phase.next >= 1)
  }

  /** A subscription leaves the cases. */
  lemma CaseRemoved(cases: seq<Chan>, inbox: seq<Chan>, live: multiset<Chan>, waiting: multiset<Chan>, channel: Chan)
    requires Accounted(cases, inbox, live, waiting) && channel in waiting
    ensures var index := Find(cases, channel);
            && 1 <= index < |cases| && channel in cases
            && Accounted(Deleted(cases, index), inbox, Less(live, channel), Less(waiting, channel))
  {
    assert channel in cases[1..];
    var index := Find(cases, channel);
    CasesLeft(cases, index);
  }

  lemma CasesLeft(cases: seq<Chan>, index: nat)
    requires 1 <= index < |cases|
    ensures multiset(Deleted(cases, index)[1..]) == multiset(cases[1..]) - multiset{cases[index]}
    ensures Deleted(cases, index)[0] == cases[0]
    ensures forall c :: c in Deleted(cases, index)[1..] ==> c in cases[1..]
  {
    DeletedContents(cases, index, 1, |cases|);
    assert cases[1..|cases|] == cases[1..];
    assert Deleted(cases, index)[1..|cases| - 1] == Deleted(cases, index)[1..];
    forall c | c in Deleted(cases, index)[1..]
      ensures c in cases[1..]
    {
      assert c in multiset(cases[1..]);
    }
  }

  /** A removal during a send takes one case from the active prefix, or one already served. */
  lemma SendSurvivesRemoval(cases: seq<Chan>, active: nat, nsent: nat, send: Delivery, index: nat)
    requires SendAccounted(cases, active, nsent, send) && 1 <= index < |cases|
    ensures index < active ==>
              SendAccounted(Deleted(cases, index), active - 1, nsent, send.(revoked := send.revoked + multiset{cases[index]}))
    ensures index >= active ==> SendAccounted(Deleted(cases, index), active, nsent, send)
  {
    if index < active {
      DeletedContents(cases, index, 1, active);
      assert cases[index] in cases[1..active];
    } else {
      DeletedAbove(cases, index, active);
      assert Deleted(cases, index)[1..active] == Deleted(cases, index)[..active][1..];
      assert cases[1..active] == cases[..active][1..];
    }
  }

  /** The send after a channel has gone: it counts as removed too early if it was still active. */
  ghost function RevokedFrom(cases: seq<Chan>, active: nat, send: Delivery, channel: Chan): Delivery {
    if active <= |cases| && channel in cases[..active] then send.(revoked := send.revoked + multiset{channel}) else send
  }

  lemma RemovedWhileSending(cases: seq<Chan>, inbox: seq<Chan>, live: multiset<Chan>, waiting: multiset<Chan>,
                            active: nat, nsent: nat, send: Delivery, channel: Chan)
    requires Consistent(cases, inbox, live, waiting, Selecting, active, nsent, send) && channel in waiting
    ensures var index := Find(cases, channel);
            && 1 <= index < |cases|
            && Consistent(Deleted(cases, index), inbox, Less(live, channel), Less(waiting, channel), Trying(1),
                          if index < active then active - 1 else active, nsent, RevokedFrom(cases, active, send, channel))
  {
    hide Accounted;
    CaseRemoved(cases, inbox, live, waiting, channel);
    FirstFound(cases, channel, active);
    SendSurvivesRemoval(cases, active, nsent, send, Find(cases, channel));
  }

  /** A channel takes the value, and its case leaves the active prefix. */
  lemma Deactivated(cases: seq<Chan>, active: nat, nsent: nat, send: Delivery, index: nat)
    requires SendAccounted(cases, active, nsent, send) && 1 <= index < active
    ensures SendAccounted(Swapped(cases, index, active), active - 1, nsent + 1, Served(send, cases[index]))
  {
    SwappedContents(cases, index, active);
    assert cases[index] in cases[1..active];
  }

  lemma SwapAccounted(cases: seq<Chan>, inbox: seq<Chan>, live: multiset<Chan>, waiting: multiset<Chan>, index: nat, n: nat)
    requires Accounted(cases, inbox, live, waiting) && 1 <= index < n <= |cases|
    ensures Accounted(Swapped(cases, index, n), inbox, live, waiting)
  {
  }

  /** `n` channels got the value, and of those the send started with the others were removed. */
  ghost predicate IsAccount(send: Delivery, n: nat) {
    n == |send.delivered| && send.started == send.delivered + send.revoked
  }

  /** The channel at `index` got the value: one more delivery, and one active case less, namely its
      own, which comes right after the active ones. */
  ghost predicate IsServed(cases: seq<Chan>, active: nat, nsent: nat, send: Delivery,
                           cases': seq<Chan>, active': nat, nsent': nat, send': Delivery, index: nat)
    requires index < |cases|
  {
    && nsent' == nsent + 1 && send' == send.(delivered := send.delivered + multiset{cases[index]})
    && active' == active - 1 && 1 <= active' < |cases| == |cases'| && active <= |cases| && cases'[active'] == cases[index]
    && multiset(cases'[1..active']) + multiset{cases[index]} == multiset(cases[1..active])
    && cases'[active..] == cases[active..]
  }

  lemma ServedBySwap(cases: seq<Chan>, active: nat, nsent: nat, send: Delivery, index: nat)
    requires 0 < index < active <= |cases|
    ensures IsServed(cases, active, nsent, send, Swapped(cases, index, active), active - 1, nsent + 1, Served(send, cases[index]), index)
  {
    SwappedContents(cases, index, active);
    assert cases[1..active][index - 1] == cases[index];
  }

  /** What a feed is between two steps, its array as a sequence. */
  datatype FeedState = FeedState(cases: seq<Chan>, inbox: seq<Chan>, live: multiset<Chan>, waiting: multiset<Chan>,
                                 phase: Phase, active: nat, nsent: nat, send: Delivery)

  datatype Event = Subscribing(channel: Chan) | Unsubscribing(channel: Chan) | Removal(channel: Chan)
                 | SendStep(ready: bool) | SelectOne(index: nat)

  /** The case at `index` is served. */
  ghost function WithServed(s: FeedState, index: nat): FeedState {
    if index < s.active <= |s.cases| then
      s.(cases := Swapped(s.cases, index, s.active), active := s.active - 1, nsent := s.nsent + 1,
         send := Served(s.send, s.cases[index]))
    else s
  }

  /** The first case with the channel is gone, and one subscription with it. */
  ghost function WithRemoved(s: FeedState, channel: Chan): FeedState {
    var index := Find(s.cases, channel);
    if index == -1 then s else
    s.(cases := Deleted(s.cases, index), live := Less(s.live, channel), waiting := Less(s.waiting, channel))
  }

  /** A removal that interrupts a send. */
  ghost function WithRevoked(s: FeedState, channel: Chan): FeedState {
    var index := Find(s.cases, channel);
    WithRemoved(s, channel).(active := if 0 <= index < s.active then s.active - 1 else s.active,
                             send := RevokedFrom(s.cases, s.active, s.send, channel), phase := Trying(1))
  }

  ghost function WithUnsubscribed(s: FeedState, channel: Chan): FeedState {
    var index := Find(s.inbox, channel);
    if index != -1 then s.(inbox := Deleted(s.inbox, index), live := Less(s.live, channel))
    else s.(waiting := s.waiting + multiset{channel})
  }

  /** The next step of the sender. */
  ghost function AfterSendStep(s: FeedState, ready: bool): FeedState {
    match s.phase
    case Unlocked => s.(phase := Locked)
    case Locked =>
      var cases := s.cases + s.inbox;
      s.(cases := cases, inbox := [], active := |cases|, nsent := 0, phase := Trying(1),
         send := Delivery(s.live, multiset{}, multiset{}))
    case Selecting => s
    case Trying(next) =>
      if next < s.active then (if ready then WithServed(s, next) else s.(phase := Trying(next + 1)))
      else s.(phase := if s.active != 1 then Selecting else Unlocked)
  }

  /** What an event does; what cannot happen in a state does nothing. */
  ghost function Next(s: FeedState, event: Event): FeedState {
    match event
    case Subscribing(channel) =>
      if channel == REMOVE_SUB then s else s.(inbox := s.inbox + [channel], live := s.live + multiset{channel})
    case Unsubscribing(channel) => if s.live[channel] > s.waiting[channel] then WithUnsubscribed(s, channel) else s
    case Removal(channel) =>
      if channel !in s.waiting then s
      else if s.phase == Unlocked then WithRemoved(s, channel)
      else if s.phase == Selecting then WithRevoked(s, channel)
      else s
    case SelectOne(index) =>
      if s.phase == Selecting && 1 <= index < s.active then WithServed(s, index).(phase := Trying(1)) else s
    case SendStep(ready) => AfterSendStep(s, ready)
  }

  /** The event completes the send. */
  ghost predicate Completes(s: FeedState, event: Event) {
    event.SendStep? && s.phase.Trying? && s.phase.next >= s.active && s.active == 1
  }

  ghost function StateAfter(s: FeedState, events: seq<Event>): FeedState {
    if events == [] then s else Next(StateAfter(s, events[..|events| - 1]), events[|events| - 1])
  }

  /** The sends that the events complete, in order. */
  ghost function SendsOf(s: FeedState, events: seq<Event>): seq<Delivery> {
    if events == [] then [] else
    var before := StateAfter(s, events[..|events| - 1]);
    SendsOf(s, events[..|events| - 1]) + if Completes(before, events[|events| - 1]) then [before.send] else []
  }

  lemma OneMoreEvent(s: FeedState, events: seq<Event>, i: nat)
    requires i < |events|
    ensures var before := StateAfter(s, events[..i]);
            && StateAfter(s, events[..i + 1]) == Next(before, events[i])
            && SendsOf(s, events[..i + 1]) == SendsOf(s, events[..i]) + if Completes(before, events[i]) then [before.send] else []
  {
    assert events[..i + 1][..i] == events[..i];
  }

  lemma NoEventYet(s: FeedState)
    ensures StateAfter(s, []) == s && SendsOf(s, []) == []
  {
  }

  /** A send whose channels all take the value at once is over after one step for each of them, and
      every channel that was still active got it. */
  lemma ReadySendCompletes(s: FeedState)
    requires s.phase == Trying(1) && SendAccounted(s.cases, s.active, s.nsent, s.send)
    ensures var s' := StateAfter(s, AllReady(s.active - 1));
            && Completes(s', SendStep(true)) && s'.send.revoked == s.send.revoked
            && s'.send.delivered == s.send.delivered + multiset(s.cases[1..s.active])
            && s'.nsent == s.nsent + s.active - 1
  {
    ReadyChannelsGet(s, s.active - 1);
  }

  ghost function AllReady(n: nat): seq<Event> {
    seq(n, _ => SendStep(true))
  }

  lemma {:induction false} ReadyChannelsGet(s: FeedState, n: nat)
    requires s.phase == Trying(1) && n < s.active <= |s.cases|
    ensures var s' := StateAfter(s, AllReady(n));
            && s'.phase == Trying(1) && s'.active == s.active - n && s'.nsent == s.nsent + n && |s'.cases| == |s.cases|
            && s'.send.revoked == s.send.revoked
            && s'.send.delivered + multiset(s'.cases[1..s'.active]) == s.send.delivered + multiset(s.cases[1..s.active])
  {
    if n > 0 {
      hide AfterSendStep;
      ReadyChannelsGet(s, n - 1);
      assert AllReady(n)[..n - 1] == AllReady(n - 1);
      OneMoreGets(StateAfter(s, AllReady(n - 1)));
    }
  }

  lemma OneMoreGets(s: FeedState)
    requires s.phase == Trying(1) && 1 < s.active <= |s.cases|
    ensures var s' := AfterSendStep(s, true);
            && s'.phase == Trying(1) && s'.active == s.active - 1 && s'.nsent == s.nsent + 1 && |s'.cases| == |s.cases|
            && s'.send == Served(s.send, s.cases[1])
            && multiset(s'.cases[1..s'.active]) + multiset{s.cases[1]} == multiset(s.cases[1..s.active])
  {
    hide Swapped;
    ServedBySwap(s.cases, s.active, s.nsent, s.send, 1);
  }

  class Feed {
    var buf: array<Chan>
    var len: nat
    var inbox: seq<Chan>
    var phase: Phase
    var active: nat
    var nsent: nat
    /** The channels of all subscriptions, and of those whose holder waits to be removed. */
    var live: multiset<Chan>
    var waiting: multiset<Chan>
    ghost var send: Delivery

    /** The slice of select cases. */
    ghost function Cases(): seq<Chan>
      reads this`buf, this`len, buf
    {
      if len <= buf.Length then buf[..len] else []
    }

    ghost function State(): FeedState
      reads this, buf
    {
      FeedState(Cases(), inbox, live, waiting, phase, active, nsent, send)
    }

    ghost predicate Valid()
      reads this, buf
    {
      1 <= len <= buf.Length && Consistent(Cases(), inbox, live, waiting, phase, active, nsent, send)
    }

    constructor ()
      ensures Valid() && phase == Unlocked && live == multiset{} && waiting == multiset{} && fresh(buf)
    {
      buf := new Chan[1](_ => REMOVE_SUB);
      len, inbox, phase, active, nsent := 1, [], Unlocked, 0, 0;
      live, waiting, send := multiset{}, multiset{}, Delivery(multiset{}, multiset{}, multiset{});
    }

    method Subscribe(channel: Chan)
      requires Valid() && channel != REMOVE_SUB
      modifies this`inbox, this`live
      ensures Valid() && State() == old(State()).(inbox := old(inbox) + [channel], live := old(live) + multiset{channel})
    {
      inbox := inbox + [channel];
      live := live + multiset{channel};
    }

    /** A subscription ends: its channel is taken out of the inbox, or else its holder waits for
        the sender or for the send lock. */
    method Unsubscribe(channel: Chan) returns (done: bool)
      requires Valid() && live[channel] > waiting[channel]
      modifies this`inbox, this`live, this`waiting
      ensures Valid() && done == (channel in old(inbox))
      ensures State() == WithUnsubscribed(old(State()), channel)
    {
      hide Accounted, SendAccounted, Deleted, Find, Less;
      var index := Find(inbox, channel);
      if index != -1 {
        InboxLeft(Cases(), inbox, live, waiting, channel);
        inbox := Deleted(inbox, index);
        live := Less(live, channel);
        return true;
      }
      WaitBegun(Cases(), inbox, live, waiting, channel);
      waiting := waiting + multiset{channel};
      return false;
    }

    /** Delete the case at `index`, shifting those after it down in place. */
    method Delete(index: nat)
      requires 1 <= index < len <= buf.Length
      modifies this`len, buf
      ensures 1 <= len == old(len) - 1 && Cases() == Deleted(old(Cases()), index)
    {
      ShiftDown(index);
      len := len - 1;
    }

    method ShiftDown(index: nat)
      requires 1 <= index < len <= buf.Length
      modifies buf
      ensures buf[..len - 1] == Deleted(old(buf[..len]), index)
    {
      hide *;
      var j := index;
      while j < len - 1
        invariant index <= j <= len - 1
        invariant forall k :: 0 <= k < j ==> buf[k] == old(buf[if k < index then k else k + 1])
        invariant forall k :: j <= k < buf.Length ==> buf[k] == old(buf[k])
      {
        buf[j] := buf[j + 1];
        j := j + 1;
      }
      DeletedIs(old(buf[..len]), index, buf[..len - 1]);
    }

    lemma CasesLength()
      requires len <= buf.Length
      ensures |Cases()| == len
    {
    }

    /** Move the case at `index` out of the active prefix. */
    method Deactivate(index: nat)
      requires 1 <= index < active <= len <= buf.Length
      modifies this`active, buf
      ensures active == old(active) - 1 && Cases() == Swapped(old(Cases()), index, old(active))
    {
      var last := active - 1;
      buf[index], buf[last] := buf[last], buf[index];
      active := last;
    }

    /** The index of the case with a channel, or -1. */
    method FindCase(channel: Chan) returns (index: int)
      requires 1 <= len <= buf.Length
      ensures index == Find(Cases(), channel)
    {
      index := 0;
      while index < len
        invariant 0 <= index <= len && channel !in buf[..index]
      {
        if buf[index] == channel {
          FoundAt(buf[..len], channel, index);
          return;
        }
        index := index + 1;
      }
      index := -1;
    }

    method RemoveCase(channel: Chan) returns (index: int)
      requires 1 <= len <= buf.Length && 1 <= Find(Cases(), channel) < len
      modifies this`len, buf
      ensures index == Find(old(Cases()), channel)
      ensures 1 <= len <= buf.Length && Cases() == Deleted(old(Cases()), index)
    {
      hide *;
      index := FindCase(channel);
      Delete(index);
    }

    /** Without a send in progress, whoever waits takes the lock and removes the channel. */
    method RemoveLocked(channel: Chan)
      requires Valid() && phase == Unlocked && channel in waiting
      modifies this`len, this`live, this`waiting, buf
      ensures Valid() && channel in old(Cases()) && State() == WithRemoved(old(State()), channel)
    {
      hide Accounted, SendAccounted, Deleted, Find, Feed.Cases, Less;
      CasesLength();
      CaseRemoved(Cases(), inbox, live, waiting, channel);
      var index := RemoveCase(channel);
      live, waiting := Less(live, channel), Less(waiting, channel);
    }

    method TakeLock()
      requires Valid() && phase == Unlocked
      modifies this`phase
      ensures Valid() && phase == Locked
    {
      phase := Locked;
    }

    /** With the lock, a sender first takes over the inbox; the send then starts with all
        channels. The array is replaced when it is too small. */
    method Absorb()
      requires Valid() && phase == Locked
      modifies this`buf, this`len, this`inbox, this`phase, this`active, this`nsent, this`send, buf
      ensures Valid() && phase == Trying(1) && inbox == [] && nsent == 0
      ensures buf == old(buf) || fresh(buf)
      ensures Cases() == old(Cases()) + old(inbox) && active == |Cases()|
      ensures send == Delivery(live, multiset{}, multiset{})
    {
      hide Accounted, SendAccounted;
      AllAbsorbed(Cases(), inbox, live, waiting);
      Append(inbox);
      inbox := [];
      active, nsent, phase := len, 0, Trying(1);
      send := Delivery(live, multiset{}, multiset{});
    }

    /** Append to the cases, in place when there is room. */
    method Append(more: seq<Chan>)
      requires 1 <= len <= buf.Length
      modifies this`buf, this`len, buf
      ensures 1 <= len <= buf.Length && Cases() == old(Cases()) + more
      ensures buf == old(buf) || fresh(buf)
    {
      if len + |more| > buf.Length {
        var bigger := new Chan[2 * (len + |more|)];
        forall k | 0 <= k < len {
          bigger[k] := buf[k];
        }
        buf := bigger;
      }
      forall k | 0 <= k < |more| {
        buf[len + k] := more[k];
      }
      len := len + |more|;
    }

    /** Offer the value to the next active case without blocking. If its channel takes it, the
        same index is tried next, where another case is now; if not, the next index. */
    method TryNext(ready: bool)
      requires Valid() && phase.Trying? && phase.next < active
      modifies this`phase, this`active, this`nsent, this`send, buf
      ensures Valid() && phase == if ready then old(phase) else Trying(old(phase).next + 1)
      ensures ready ==> IsServed(old(Cases()), old(active), old(nsent), old(send), Cases(), active, nsent, send, old(phase).next)
      ensures !ready ==> Cases() == old(Cases()) && active == old(active) && nsent == old(nsent) && send == old(send)
      ensures State() == AfterSendStep(old(State()), ready)
    {
      hide Consistent, WithServed, Feed.Cases, IsServed;
      TriesSubscribers(Cases(), inbox, live, waiting, phase, active, nsent, send);
      if ready {
        Serve(phase.next);
      } else {
        NextTry(Cases(), inbox, live, waiting, phase, active, nsent, send, phase.next + 1);
        phase := Trying(phase.next + 1);
      }
    }

    /** A send on the case at `index` succeeds. */
    method Serve(index: nat)
      requires Valid() && Sending(phase) && 1 <= index < active
      modifies this`active, this`nsent, this`send, buf
      ensures Valid() && active == old(active) - 1 && nsent == old(nsent) + 1
      ensures IsServed(old(Cases()), old(active), old(nsent), old(send), Cases(), active, nsent, send, index)
      ensures State() == WithServed(old(State()), index)
    {
      hide Accounted, Deleted, Find, Swapped, SendAccounted, Served, IsServed;
      WithinCases(Cases(), active, nsent, send);
      ServedBySwap(Cases(), active, nsent, send, index);
      Deactivated(Cases(), active, nsent, send, index);
      SwapAccounted(Cases(), inbox, live, waiting, index, active);
      send := Served(send, buf[index]);
      nsent := nsent + 1;
      Deactivate(index);
    }

    /** Some channels are not ready: wait for one of them, or for a removal. */
    method Block()
      requires Valid() && phase.Trying? && phase.next >= active && active != 1
      modifies this`phase
      ensures Valid() && phase == Selecting
    {
      phase := Selecting;
    }

    method SelectSend(index: nat)
      requires Valid() && phase == Selecting && 1 <= index < active
      modifies this`phase, this`active, this`nsent, this`send, buf
      ensures Valid() && phase == Trying(1)
      ensures IsServed(old(Cases()), old(active), old(nsent), old(send), Cases(), active, nsent, send, index)
      ensures State() == WithServed(old(State()), index).(phase := Trying(1))
    {
      hide Consistent, WithServed, Feed.Cases, IsServed;
      Serve(index);
      NextTry(Cases(), inbox, live, waiting, phase, active, nsent, send, 1);
      phase := Trying(1);
    }

    /** The blocked sender is interrupted by a removal. */
    method SelectRemove(channel: Chan)
      requires Valid() && phase == Selecting && channel in waiting
      modifies this`phase, this`len, this`active, this`live, this`waiting, this`send, buf
      ensures Valid() && State() == WithRevoked(old(State()), channel)
    {
      hide Consistent, Deleted, Find, RevokedFrom, Feed.Cases, Less;
      CasesLength();
      RemovedWhileSending(Cases(), inbox, live, waiting, active, nsent, send, channel);
      ghost var revoked := RevokedFrom(Cases(), active, send, channel);
      var index := RemoveCase(channel);
      if index < active {
        active := active - 1;
      }
      send := revoked;
      live, waiting := Less(live, channel), Less(waiting, channel);
      phase := Trying(1);
    }

    /** All is sent. The number returned is that of the deliveries; every channel the send
        started with got the value, unless it was removed before it could take it. */
    method Finish() returns (n: nat)
      requires Valid() && phase.Trying? && phase.next >= active && active == 1
      modifies this`phase
      ensures Valid() && phase == Unlocked
      ensures IsAccount(send, n)
    {
      phase := Unlocked;
      return nsent;
    }
  
    /** Any interleaving of subscriptions, removals and the steps of senders; what cannot happen
        in a state does not. The feed goes through exactly the states of the events, and has an
        entry for each completed send: it returned the number of its deliveries, and the channels
        it started with got the value or were removed first. */
    method Run(events: seq<Event>) returns (counts: seq<nat>, ghost sends: seq<Delivery>)
      requires Valid()
      modifies this, buf
      ensures Valid() && State() == StateAfter(old(State()), events)
      ensures sends == SendsOf(old(State()), events) && |counts| == |sends|
      ensures forall i :: 0 <= i < |sends| ==> IsAccount(sends[i], counts[i])
    {
      hide *;
      counts, sends := [], [];
      NoEventYet(State());
      assert events[..0] == [];
      for i := 0 to |events|
        invariant Valid() && (buf == old(buf) || fresh(buf))
        invariant State() == StateAfter(old(State()), events[..i])
        invariant sends == SendsOf(old(State()), events[..i]) && |counts| == |sends|
        invariant forall i :: 0 <= i < |sends| ==> IsAccount(sends[i], counts[i])
      {
        OneMoreEvent(old(State()), events, i);
        ghost var send := State().send;
        var done, n := HandleEvent(events[i]);
        if done {
          counts, sends := counts + [n], sends + [send];
        }
      }
      assert events[..|events|] == events;
    }

    method HandleEvent(event: Event) returns (done: bool, n: nat)
      requires Valid()
      modifies this, buf
      ensures Valid() && (buf == old(buf) || fresh(buf))
      ensures State() == Next(old(State()), event) && (done <==> Completes(old(State()), event))
      ensures done ==> IsAccount(old(State()).send, n)
    {
      hide Consistent, Feed.Cases, WithServed, WithRevoked, WithRemoved, WithUnsubscribed, AfterSendStep, IsAccount;
      done, n := false, 0;
      match event {
        case Subscribing(channel) =>
          if channel != REMOVE_SUB {
            Subscribe(channel);
          }
        case Unsubscribing(channel) =>
          if live[channel] > waiting[channel] {
            var removed := Unsubscribe(channel);
          }
        case Removal(channel) =>
          if channel in waiting && phase == Unlocked {
            RemoveLocked(channel);
          } else if channel in waiting && phase == Selecting {
            SelectRemove(channel);
          }
        case SelectOne(index) =>
          if phase == Selecting && 1 <= index < active {
            SelectSend(index);
          }
        case SendStep(ready) =>
          done, n := StepSend(ready);
      }
    }

    /** The next step of a sender that is not blocked. */
    method StepSend(ready: bool) returns (done: bool, n: nat)
      requires Valid()
      modifies this`phase, this`active, this`nsent, this`send, this`buf, this`len, this`inbox, buf
      ensures Valid() && (buf == old(buf) || fresh(buf))
      ensures State() == AfterSendStep(old(State()), ready) && (done <==> Completes(old(State()), SendStep(ready)))
      ensures done ==> IsAccount(old(State()).send, n)
    {
      hide Consistent, Feed.Cases, Swapped, Served;
      done, n := false, 0;
      match phase {
        case Unlocked => TakeLock();
        case Locked => Absorb();
        case Selecting =>
        case Trying(next) =>
          if next < active {
            TryNext(ready);
          } else if active != 1 {
            Block();
          } else {
            n := Finish();
            done := true;
          }
      }
    }
  }

  lemma TriesSubscribers(cases: seq<Chan>, inbox: seq<Chan>, live: multiset<Chan>, waiting: multiset<Chan>,
                         phase: Phase, active: nat, nsent: nat, send: Delivery)
    requires Consistent(cases, inbox, live, waiting, phase, active, nsent, send) && phase.Trying?
    ensures phase.next >= 1
  {
  }

  lemma NextTry(cases: seq<Chan>, inbox: seq<Chan>, live: multiset<Chan>, waiting: multiset<Chan>,
                phase: Phase, active: nat, nsent: nat, send: Delivery, next: nat)
    requires Consistent(cases, inbox, live, waiting, phase, active, nsent, send) && Sending(phase) && next >= 1
    ensures Consistent(cases, inbox, live, waiting, Trying(next), active, nsent, send)
  {
    hide Accounted, SendAccounted;
  }

  lemma FoundAt(cases: seq<Chan>, channel: Chan, index: nat)
    requires index < |cases| && cases[index] == channel && channel !in cases[..index]
    ensures Find(cases, channel) == index
  {
  }

  lemma FirstFound(cases: seq<Chan>, channel: Chan, n: nat)
    requires n <= |cases| && channel in cases
    ensures Find(cases, channel) < n <==> channel in cases[..n]
    ensures Find(cases, channel) >= 0 && cases[Find(cases, channel)] == channel
  {
  }

  lemma WithinCases(cases: seq<Chan>, active: nat, nsent: nat, send: Delivery)
    requires SendAccounted(cases, active, nsent, send)
    ensures 1 <= active <= |cases|
  {
  }

  lemma AllAbsorbed(cases: seq<Chan>, inbox: seq<Chan>, live: multiset<Chan>, waiting: multiset<Chan>)
    requires Accounted(cases, inbox, live, waiting)
    ensures var all := cases + inbox;
            Accounted(all, [], live, waiting) && SendAccounted(all, |all|, 0, Delivery(live, multiset{}, multiset{}))
  {
    var all := cases + inbox;
    assert all[1..] == cases[1..] + inbox;
    assert all[1..|all|] == all[1..];
    assert REMOVE_SUB !in inbox by { assert REMOVE_SUB in inbox ==> REMOVE_SUB in multiset(inbox); }
  }
}
