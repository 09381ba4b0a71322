/** The buffer exchange of src/mediaserver/cdplugins/bufxchange.h as a state machine. A step is what a
    thread does under the mutex until it returns or waits; a waiting thread may test its condition again
    at any time, which covers every notification, spurious wakeup and order of locking. Buffers are
    numbers, so that a buffer in two places or freed twice would show. */
module BufXChange {

  type Buf = nat

  const MAXRECYCLED: nat := 4

  datatype Call = CallPut(buf: Buf, flush: bool) | CallTake | CallWaitIdle

  /** A thread holds buffers. It is running its own code, or waits inside a call. */
  datatype Thread = Thread(hand: multiset<Buf>, running: bool, call: Call)

  datatype State = State(
    queue: seq<Buf>, rqueue: seq<Buf>, high: nat, ok: bool,
    threads: seq<Thread>, next: nat, freed: seq<Buf>)

  function Init(high: nat, n: nat): State {
    State([], [], high, true, seq(n, _ => Thread(multiset{}, true, CallTake)), 0, [])
  }

  /** recycle_nolock: the oldest buffers are deleted until there is room. */
  function Excess(rqueue: seq<Buf>): (n: nat)
    ensures n <= |rqueue|
    ensures |rqueue| - n + 1 <= MAXRECYCLED
    ensures n > 0 ==> |rqueue| - n + 1 == MAXRECYCLED
  {
    if |rqueue| >= MAXRECYCLED then |rqueue| - MAXRECYCLED + 1 else 0
  }

  function Recycled(s: State, b: Buf): State {
    var n := Excess(s.rqueue);
    s.(rqueue := s.rqueue[n..] + [b], freed := s.freed + s.rqueue[..n])
  }

  /** reset recycles the whole queue. */
  function RecycleAll(s: State): State
    decreases |s.queue|
  {
    if s.queue == [] then s else RecycleAll(Recycled(s.(queue := s.queue[1..]), s.queue[0]))
  }

  datatype Event =
    | EvAlloc(i: nat)                             // new T
    | EvDelete(i: nat, b: Buf)                    // delete, by the thread that holds the buffer
    | EvPutWaits(i: nat, b: Buf, flush: bool)
    | EvPutDone(i: nat, b: Buf, flush: bool)
    | EvPutFails(i: nat, b: Buf, flush: bool, timeout: bool)
    | EvTakeWaits(i: nat)
    | EvTakeDone(i: nat)
    | EvTakeFails(i: nat, timeout: bool)
    | EvUntake(i: nat, b: Buf)
    | EvTakeRecycled(i: nat)
    | EvRecycle(i: nat, b: Buf)
    | EvIdleWaits(i: nat)
    | EvIdleReturns(i: nat, timeout: bool)
    | EvTerminate(i: nat)
    | EvReset(i: nat)

  /** Thread i is about to make the call, or is inside it and looks again. */
  ghost predicate At(s: State, i: nat, c: Call) {
    i < |s.threads| && (s.threads[i].running || s.threads[i].call == c) &&
    (c.CallPut? ==> c.buf in s.threads[i].hand)
  }

  ghost predicate Idle(s: State, i: nat) { i < |s.threads| && s.threads[i].running }

  ghost predicate Holds(s: State, i: nat, b: Buf) { Idle(s, i) && b in s.threads[i].hand }

  function With(s: State, i: nat, t: Thread): State
    requires i < |s.threads|
  {
    s.(threads := s.threads[i := t])
  }

  function Wait(s: State, i: nat, c: Call): State
    requires i < |s.threads|
  {
    With(s, i, s.threads[i].(running := false, call := c))
  }

  function Return(s: State, i: nat): State
    requires i < |s.threads|
  {
    With(s, i, s.threads[i].(running := true))
  }

  function Gain(s: State, i: nat, b: Buf): State
    requires i < |s.threads|
  {
    With(s, i, s.threads[i].(running := true, hand := s.threads[i].hand + multiset{b}))
  }

  function Lose(s: State, i: nat, b: Buf): State
    requires i < |s.threads|
  {
    With(s, i, s.threads[i].(running := true, hand := s.threads[i].hand - multiset{b}))
  }

  predicate Full(s: State) { s.high > 0 && |s.queue| >= s.high }

  ghost predicate Step(s: State, e: Event, s': State) {
    match e
    case EvAlloc(i) => Idle(s, i) && s' == Gain(s, i, s.next).(next := s.next + 1)
    case EvDelete(i, b) => Holds(s, i, b) && s' == Lose(s, i, b).(freed := s.freed + [b])
    case EvPutWaits(i, b, flush) => At(s, i, CallPut(b, flush)) && s.ok && Full(s) && s' == Wait(s, i, CallPut(b, flush))
    case EvPutDone(i, b, flush) =>
      At(s, i, CallPut(b, flush)) && s.ok && !Full(s) &&
      s' == Lose(s, i, b).(queue := (if flush then [] else s.queue) + [b],
                           freed := if flush then s.freed + s.queue else s.freed)
    case EvPutFails(i, b, flush, timeout) =>
      At(s, i, CallPut(b, flush)) && (!s.ok || (timeout && !s.threads[i].running)) && s' == Return(s, i)
    case EvTakeWaits(i) => At(s, i, CallTake) && s.ok && s.queue == [] && s' == Wait(s, i, CallTake)
    case EvTakeDone(i) =>
      At(s, i, CallTake) && s.ok && s.queue != [] && s' == Gain(s, i, s.queue[0]).(queue := s.queue[1..])
    case EvTakeFails(i, timeout) =>
      At(s, i, CallTake) && (!s.ok || (timeout && !s.threads[i].running)) && s' == Return(s, i)
    case EvUntake(i, b) =>
      Holds(s, i, b) && s' == if s.ok then Lose(s, i, b).(queue := [b] + s.queue) else s
    case EvTakeRecycled(i) =>
      Idle(s, i) &&
      s' == if s.ok && s.rqueue != [] then Gain(s, i, s.rqueue[0]).(rqueue := s.rqueue[1..]) else s
    case EvRecycle(i, b) => Holds(s, i, b) && s' == Recycled(Lose(s, i, b), b)
    case EvIdleWaits(i) => At(s, i, CallWaitIdle) && s.ok && s.queue != [] && s' == Wait(s, i, CallWaitIdle)
    case EvIdleReturns(i, timeout) =>
      At(s, i, CallWaitIdle) && (!s.ok || s.queue == [] || (timeout && !s.threads[i].running)) && s' == Return(s, i)
    case EvTerminate(i) => Idle(s, i) && s' == s.(ok := false)
    case EvReset(i) => Idle(s, i) && s' == RecycleAll(s).(ok := true)
  }

  ghost predicate Run(high: nat, n: nat, states: seq<State>, events: seq<Event>) {
    |states| == |events| + 1 && states[0] == Init(high, n) &&
    forall k :: 0 <= k < |events| ==> Step(states[k], events[k], states[k + 1])
  }

  // ----- Each buffer is in exactly one place -----

  /** How many times b is in the hands of the threads. */
  function InHands(ts: seq<Thread>, b: Buf): nat {
    if ts == [] then 0 else ts[|ts| - 1].hand[b] + InHands(ts[..|ts| - 1], b)
  }

  /** How many times b is anywhere: a hand, the queue, the recycle queue, or among the deleted. */
  function Places(s: State, b: Buf): nat {
    InHands(s.threads, b) + multiset(s.queue)[b] + multiset(s.rqueue)[b] + multiset(s.freed)[b]
  }

  ghost predicate Owned(s: State) {
    (forall b: Buf :: Places(s, b) == if b < s.next then 1 else 0) && |s.rqueue| <= MAXRECYCLED &&
    forall i :: 0 <= i < |s.threads| && !s.threads[i].running && s.threads[i].call.CallPut? ==>
      s.threads[i].call.buf in s.threads[i].hand
  }

  lemma {:induction false} InHandsUpdate(ts: seq<Thread>, i: nat, t: Thread, b: Buf)
    requires i < |ts|
    ensures InHands(ts[i := t], b) == InHands(ts, b) - ts[i].hand[b] + t.hand[b]
  {
    var n := |ts| - 1;
    if i < n {
      InHandsUpdate(ts[..n], i, t, b);
      assert ts[i := t][..n] == ts[..n][i := t];
    } else {
      assert ts[i := t][..n] == ts[..n];
    }
  }

  lemma SplitCounts(q: seq<Buf>, n: nat, b: Buf)
    requires n <= |q|
    ensures multiset(q)[b] == multiset(q[..n])[b] + multiset(q[n..])[b]
  {
    assert q == q[..n] + q[n..];
  }

  lemma RecycledPlaces(s: State, b: Buf, c: Buf)
    ensures Places(Recycled(s, b), c) == Places(s, c) + (if b == c then 1 else 0)
    ensures |Recycled(s, b).rqueue| <= MAXRECYCLED
    ensures Recycled(s, b).queue == s.queue && Recycled(s, b).threads == s.threads && Recycled(s, b).next == s.next
  {
    SplitCounts(s.rqueue, Excess(s.rqueue), c);
  }

  lemma {:induction false} RecycleAllPlaces(s: State, c: Buf)
    requires |s.rqueue| <= MAXRECYCLED
    ensures Places(RecycleAll(s), c) == Places(s, c) && |RecycleAll(s).rqueue| <= MAXRECYCLED
    ensures RecycleAll(s).threads == s.threads && RecycleAll(s).next == s.next && RecycleAll(s).queue == []
    decreases |s.queue|
  {
    if s.queue != [] {
      var s1 := s.(queue := s.queue[1..]);
      SplitCounts(s.queue, 1, c);
      assert s.queue[..1] == [s.queue[0]];
      RecycledPlaces(s1, s.queue[0], c);
      RecycleAllPlaces(Recycled(s1, s.queue[0]), c);
    }
  }

  /** The oldest of all the recycled buffers are deleted, as many as there are too many. */
  function TooMany(s: State): nat {
    var n := |s.rqueue| + |s.queue|;
    if n > 4 then n - 4 else 0
  }

  /** reset keeps the newest four of the recycled buffers and of those that were queued, in order, and deletes the
      others, oldest first. */
  lemma {:induction false} RecycleAllKeepsNewest(s: State)
    requires |s.rqueue| <= 4
    ensures var all := s.rqueue + s.queue; var n := TooMany(s);
      RecycleAll(s).queue == [] && RecycleAll(s).rqueue == all[n..] && RecycleAll(s).freed == s.freed + all[..n]
    decreases |s.queue|
  {
    if s.queue == [] {
      assert s.rqueue + [] == s.rqueue && s.freed + [] == s.freed;
    } else {
      hide RecycleAll;
      var b, more := s.queue[0], s.queue[1..];
      var e := Excess(s.rqueue);
      var s2 := Recycled(s.(queue := more), b);
      RecycleAllKeepsNewest(s2);
      RecycleAllStep(s);
      assert s.queue == [b] + more;
      OldestGo(s.freed, s.rqueue, b, more, e, TooMany(s2));
    }
  }

  lemma OldestGo(freed: seq<Buf>, r: seq<Buf>, b: Buf, more: seq<Buf>, e: nat, n: nat)
    requires e <= |r| && e + n <= |r| + 1 + |more|
    ensures var all, rest := r + ([b] + more), r[e..] + [b] + more;
      all[e + n..] == rest[n..] && freed + all[..e + n] == freed + r[..e] + rest[..n]
  {
    var all, rest := r + ([b] + more), r[e..] + [b] + more;
    assert all == r[..e] + rest;
    assert all[..e + n] == r[..e] + rest[..n];
  }

  lemma RecycleAllStep(s: State)
    requires s.queue != []
    ensures RecycleAll(s) == RecycleAll(Recycled(s.(queue := s.queue[1..]), s.queue[0]))
  {
  }

  lemma AppendCounts(q: seq<Buf>, r: seq<Buf>, c: Buf)
    ensures multiset(q + r)[c] == multiset(q)[c] + multiset(r)[c]
  {
  }

  lemma OneCount(b: Buf, c: Buf)
    ensures multiset([b])[c] == (if b == c then 1 else 0) && multiset{b}[c] == (if b == c then 1 else 0)
  {
  }

  lemma FirstCounts(q: seq<Buf>, c: Buf)
    requires q != []
    ensures multiset(q)[c] == (if q[0] == c then 1 else 0) + multiset(q[1..])[c]
  {
    SplitCounts(q, 1, c);
    assert q[..1] == [q[0]];
  }

  lemma GainPlaces(s: State, i: nat, b: Buf, c: Buf)
    requires i < |s.threads|
    ensures Places(Gain(s, i, b), c) == Places(s, c) + (if b == c then 1 else 0)
  {
    hide InHands;
    InHandsUpdate(s.threads, i, Gain(s, i, b).threads[i], c);
  }

  lemma LosePlaces(s: State, i: nat, b: Buf, c: Buf)
    requires i < |s.threads| && b in s.threads[i].hand
    ensures Places(Lose(s, i, b), c) == Places(s, c) - (if b == c then 1 else 0)
  {
    hide InHands;
    InHandsUpdate(s.threads, i, Lose(s, i, b).threads[i], c);
  }

  lemma SameHandPlaces(s: State, i: nat, t: Thread, c: Buf)
    requires i < |s.threads| && t.hand == s.threads[i].hand
    ensures Places(With(s, i, t), c) == Places(s, c)
  {
    hide InHands;
    InHandsUpdate(s.threads, i, t, c);
  }

  lemma PutDonePlaces(s: State, i: nat, b: Buf, flush: bool, c: Buf)
    requires i < |s.threads| && b in s.threads[i].hand
    ensures Places(Lose(s, i, b).(queue := (if flush then [] else s.queue) + [b],
                                  freed := if flush then s.freed + s.queue else s.freed), c) == Places(s, c)
  {
    hide InHands;
    LosePlaces(s, i, b, c);
    AppendCounts(if flush then [] else s.queue, [b], c);
    AppendCounts(s.freed, s.queue, c);
    OneCount(b, c);
  }

  lemma GivePlaces(s: State, i: nat, b: Buf, c: Buf)
    requires i < |s.threads| && b in s.threads[i].hand
    ensures Places(Lose(s, i, b).(freed := s.freed + [b]), c) == Places(s, c)
    ensures Places(Lose(s, i, b).(queue := [b] + s.queue), c) == Places(s, c)
  {
    hide InHands;
    LosePlaces(s, i, b, c);
    AppendCounts(s.freed, [b], c);
    AppendCounts([b], s.queue, c);
    OneCount(b, c);
  }

  lemma AllocPlaces(s: State, i: nat, c: Buf)
    requires i < |s.threads|
    ensures Places(Gain(s, i, s.next).(next := s.next + 1), c) == Places(s, c) + (if c == s.next then 1 else 0)
  {
    hide InHands;
    GainPlaces(s, i, s.next, c);
  }

  lemma TakePlaces(s: State, i: nat, c: Buf)
    requires i < |s.threads| && s.queue != []
    ensures Places(Gain(s, i, s.queue[0]).(queue := s.queue[1..]), c) == Places(s, c)
  {
    hide InHands;
    GainPlaces(s, i, s.queue[0], c);
    FirstCounts(s.queue, c);
  }

  lemma TakeRecycledPlaces(s: State, i: nat, c: Buf)
    requires i < |s.threads| && s.rqueue != []
    ensures Places(Gain(s, i, s.rqueue[0]).(rqueue := s.rqueue[1..]), c) == Places(s, c)
  {
    hide InHands;
    GainPlaces(s, i, s.rqueue[0], c);
    FirstCounts(s.rqueue, c);
  }

  lemma ResetPlaces(s: State, c: Buf)
    requires Owned(s)
    ensures Places(RecycleAll(s).(ok := true), c) == Places(s, c)
  {
    RecycleAllPlaces(s, c);
  }

  lemma TerminatePlaces(s: State, c: Buf)
    ensures Places(s.(ok := false), c) == Places(s, c)
  {
  }

  lemma RecycleLimit(s: State, e: Event, s': State)
    requires Owned(s) && Step(s, e, s')
    ensures |s'.rqueue| <= MAXRECYCLED
  {
    hide Places, InHands;
    if e.EvReset? { RecycleAllPlaces(s, 0); }
  }

  /** What a step does to the places of one buffer. */
  lemma StepPlaces(s: State, e: Event, s': State, c: Buf)
    requires Owned(s) && Step(s, e, s')
    ensures Places(s', c) == Places(s, c) + (if e.EvAlloc? && c == s.next then 1 else 0)
    ensures |s'.rqueue| <= MAXRECYCLED
  {
    RecycleLimit(s, e, s');
    hide InHands, Places, Owned, Recycled, RecycleAll, Gain, Lose;
    match e {
      case EvAlloc(i) => AllocPlaces(s, i, c);
      case EvDelete(i, b) => GivePlaces(s, i, b, c);
      case EvPutDone(i, b, flush) => PutDonePlaces(s, i, b, flush, c);
      case EvTakeDone(i) => TakePlaces(s, i, c);
      case EvUntake(i, b) => GivePlaces(s, i, b, c);
      case EvTakeRecycled(i) =>
        if s.ok && s.rqueue != [] { TakeRecycledPlaces(s, i, c); }
      case EvRecycle(i, b) => LosePlaces(s, i, b, c); RecycledPlaces(Lose(s, i, b), b, c);
      case EvReset(_) => ResetPlaces(s, c);
      case EvTerminate(i) => TerminatePlaces(s, c);
      case _ => SameHandPlaces(s, e.i, s'.threads[e.i], c);
    }
  }

  lemma WaitersKeepTheirBuffer(s: State, e: Event, s': State)
    requires Owned(s) && Step(s, e, s')
    ensures forall i :: 0 <= i < |s'.threads| && !s'.threads[i].running && s'.threads[i].call.CallPut? ==>
      s'.threads[i].call.buf in s'.threads[i].hand
  {
    hide Places, InHands, Recycled, RecycleAll;
    if e.EvReset? { RecycleAllPlaces(s, 0); } else if e.EvRecycle? { RecycledPlaces(Lose(s, e.i, e.b), e.b, 0); }
  }

  lemma StepKeepsOwned(s: State, e: Event, s': State)
    requires Owned(s) && Step(s, e, s')
    ensures Owned(s')
  {
    hide Places;
    NextGrows(s, e, s');
    forall c: Buf ensures Places(s', c) == if c < s'.next then 1 else 0 { StepPlaces(s, e, s', c); }
    StepPlaces(s, e, s', 0);
    WaitersKeepTheirBuffer(s, e, s');
  }

  lemma NextGrows(s: State, e: Event, s': State)
    requires Owned(s) && Step(s, e, s')
    ensures s'.next == s.next + (if e.EvAlloc? then 1 else 0)
  {
    hide Places;
    if e.EvReset? { RecycleAllPlaces(s, 0); }
  }

  lemma {:induction false} NoHands(n: nat, b: Buf)
    ensures InHands(seq(n, _ => Thread(multiset{}, true, CallTake)), b) == 0
  {
    if n > 0 {
      NoHands(n - 1, b);
      var ts := seq(n, _ => Thread(multiset{}, true, CallTake));
      assert ts[..n - 1] == seq(n - 1, _ => Thread(multiset{}, true, CallTake));
    }
  }

  /** In every run, each buffer ever allocated is in exactly one place: a thread's hand, the queue, the
      recycle queue, or the deleted ones, where it appears once. */
  lemma {:induction false} OnePlaceEach(high: nat, n: nat, states: seq<State>, events: seq<Event>, k: nat)
    requires Run(high, n, states, events) && k < |states|
    ensures Owned(states[k])
  {
    hide Step;
    if k > 0 {
      OnePlaceEach(high, n, states, events, k - 1);
      StepKeepsOwned(states[k - 1], events[k - 1], states[k]);
    } else {
      forall b: Buf ensures Places(states[0], b) == 0 { NoHands(n, b); }
    }
  }

  /** A deleted buffer was deleted once, and nobody can reach it any more. */
  lemma DeletedOnce(high: nat, n: nat, states: seq<State>, events: seq<Event>, k: nat, b: Buf, i: nat)
    requires Run(high, n, states, events) && k < |states| && i < |states[k].threads|
    requires b in states[k].freed
    ensures multiset(states[k].freed)[b] == 1
    ensures b !in states[k].threads[i].hand && b !in states[k].queue && b !in states[k].rqueue
  {
    hide Run;
    OnePlaceEach(high, n, states, events, k);
    var s := states[k];
    assert Places(s, b) >= multiset(s.freed)[b] >= 1;
    HandIsInHands(s.threads, i, b);
    assert b in s.queue ==> b in multiset(s.queue);
    assert b in s.rqueue ==> b in multiset(s.rqueue);
  }

  lemma {:induction false} HandIsInHands(ts: seq<Thread>, i: nat, b: Buf)
    requires i < |ts|
    ensures InHands(ts, b) >= ts[i].hand[b]
  {
    if i < |ts| - 1 { HandIsInHands(ts[..|ts| - 1], i, b); }
  }

  // ----- How long the queue gets -----

  /** Threads in consumers only take, with empty hands, give back and delete; the others never take or
      give back. */
  ghost predicate Disciplined(s: State, e: Event, consumers: set<nat>) {
    match e
    case EvAlloc(i) => i !in consumers
    case EvPutDone(i, _, _) => i !in consumers
    case EvTakeRecycled(i) => i !in consumers
    case EvTakeDone(i) => i in consumers && i < |s.threads| && s.threads[i].hand == multiset{}
    case EvUntake(i, _) => i in consumers
    case _ => true
  }

  /** The buffers that the consumers hold. */
  function Held(ts: seq<Thread>, consumers: set<nat>): nat {
    if ts == [] then 0
    else (if |ts| - 1 in consumers then |ts[|ts| - 1].hand| else 0) + Held(ts[..|ts| - 1], consumers)
  }

  lemma {:induction false} HeldUpdate(ts: seq<Thread>, i: nat, t: Thread, consumers: set<nat>)
    requires i < |ts|
    ensures Held(ts[i := t], consumers) ==
            Held(ts, consumers) + (if i in consumers then |t.hand| - |ts[i].hand| else 0)
  {
    var n := |ts| - 1;
    if i < n {
      HeldUpdate(ts[..n], i, t, consumers);
      assert ts[i := t][..n] == ts[..n][i := t];
    } else {
      assert ts[i := t][..n] == ts[..n];
    }
  }

  ghost predicate OneEach(ts: seq<Thread>, consumers: set<nat>) {
    forall i :: 0 <= i < |ts| && i in consumers ==> |ts[i].hand| <= 1
  }

  lemma {:induction false} HeldBound(ts: seq<Thread>, consumers: set<nat>)
    requires OneEach(ts, consumers)
    ensures Held(ts, consumers) <= |consumers|
    decreases |ts|
  {
    if ts != [] {
      var n := |ts| - 1;
      forall i | 0 <= i < |ts[..n]| && i in consumers - {n} ensures |ts[..n][i].hand| <= 1 { assert ts[..n][i] == ts[i]; }
      HeldBound(ts[..n], consumers - {n});
      HeldIgnores(ts[..n], consumers, n);
    }
  }

  lemma {:induction false} HeldIgnores(ts: seq<Thread>, consumers: set<nat>, n: nat)
    requires |ts| <= n
    ensures Held(ts, consumers - {n}) == Held(ts, consumers)
  {
    if ts != [] { HeldIgnores(ts[..|ts| - 1], consumers, n); }
  }

  ghost predicate Bounded(s: State, consumers: set<nat>) {
    OneEach(s.threads, consumers) && |s.queue| + Held(s.threads, consumers) <= s.high + |consumers|
  }

  /** The queue and the consumers' hands together grow only by a put, below the limit. */
  lemma TotalStep(s: State, e: Event, s': State, consumers: set<nat>)
    requires Step(s, e, s') && Disciplined(s, e, consumers) && !e.EvReset? && !e.EvTerminate?
    ensures e.i < |s.threads| && s'.threads == s.threads[e.i := s'.threads[e.i]] && s'.high == s.high
    ensures var d := if e.i in consumers then |s'.threads[e.i].hand| - |s.threads[e.i].hand| else 0;
      |s'.queue| + d <= |s.queue| || (e.EvPutDone? && d == 0 && (s.high == 0 || |s'.queue| <= s.high))
  {
  }

  lemma StepKeepsBound(s: State, e: Event, s': State, consumers: set<nat>)
    requires Owned(s) && s.high > 0 && Bounded(s, consumers) && Step(s, e, s') && Disciplined(s, e, consumers)
    ensures Bounded(s', consumers) && s'.high == s.high
  {
    hide Held, Places, InHands, Owned, Recycled, RecycleAll;
    match e {
      case EvReset(_) => ResetKeepsBound(s, consumers);
      case EvTerminate(_) =>
      case _ => OneThreadKeepsBound(s, e, s', consumers);
    }
  }

  lemma OneThreadKeepsBound(s: State, e: Event, s': State, consumers: set<nat>)
    requires s.high > 0 && Bounded(s, consumers) && Step(s, e, s') && Disciplined(s, e, consumers)
    requires !e.EvReset? && !e.EvTerminate?
    ensures Bounded(s', consumers) && s'.high == s.high
  {
    hide Held, Step, Disciplined;
    TotalStep(s, e, s', consumers);
    OneEachStep(s, e, s', consumers);
    HeldUpdate(s.threads, e.i, s'.threads[e.i], consumers);
    HeldBound(s'.threads, consumers);
  }

  lemma ResetKeepsBound(s: State, consumers: set<nat>)
    requires Owned(s) && Bounded(s, consumers)
    ensures Bounded(RecycleAll(s).(ok := true), consumers) && RecycleAll(s).high == s.high
  {
    hide Held, Places, InHands, Recycled, RecycleAll;
    RecycleAllPlaces(s, 0);
    HeldBound(s.threads, consumers);
    RecycleAllKeepsHigh(s);
  }

  lemma OneEachStep(s: State, e: Event, s': State, consumers: set<nat>)
    requires OneEach(s.threads, consumers) && Step(s, e, s') && Disciplined(s, e, consumers)
    requires !e.EvReset?
    ensures OneEach(s'.threads, consumers)
  {
  }

  lemma {:induction false} RecycleAllKeepsHigh(s: State)
    ensures RecycleAll(s).high == s.high
    decreases |s.queue|
  {
    if s.queue != [] { RecycleAllKeepsHigh(Recycled(s.(queue := s.queue[1..]), s.queue[0])); }
  }

  /** With k consumers that hold at most one buffer each, put and untake together never make the queue
      longer than m_high + k. */
  lemma {:induction false} QueueBound(high: nat, n: nat, states: seq<State>, events: seq<Event>, k: nat, consumers: set<nat>)
    requires Run(high, n, states, events) && k < |states| && high > 0
    requires forall j :: 0 <= j < |events| ==> Disciplined(states[j], events[j], consumers)
    ensures Bounded(states[k], consumers) && states[k].high == high
    ensures |states[k].queue| <= high + |consumers|
  {
    hide Step, Disciplined, Held;
    if k > 0 {
      QueueBound(high, n, states, events, k - 1, consumers);
      OnePlaceEach(high, n, states, events, k - 1);
      StepKeepsBound(states[k - 1], events[k - 1], states[k], consumers);
    } else {
      HeldBound(states[0].threads, consumers);
    }
  }
}
