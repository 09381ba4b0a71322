/** Data from the network to its consumer: NetFetch::databufToQ of src/mediaserver/cdplugins/netfetch.cpp
    feeding a BufXChange of ABuffers (abuffer.h). Thread 0 produces, thread 1 consumes; buffers are shared
    by reference, so that one in use by both would be corrupted. */
module NetFetch {
  import opened BufXChange
  import opened Strings

  const PRODUCER: nat := 0
  const CONSUMER: nat := 1
  const UINT_MAX: nat := 0xffff_ffff

  /** alloc is allocbytes, data the first bytes bytes of buf. */
  datatype ABuffer = ABuffer(alloc: nat, data: string, curoffs: nat)
  {
    predicate Fits() { curoffs <= |data| <= alloc }

    function Rest(): string
      requires curoffs <= |data|
    {
      data[curoffs..]
    }
  }

  /** Where databufToQ is. */
  datatype Producer =
    | Outside
    | GotRecycled(chunk: string, b: Buf)
    | NeedsBuffer(chunk: string)
    | Ready(chunk: string, b: Buf)
    | Filled(chunk: string, b: Buf)
    | PutFailed(b: Buf)
    | Counting(n: nat)

  /** accepted and consumed are histories: the data of the puts that succeeded, and what the consumer has
      used. */
  datatype Sys = Sys(x: State, bufs: map<Buf, ABuffer>, prod: Producer, hold: Option<Buf>,
                     accepted: string, consumed: string, fetchCount: nat)

  function Start(high: nat): Sys { Sys(Init(high, 2), map[], Outside, None, "", "", 0) }

  datatype NetEvent =
    | DataIn(chunk: string) | DropSmall | KeepRecycled | NewBuffer | Fill | PutWaits | PutDone | PutFails(timeout: bool)
    | DropFailed | CountIt
    | TakeWaits | TakeDone | TakeFails(timeout: bool) | Consume(n: nat) | Untake | GiveBack
    | Terminate(i: nat)

  ghost predicate NetStep(s: Sys, e: NetEvent, s': Sys) {
    match e
    // take_recycled, then either that buffer, if it is big enough, or a new one
    case DataIn(chunk) =>
      s.prod.Outside? && |chunk| <= UINT_MAX && Step(s.x, EvTakeRecycled(PRODUCER), s'.x) &&
      s' == s.(x := s'.x, prod := if s.x.ok && s.x.rqueue != [] then GotRecycled(chunk, s.x.rqueue[0]) else NeedsBuffer(chunk))
    case DropSmall =>
      s.prod.GotRecycled? && s.prod.b in s.bufs && s.bufs[s.prod.b].alloc < |s.prod.chunk| &&
      Step(s.x, EvDelete(PRODUCER, s.prod.b), s'.x) && s' == s.(x := s'.x, prod := NeedsBuffer(s.prod.chunk))
    case KeepRecycled =>
      s.prod.GotRecycled? && s.prod.b in s.bufs && s.bufs[s.prod.b].alloc >= |s.prod.chunk| &&
      s' == s.(prod := Ready(s.prod.chunk, s.prod.b))
    case NewBuffer =>
      s.prod.NeedsBuffer? && Step(s.x, EvAlloc(PRODUCER), s'.x) &&
      var size := if 4096 < |s.prod.chunk| then |s.prod.chunk| else 4096;
      s' == s.(x := s'.x, bufs := s.bufs[s.x.next := ABuffer(size, "", 0)], prod := Ready(s.prod.chunk, s.x.next))
    // the memcpy, which looks at nothing
    case Fill =>
      s.prod.Ready? && s.prod.b in s.bufs &&
      s' == s.(bufs := s.bufs[s.prod.b := ABuffer(s.bufs[s.prod.b].alloc, s.prod.chunk, 0)],
               prod := Filled(s.prod.chunk, s.prod.b))
    case PutWaits =>
      s.prod.Filled? && Step(s.x, EvPutWaits(PRODUCER, s.prod.b, false), s'.x) && s' == s.(x := s'.x)
    case PutDone =>
      s.prod.Filled? && Step(s.x, EvPutDone(PRODUCER, s.prod.b, false), s'.x) &&
      s' == s.(x := s'.x, accepted := s.accepted + s.prod.chunk, prod := Counting(|s.prod.chunk|))
    case PutFails(timeout) =>
      s.prod.Filled? && Step(s.x, EvPutFails(PRODUCER, s.prod.b, false, timeout), s'.x) &&
      s' == s.(x := s'.x, prod := PutFailed(s.prod.b))
    case DropFailed =>
      s.prod.PutFailed? && Step(s.x, EvDelete(PRODUCER, s.prod.b), s'.x) && s' == s.(x := s'.x, prod := Outside)
    case CountIt => s.prod.Counting? && s' == s.(fetchCount := s.fetchCount + s.prod.n, prod := Outside)
    case TakeWaits => s.hold.None? && Step(s.x, EvTakeWaits(CONSUMER), s'.x) && s' == s.(x := s'.x)
    case TakeDone =>
      s.hold.None? && Step(s.x, EvTakeDone(CONSUMER), s'.x) && s' == s.(x := s'.x, hold := Some(s.x.queue[0]))
    case TakeFails(timeout) =>
      s.hold.None? && Step(s.x, EvTakeFails(CONSUMER, timeout), s'.x) && s' == s.(x := s'.x)
    case Consume(n) =>
      s.hold.Some? && s.hold.value in s.bufs &&
      var a := s.bufs[s.hold.value];
      a.curoffs + n <= |a.data| &&
      s' == s.(consumed := s.consumed + a.data[a.curoffs..a.curoffs + n],
               bufs := s.bufs[s.hold.value := a.(curoffs := a.curoffs + n)])
    // a partly used buffer goes back to the front
    case Untake =>
      s.hold.Some? && Step(s.x, EvUntake(CONSUMER, s.hold.value), s'.x) &&
      s' == s.(x := s'.x, hold := if s.x.ok then None else s.hold)
    // a used up one is recycled
    case GiveBack =>
      s.hold.Some? && s.hold.value in s.bufs && s.bufs[s.hold.value].curoffs == |s.bufs[s.hold.value].data| &&
      Step(s.x, EvRecycle(CONSUMER, s.hold.value), s'.x) && s' == s.(x := s'.x, hold := None)
    case Terminate(i) => Step(s.x, EvTerminate(i), s'.x) && s' == s.(x := s'.x)
  }

  ghost predicate NetRun(high: nat, states: seq<Sys>, events: seq<NetEvent>) {
    |states| == |events| + 1 && states[0] == Start(high) &&
    forall k :: 0 <= k < |events| ==> NetStep(states[k], events[k], states[k + 1])
  }

  // ----- The invariant -----

  function ProducerHand(p: Producer): multiset<Buf> {
    if p.GotRecycled? || p.Ready? || p.Filled? || p.PutFailed? then multiset{p.b} else multiset{}
  }

  function ConsumerHand(h: Option<Buf>): multiset<Buf> { if h.Some? then multiset{h.value} else multiset{} }

  ghost predicate Hands(s: Sys) {
    Owned(s.x) && |s.x.threads| == 2 &&
    s.x.threads[PRODUCER].hand == ProducerHand(s.prod) && s.x.threads[CONSUMER].hand == ConsumerHand(s.hold) &&
    forall b: Buf :: b in s.bufs <==> b < s.x.next
  }

  /** All buffers are sound, the one to be filled is big enough, and the one about to be put holds the chunk. */
  ghost predicate Contents(s: Sys) {
    (forall b :: b in s.bufs ==> s.bufs[b].Fits()) &&
    (s.prod.Ready? ==> s.prod.b in s.bufs && |s.prod.chunk| <= s.bufs[s.prod.b].alloc) &&
    (s.prod.Filled? ==> s.prod.b in s.bufs && s.bufs[s.prod.b].data == s.prod.chunk && s.bufs[s.prod.b].curoffs == 0)
  }

  /** What is left to use in a list of buffers. */
  ghost function RestAll(q: seq<Buf>, bufs: map<Buf, ABuffer>): string
    requires Known(q, bufs)
  {
    if q == [] then ""
    else
      assert q[0] in q && bufs[q[0]].Fits();
      bufs[q[0]].Rest() + RestAll(q[1..], bufs)
  }

  ghost predicate Known(q: seq<Buf>, bufs: map<Buf, ABuffer>) { forall b :: b in q ==> b in bufs && bufs[b].Fits() }

  function HeldList(h: Option<Buf>): seq<Buf> { if h.Some? then [h.value] else [] }

  /** In the order of the stream: used, left in the consumer's buffer, queued. */
  ghost predicate Flow(s: Sys) {
    Known(HeldList(s.hold) + s.x.queue, s.bufs) &&
    s.accepted == s.consumed + RestAll(HeldList(s.hold) + s.x.queue, s.bufs)
  }

  ghost predicate Counted(s: Sys) {
    s.fetchCount + (if s.prod.Counting? then s.prod.n else 0) == |s.accepted|
  }

  ghost predicate NetInv(s: Sys) { Hands(s) && Contents(s) && Flow(s) && Counted(s) }

  // ----- Who has what -----

  lemma PlacesOfOne(x: State, i: nat, b: Buf)
    requires Owned(x) && i < |x.threads| && b in x.threads[i].hand
    ensures b < x.next && b !in x.queue && b !in x.rqueue
    ensures forall j :: 0 <= j < |x.threads| && j != i ==> b !in x.threads[j].hand
  {
    HandIsInHands(x.threads, i, b);
    assert Places(x, b) >= 1;
    assert b in x.queue ==> b in multiset(x.queue);
    assert b in x.rqueue ==> b in multiset(x.rqueue);
    forall j | 0 <= j < |x.threads| && j != i ensures b !in x.threads[j].hand { TwoHands(x.threads, i, j, b); }
  }

  lemma {:induction false} TwoHands(ts: seq<Thread>, i: nat, j: nat, b: Buf)
    requires i < |ts| && j < |ts| && i != j
    ensures InHands(ts, b) >= ts[i].hand[b] + ts[j].hand[b]
  {
    var n := |ts| - 1;
    if i == n { HandIsInHands(ts[..n], j, b); }
    else if j == n { HandIsInHands(ts[..n], i, b); }
    else { TwoHands(ts[..n], i, j, b); }
  }

  lemma QueuedIsAllocated(x: State, b: Buf)
    requires Owned(x) && (b in x.queue || b in x.rqueue)
    ensures b < x.next
  {
    assert b in x.queue ==> b in multiset(x.queue);
    assert b in x.rqueue ==> b in multiset(x.rqueue);
    assert Places(x, b) >= 1;
  }

  lemma {:induction false} RestAllFrame(q: seq<Buf>, bufs: map<Buf, ABuffer>, b: Buf, a: ABuffer)
    requires Known(q, bufs) && b !in q
    ensures Known(q, bufs[b := a]) && RestAll(q, bufs[b := a]) == RestAll(q, bufs)
  {
    if q != [] { RestAllFrame(q[1..], bufs, b, a); }
  }

  lemma {:induction false} RestAllAppend(q: seq<Buf>, b: Buf, bufs: map<Buf, ABuffer>)
    requires Known(q, bufs) && b in bufs && bufs[b].Fits()
    ensures Known(q + [b], bufs) && RestAll(q + [b], bufs) == RestAll(q, bufs) + bufs[b].Rest()
  {
    if q == [] {
      assert [] + [b] == [b];
      assert RestAll([b], bufs) == bufs[b].Rest() + "";
    } else {
      RestAllAppend(q[1..], b, bufs);
      assert (q + [b])[1..] == q[1..] + [b];
      assert bufs[q[0]].Rest() + (RestAll(q[1..], bufs) + bufs[b].Rest()) ==
             (bufs[q[0]].Rest() + RestAll(q[1..], bufs)) + bufs[b].Rest();
    }
  }

  // ----- Steps that leave the stream alone -----

  /** The exchange event of a step, if it has one. */
  function ExchangeEvent(s: Sys, e: NetEvent): Option<Event>
    requires e.DropSmall? || e.PutWaits? || e.PutDone? || e.PutFails? || e.DropFailed? ==>
      s.prod.GotRecycled? || s.prod.Filled? || s.prod.PutFailed?
    requires e.Untake? || e.GiveBack? ==> s.hold.Some?
  {
    match e
    case DataIn(_) => Some(EvTakeRecycled(PRODUCER))
    case DropSmall => Some(EvDelete(PRODUCER, s.prod.b))
    case NewBuffer => Some(EvAlloc(PRODUCER))
    case PutWaits => Some(EvPutWaits(PRODUCER, s.prod.b, false))
    case PutDone => Some(EvPutDone(PRODUCER, s.prod.b, false))
    case PutFails(timeout) => Some(EvPutFails(PRODUCER, s.prod.b, false, timeout))
    case DropFailed => Some(EvDelete(PRODUCER, s.prod.b))
    case TakeWaits => Some(EvTakeWaits(CONSUMER))
    case TakeDone => Some(EvTakeDone(CONSUMER))
    case TakeFails(timeout) => Some(EvTakeFails(CONSUMER, timeout))
    case Untake => Some(EvUntake(CONSUMER, s.hold.value))
    case GiveBack => Some(EvRecycle(CONSUMER, s.hold.value))
    case Terminate(i) => Some(EvTerminate(i))
    case _ => None
  }

  lemma EventsHaveBuffers(s: Sys, e: NetEvent, s': Sys)
    requires NetStep(s, e, s')
    ensures e.DropSmall? || e.PutWaits? || e.PutDone? || e.PutFails? || e.DropFailed? ==>
      s.prod.GotRecycled? || s.prod.Filled? || s.prod.PutFailed?
    ensures e.Untake? || e.GiveBack? ==> s.hold.Some?
  {
  }

  lemma ExchangeStep(s: Sys, e: NetEvent, s': Sys)
    requires NetStep(s, e, s')
    ensures match ExchangeEvent(s, e) case Some(ev) => Step(s.x, ev, s'.x) case None => s'.x == s.x
  {
    hide Step;
  }

  function Plus(h: multiset<Buf>, b: Buf): multiset<Buf> { h + multiset{b} }

  function Minus(h: multiset<Buf>, b: Buf): multiset<Buf> { h - multiset{b} }

  /** What thread e.i holds after an exchange event. */
  function HandAfter(x: State, e: Event): multiset<Buf>
    requires e.i < |x.threads|
  {
    var h := x.threads[e.i].hand;
    match e
    case EvAlloc(_) => Plus(h, x.next)
    case EvDelete(_, b) => Minus(h, b)
    case EvPutDone(_, b, _) => Minus(h, b)
    case EvTakeDone(_) => if x.queue != [] then Plus(h, x.queue[0]) else h
    case EvUntake(_, b) => if x.ok then Minus(h, b) else h
    case EvTakeRecycled(_) => if x.ok && x.rqueue != [] then Plus(h, x.rqueue[0]) else h
    case EvRecycle(_, b) => Minus(h, b)
    case _ => h
  }

  lemma StepHands(x: State, e: Event, x': State)
    requires Step(x, e, x') && !e.EvReset?
    ensures e.i < |x.threads| && |x'.threads| == |x.threads| && x'.threads[e.i].hand == HandAfter(x, e)
    ensures forall j :: 0 <= j < |x.threads| && j != e.i ==> x'.threads[j] == x.threads[j]
  {
  }

  /** The buffer in the producer's hand after each of its steps. */
  lemma ProducerMoves(s: Sys, e: NetEvent, s': Sys)
    requires NetStep(s, e, s') && ExchangeEvent(s, e).Some? && ExchangeEvent(s, e).value.i == PRODUCER && !e.Terminate?
    ensures s'.hold == s.hold
    ensures if e.DataIn? then s.prod.Outside? else if e.NewBuffer? then s.prod.NeedsBuffer?
            else s.prod.GotRecycled? || s.prod.Filled? || s.prod.PutFailed?
    ensures e.DataIn? || e.NewBuffer? || e.DropSmall? || e.PutWaits? || e.PutDone? || e.PutFails? || e.DropFailed?
    ensures ProducerHand(s'.prod) ==
      match e
      case DataIn(_) => if s.x.ok && s.x.rqueue != [] then multiset{s.x.rqueue[0]} else multiset{}
      case NewBuffer => multiset{s.x.next}
      case PutWaits => ProducerHand(s.prod)
      case PutFails(_) => ProducerHand(s.prod)
      case _ => multiset{}
  {
    hide Step;
  }

  lemma ProducerHandStep(s: Sys, e: NetEvent, s': Sys)
    requires Hands(s) && NetStep(s, e, s') && ExchangeEvent(s, e).Some? && ExchangeEvent(s, e).value.i == PRODUCER
    requires !e.Terminate?
    ensures HandAfter(s.x, ExchangeEvent(s, e).value) == ProducerHand(s'.prod) && s'.hold == s.hold
  {
    hide Step, Owned, Plus, Minus, NetStep;
    ProducerMoves(s, e, s');
    match e
    case DataIn(_) => if s.x.rqueue != [] { OneHand(s.x.rqueue[0]); }
    case NewBuffer => OneHand(s.x.next);
    case DropSmall => OneHand(s.prod.b);
    case PutDone => OneHand(s.prod.b);
    case DropFailed => OneHand(s.prod.b);
    case _ =>
  }

  /** The buffer in the consumer's hand after each of its steps. */
  lemma ConsumerMoves(s: Sys, e: NetEvent, s': Sys)
    requires NetStep(s, e, s') && ExchangeEvent(s, e).Some? && ExchangeEvent(s, e).value.i == CONSUMER && !e.Terminate?
    ensures s'.prod == s.prod && (e.TakeDone? ==> s.hold.None?) && (e.Untake? || e.GiveBack? ==> s.hold.Some?)
    ensures e.TakeWaits? || e.TakeDone? || e.TakeFails? || e.Untake? || e.GiveBack?
    ensures ConsumerHand(s'.hold) ==
      match e
      case TakeDone => if s.x.queue != [] then multiset{s.x.queue[0]} else ConsumerHand(s'.hold)
      case Untake => if s.x.ok then multiset{} else ConsumerHand(s.hold)
      case GiveBack => multiset{}
      case _ => ConsumerHand(s.hold)
  {
    hide Step;
  }

  lemma ConsumerHandStep(s: Sys, e: NetEvent, s': Sys)
    requires Hands(s) && NetStep(s, e, s') && ExchangeEvent(s, e).Some? && ExchangeEvent(s, e).value.i == CONSUMER
    requires !e.Terminate? && (e.TakeDone? ==> s.x.queue != [])
    ensures HandAfter(s.x, ExchangeEvent(s, e).value) == ConsumerHand(s'.hold) && s'.prod == s.prod
  {
    hide Step, Owned, Plus, Minus, NetStep;
    ConsumerMoves(s, e, s');
    match e
    case TakeDone => OneHand(s.x.queue[0]);
    case Untake => OneHand(s.hold.value);
    case GiveBack => OneHand(s.hold.value);
    case _ =>
  }

  lemma OneHand(b: Buf)
    ensures Plus(multiset{}, b) == multiset{b} && Minus(multiset{b}, b) == multiset{}
  {
  }

  lemma BuffersStep(s: Sys, e: NetEvent, s': Sys)
    requires Hands(s) && NetStep(s, e, s')
    requires s'.x.next == s.x.next + (if e.NewBuffer? then 1 else 0)
    ensures forall b: Buf :: b in s'.bufs <==> b < s'.x.next
  {
    hide Step, Owned;
    if s.hold.Some? { assert s.hold.value in s.bufs || !e.Consume?; }
  }

  lemma OwnedStep(s: Sys, e: NetEvent, s': Sys)
    requires Owned(s.x) && NetStep(s, e, s')
    ensures Owned(s'.x) && s'.x.next == s.x.next + (if e.NewBuffer? then 1 else 0)
  {
    hide Owned, Step;
    ExchangeStep(s, e, s');
    var ev := ExchangeEvent(s, e);
    if ev.Some? {
      StepKeepsOwned(s.x, ev.value, s'.x);
      NextGrows(s.x, ev.value, s'.x);
    }
  }

  lemma ThreadsStep(s: Sys, e: NetEvent, s': Sys)
    requires Hands(s) && NetStep(s, e, s') && ExchangeEvent(s, e).Some?
    ensures |s'.x.threads| == 2
    ensures s'.x.threads[PRODUCER].hand == ProducerHand(s'.prod) && s'.x.threads[CONSUMER].hand == ConsumerHand(s'.hold)
  {
    hide Owned, HandAfter, ProducerHand, ConsumerHand;
    ExchangeStep(s, e, s');
    var ev := ExchangeEvent(s, e).value;
    StepHands(s.x, ev, s'.x);
    if e.Terminate? {
      TerminateHands(s, e, s');
    } else if ev.i == PRODUCER {
      hide Step;
      ProducerHandStep(s, e, s');
    } else {
      if e.TakeDone? { assert s.x.queue != []; }
      hide Step;
      ConsumerHandStep(s, e, s');
    }
  }

  lemma HandsStep(s: Sys, e: NetEvent, s': Sys)
    requires Hands(s) && NetStep(s, e, s')
    ensures Hands(s')
  {
    hide Owned, NetStep, ProducerHand, ConsumerHand;
    EventsHaveBuffers(s, e, s');
    OwnedStep(s, e, s');
    BuffersStep(s, e, s');
    if ExchangeEvent(s, e).Some? { ThreadsStep(s, e, s'); } else { InternalHands(s, e, s'); }
  }

  lemma TerminateHands(s: Sys, e: NetEvent, s': Sys)
    requires NetStep(s, e, s') && e.Terminate?
    ensures s'.x.threads == s.x.threads && s'.prod == s.prod && s'.hold == s.hold
  {
  }

  lemma InternalHands(s: Sys, e: NetEvent, s': Sys)
    requires NetStep(s, e, s') && ExchangeEvent(s, e).None?
    ensures s'.x == s.x && ProducerHand(s'.prod) == ProducerHand(s.prod) && s'.hold == s.hold
  {
  }

  lemma ContentsStep(s: Sys, e: NetEvent, s': Sys)
    requires Hands(s) && Contents(s) && NetStep(s, e, s')
    ensures Contents(s')
  {
    hide Step, Owned;
    if e.NewBuffer? { NewBufferFits(s, s'); }
    if s.prod.Filled? && s.hold.Some? { FilledIsNotHeld(s); }
  }

  /** The size of a new buffer. */
  lemma NewBufferFits(s: Sys, s': Sys)
    requires NetStep(s, NewBuffer, s')
    ensures s'.prod.b in s'.bufs && s'.bufs[s'.prod.b].alloc >= |s'.prod.chunk|
  {
    hide Step;
  }

  lemma FilledIsNotHeld(s: Sys)
    requires Hands(s) && s.prod.Filled? && s.hold.Some?
    ensures s.prod.b != s.hold.value
  {
    PlacesOfOne(s.x, PRODUCER, s.prod.b);
    assert s.hold.value in s.x.threads[CONSUMER].hand;
  }

  lemma CountedStep(s: Sys, e: NetEvent, s': Sys)
    requires Counted(s) && NetStep(s, e, s')
    ensures Counted(s')
  {
    hide Step;
  }

  // ----- Steps that move the stream -----

  /** A change to a buffer that is neither held by the consumer nor queued. */
  lemma FlowFrame(s: Sys, s': Sys, b: Buf, a: ABuffer)
    requires Flow(s) && b !in HeldList(s.hold) + s.x.queue
    requires s'.bufs == s.bufs[b := a] && s'.x.queue == s.x.queue && s'.hold == s.hold
    requires s'.accepted == s.accepted && s'.consumed == s.consumed
    ensures Flow(s')
  {
    RestAllFrame(HeldList(s.hold) + s.x.queue, s.bufs, b, a);
  }

  lemma FlowNewBuffer(s: Sys, s': Sys)
    requires Hands(s) && Flow(s) && NetStep(s, NewBuffer, s')
    ensures Flow(s')
  {
    var b := s.x.next;
    assert b !in s.x.queue by { if b in s.x.queue { QueuedIsAllocated(s.x, b); } }
    if s.hold.Some? { HeldIsKnown(s); }
    FlowFrame(s, s', b, s'.bufs[b]);
  }

  lemma HeldIsKnown(s: Sys)
    requires Hands(s) && s.hold.Some?
    ensures s.hold.value < s.x.next && s.hold.value !in s.x.queue
  {
    PlacesOfOne(s.x, CONSUMER, s.hold.value);
  }

  lemma FlowFill(s: Sys, s': Sys)
    requires Hands(s) && Flow(s) && NetStep(s, Fill, s')
    ensures Flow(s')
  {
    var b := s.prod.b;
    PlacesOfOne(s.x, PRODUCER, b);
    if s.hold.Some? { assert s.hold.value in s.x.threads[CONSUMER].hand; }
    FlowFrame(s, s', b, s'.bufs[b]);
  }

  lemma FlowPutDone(s: Sys, s': Sys)
    requires Hands(s) && Contents(s) && Flow(s) && NetStep(s, PutDone, s')
    ensures Flow(s')
  {
    PutDoneIs(s, s');
    hide Owned, NetStep, RestAll, Known;
    var before := HeldList(s.hold) + s.x.queue;
    RestAllAppend(before, s.prod.b, s.bufs);
    assert HeldList(s'.hold) + s'.x.queue == before + [s.prod.b];
    Regroup(s.consumed, RestAll(before, s.bufs), s.prod.chunk);
  }

  lemma PutDoneIs(s: Sys, s': Sys)
    requires Contents(s) && NetStep(s, PutDone, s')
    ensures s.prod.Filled? && s.prod.b in s.bufs && s.bufs[s.prod.b].Fits() && s.bufs[s.prod.b].Rest() == s.prod.chunk
    ensures s'.x.queue == s.x.queue + [s.prod.b] && s'.hold == s.hold && s'.bufs == s.bufs
    ensures s'.accepted == s.accepted + s.prod.chunk && s'.consumed == s.consumed
  {
  }

  lemma FlowTake(s: Sys, s': Sys)
    requires Flow(s) && NetStep(s, TakeDone, s')
    ensures Flow(s')
  {
    assert [s.x.queue[0]] + s.x.queue[1..] == s.x.queue == [] + s.x.queue;
  }

  lemma FlowUntake(s: Sys, s': Sys)
    requires Flow(s) && NetStep(s, Untake, s')
    ensures Flow(s')
  {
    assert s.x.ok ==> [] + s'.x.queue == [s.hold.value] + s.x.queue;
  }

  lemma RegroupPieces(used: string, piece: string, left: string, rest: string)
    ensures used + ((piece + left) + rest) == (used + piece) + (left + rest)
  {
  }

  lemma RestAllFirst(b: Buf, q: seq<Buf>, bufs: map<Buf, ABuffer>)
    requires b in bufs && bufs[b].Fits() && Known(q, bufs)
    ensures Known([b] + q, bufs) && RestAll([b] + q, bufs) == bufs[b].Rest() + RestAll(q, bufs)
  {
    assert ([b] + q)[1..] == q;
  }

  lemma KnownTail(b: Buf, q: seq<Buf>, bufs: map<Buf, ABuffer>)
    requires Known([b] + q, bufs)
    ensures Known(q, bufs) && b in bufs && bufs[b].Fits()
  {
    assert b in [b] + q;
    assert forall c :: c in q ==> c in [b] + q;
  }

  lemma FlowConsume(s: Sys, n: nat, s': Sys)
    requires Hands(s) && Flow(s) && NetStep(s, Consume(n), s')
    ensures Flow(s')
  {
    hide Owned, Known, RestAll;
    var b := s.hold.value;
    HeldIsKnown(s);
    hide Hands;
    var a, q := s.bufs[b], s.x.queue;
    KnownTail(b, q, s.bufs);
    RestAllFrame(q, s.bufs, b, s'.bufs[b]);
    RestAllFirst(b, q, s.bufs);
    RestAllFirst(b, q, s'.bufs);
    assert a.Rest() == a.data[a.curoffs..a.curoffs + n] + s'.bufs[b].Rest();
    RegroupPieces(s.consumed, a.data[a.curoffs..a.curoffs + n], s'.bufs[b].Rest(), RestAll(q, s.bufs));
  }

  lemma FlowGiveBack(s: Sys, s': Sys)
    requires Flow(s) && NetStep(s, GiveBack, s')
    ensures Flow(s')
  {
    var b := s.hold.value;
    QuietStep(s.x, EvRecycle(CONSUMER, b), s'.x);
    hide Step;
    assert ([b] + s.x.queue)[1..] == s.x.queue == [] + s.x.queue;
    assert forall c :: c in s.x.queue ==> c in [b] + s.x.queue;
    assert s.bufs[b].Rest() == "";
    assert "" + RestAll(s.x.queue, s.bufs) == RestAll(s.x.queue, s.bufs);
  }

  /** The other exchange events leave the queue alone. */
  lemma QuietStep(x: State, ev: Event, x': State)
    requires Step(x, ev, x') && !ev.EvPutDone? && !ev.EvTakeDone? && !ev.EvUntake? && !ev.EvReset?
    ensures x'.queue == x.queue
  {
  }

  lemma FlowQuiet(s: Sys, e: NetEvent, s': Sys)
    requires Flow(s) && NetStep(s, e, s')
    requires !(e.NewBuffer? || e.Fill? || e.PutDone? || e.TakeDone? || e.Untake? || e.Consume? || e.GiveBack?)
    ensures Flow(s')
  {
    ExchangeStep(s, e, s');
    var ev := ExchangeEvent(s, e);
    if ev.Some? { QuietStep(s.x, ev.value, s'.x); }
    hide Step;
    assert s'.bufs == s.bufs && s'.hold == s.hold && s'.accepted == s.accepted && s'.consumed == s.consumed;
  }

  lemma FlowStep(s: Sys, e: NetEvent, s': Sys)
    requires Hands(s) && Contents(s) && Flow(s) && NetStep(s, e, s')
    ensures Flow(s')
  {
    hide Flow, Hands, Contents, NetStep;
    match e
    case NewBuffer => FlowNewBuffer(s, s');
    case Fill => FlowFill(s, s');
    case PutDone => FlowPutDone(s, s');
    case TakeDone => FlowTake(s, s');
    case Untake => FlowUntake(s, s');
    case Consume(n) => FlowConsume(s, n, s');
    case GiveBack => FlowGiveBack(s, s');
    case _ => FlowQuiet(s, e, s');
  }

  lemma {:induction false} NetRunKeeps(high: nat, states: seq<Sys>, events: seq<NetEvent>, k: nat)
    requires NetRun(high, states, events) && k < |states|
    ensures NetInv(states[k])
  {
    hide NetStep, Hands, Contents, Flow, Counted;
    if k > 0 {
      NetRunKeeps(high, states, events, k - 1);
      var s, s' := states[k - 1], states[k];
      HandsStep(s, events[k - 1], s');
      ContentsStep(s, events[k - 1], s');
      FlowStep(s, events[k - 1], s');
      CountedStep(s, events[k - 1], s');
    } else {
      StartIsSound(high);
    }
  }

  lemma StartIsSound(high: nat)
    ensures NetInv(Start(high))
  {
    forall b: Buf ensures Places(Init(high, 2), b) == 0 { NoHands(2, b); }
  }

  /** In every run, the data accepted is what the consumer has used, then what is left in its buffer, then
      what is queued, in order; and outside databufToQ the count of fetched bytes is the length of what
      was accepted. */
  lemma NothingLostNothingTwice(high: nat, states: seq<Sys>, events: seq<NetEvent>, k: nat)
    requires NetRun(high, states, events) && k < |states|
    ensures Flow(states[k])
    ensures !states[k].prod.Counting? ==> states[k].fetchCount == |states[k].accepted|
  {
    hide NetRun, Hands, Contents, Flow;
    NetRunKeeps(high, states, events, k);
  }

  /** When databufToQ gets to the copy, the buffer has room for the chunk and is nobody else's. */
  lemma CopiesFit(high: nat, states: seq<Sys>, events: seq<NetEvent>, k: nat)
    requires NetRun(high, states, events) && k < |states| && states[k].prod.Ready?
    ensures var s := states[k];
      s.prod.b in s.bufs && |s.prod.chunk| <= s.bufs[s.prod.b].alloc &&
      s.prod.b !in s.x.queue && s.prod.b !in s.x.rqueue && s.hold != Some(s.prod.b)
  {
    NetRunKeeps(high, states, events, k);
    var s := states[k];
    PlacesOfOne(s.x, PRODUCER, s.prod.b);
    if s.hold.Some? { assert s.hold.value in s.x.threads[CONSUMER].hand; }
  }

  // ----- One call of databufToQ, up to the put -----

  function Max(a: nat, b: nat): nat { if a < b then b else a }

  /** The buffer that databufToQ puts, from the size of the recycled one if there is one. */
  function Prepared(recycled: Option<nat>, chunk: string): ABuffer {
    ABuffer(if recycled.Some? && recycled.value >= |chunk| then recycled.value else Max(4096, |chunk|), chunk, 0)
  }

  /** The producer is on its way from the choice of a buffer to the put. */
  ghost predicate Preparing(s: Sys, recycled: Option<nat>, b0: Buf, chunk: string) {
    match s.prod
    case GotRecycled(c, b) => c == chunk && b == b0 && b in s.bufs && recycled == Some(s.bufs[b].alloc)
    case NeedsBuffer(c) => c == chunk && (recycled.None? || recycled.value < |chunk|)
    case Ready(c, b) =>
      c == chunk && b in s.bufs && s.bufs[b].alloc == Prepared(recycled, chunk).alloc &&
      (recycled.Some? && recycled.value >= |chunk| ==> b == b0)
    case Filled(c, b) =>
      c == chunk && b in s.bufs && s.bufs[b] == Prepared(recycled, chunk) &&
      (recycled.Some? && recycled.value >= |chunk| ==> b == b0)
    case _ => false
  }

  lemma PreparingStep(s: Sys, e: NetEvent, s': Sys, recycled: Option<nat>, b0: Buf, chunk: string)
    requires Hands(s) && Preparing(s, recycled, b0, chunk) && NetStep(s, e, s')
    ensures Preparing(s', recycled, b0, chunk) || s'.prod.PutFailed? || s'.prod.Counting?
  {
    hide Step, Owned;
    if e.Consume? && s.prod.Filled? { FilledIsNotHeld(s); }
  }

  /** Within one call, whatever the consumer does meanwhile, the buffer that is put is the prepared one: the recycled
      buffer if it was big enough, else one of 4096 bytes or more. */
  lemma {:induction false} PutsPrepared(
    high: nat, states: seq<Sys>, events: seq<NetEvent>, j: nat, k: nat, recycled: Option<nat>, b0: Buf, chunk: string)
    requires NetRun(high, states, events) && j <= k < |states|
    requires Preparing(states[j], recycled, b0, chunk)
    requires forall m :: j <= m < k ==> !states[m].prod.PutFailed? && !states[m].prod.Counting?
    ensures Preparing(states[k], recycled, b0, chunk) || states[k].prod.PutFailed? || states[k].prod.Counting?
    decreases k
  {
    hide NetStep, Hands, Contents, Flow, Counted, Preparing;
    if j < k {
      PutsPrepared(high, states, events, j, k - 1, recycled, b0, chunk);
      NetRunKeeps(high, states, events, k - 1);
      PreparingStep(states[k - 1], events[k - 1], states[k], recycled, b0, chunk);
    }
  }

  /** How the call gets there: what take_recycled gave it. */
  lemma DataInPrepares(s: Sys, chunk: string, s': Sys)
    requires Hands(s) && NetStep(s, DataIn(chunk), s')
    ensures if s'.prod.GotRecycled? then s'.prod.b in s'.bufs && Preparing(s', Some(s'.bufs[s'.prod.b].alloc), s'.prod.b, chunk)
            else Preparing(s', None, 0, chunk)
  {
    if s'.prod.GotRecycled? { RecycledIsKnown(s); }
  }

  lemma RecycledIsKnown(s: Sys)
    requires Hands(s) && s.x.rqueue != []
    ensures s.x.rqueue[0] in s.bufs
  {
    var b := s.x.rqueue[0];
    assert b in multiset(s.x.rqueue);
    assert Places(s.x, b) > 0;
  }
}
