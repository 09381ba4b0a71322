/** The work queue of src/workqueue.h as a state machine: one client thread, any number of workers, and
    steps that are what a thread does under the mutex between two waits. m_low is 1. Condition variables
    may wake a thread for no reason. */
module WorkQueue {
  /** Where a worker thread is. A woken one has been notified, or woken for no reason, and has yet to
      get the mutex back. */
  datatype WorkerPhase = Busy | Asleep | Woken | Exited

  /** The call in which the client waits. */
  datatype Call<T> = InPut(task: T, flush: bool) | InWaitIdle | InTerminate

  datatype ClientPhase<T> = Free | Blocked(call: Call<T>) | Notified(call: Call<T>)

  /** accepted and taken are histories: every task put on the queue, every task taken from it. */
  datatype State<T> = State(
    queue: seq<T>, high: nat, mOk: bool, open: bool,
    workersExited: nat, clientsWaiting: int, workersWaiting: int,
    workers: seq<WorkerPhase>, client: ClientPhase<T>,
    accepted: seq<T>, taken: seq<T>)
  {
    /** ok(): m_worker_threads is the list of started threads. */
    predicate Ok() { mOk && workersExited == 0 && workers != [] }
  }

  /** WorkQueue(name, hi). */
  function Init<T>(high: nat): State<T> {
    State([], high, true, true, 0, 0, 0, [], Free, [], [])
  }

  function Count(ws: seq<WorkerPhase>, ph: WorkerPhase): (n: nat)
    ensures n <= |ws|
  {
    if ws == [] then 0 else (if ws[|ws| - 1] == ph then 1 else 0) + Count(ws[..|ws| - 1], ph)
  }

  /** notify_one on the workers' condition: any sleeping worker, none if none sleeps. */
  ghost predicate NotifyWorker(before: seq<WorkerPhase>, after: seq<WorkerPhase>) {
    if Asleep in before then
      exists i :: WakesOne(before, i, after)
    else after == before
  }

  ghost predicate WakesOne(before: seq<WorkerPhase>, i: int, after: seq<WorkerPhase>) {
    0 <= i < |before| && before[i] == Asleep && after == before[i := Woken]
  }

  function WakeAll(ws: seq<WorkerPhase>): (r: seq<WorkerPhase>)
    ensures |r| == |ws|
    ensures forall i :: 0 <= i < |ws| ==> r[i] == if ws[i] == Asleep then Woken else ws[i]
  {
    seq(|ws|, i requires 0 <= i < |ws| => if ws[i] == Asleep then Woken else ws[i])
  }

  /** notify_one or notify_all on the clients' condition: there is one client. */
  function NotifyClient<T>(c: ClientPhase<T>): ClientPhase<T> {
    if c.Blocked? then Notified(c.call) else c
  }

  predicate PutMustWait<T>(s: State<T>) { s.Ok() && s.high > 0 && |s.queue| >= s.high }

  predicate IdleMustWait<T>(s: State<T>) {
    (|s.queue| > 0 && s.workersExited < |s.workers|) || s.workersWaiting + s.workersExited < |s.workers|
  }

  /** put, from the test of the wait condition on. */
  ghost predicate PutFrom<T>(s: State<T>, t: T, flush: bool, s': State<T>) {
    if PutMustWait(s) then s' == s.(clientsWaiting := s.clientsWaiting + 1, client := Blocked(InPut(t, flush)))
    else
      (if s.workersWaiting > 0 then NotifyWorker(s.workers, s'.workers) else s'.workers == s.workers) &&
      s' == s.(queue := (if flush then [] else s.queue) + [t], accepted := s.accepted + [t], client := Free,
               workers := s'.workers)
  }

  ghost predicate Put<T>(s: State<T>, t: T, flush: bool, s': State<T>) {
    s.client.Free? && if !s.Ok() || !s.open then s' == s else PutFrom(s, t, flush, s')
  }

  ghost predicate PutWakes<T>(s: State<T>, s': State<T>) {
    s.client.Notified? && s.client.call.InPut? &&
    var s1 := s.(clientsWaiting := s.clientsWaiting - 1, client := Free);
    if !s.Ok() then s' == s1 else PutFrom(s1, s.client.call.task, s.client.call.flush, s')
  }

  function IdleFrom<T>(s: State<T>): State<T> {
    if IdleMustWait(s) then s.(clientsWaiting := s.clientsWaiting + 1, client := Blocked(InWaitIdle))
    else s.(client := Free)
  }

  ghost predicate WaitIdle<T>(s: State<T>, s': State<T>) { s.client.Free? && s' == IdleFrom(s) }

  ghost predicate IdleWakes<T>(s: State<T>, s': State<T>) {
    s.client.Notified? && s.client.call.InWaitIdle? && s' == IdleFrom(s.(clientsWaiting := s.clientsWaiting - 1))
  }

  /** setTerminateAndWait, from the test of its loop on: all workers have to exit, then they are joined
      and the counters cleared. */
  function TerminateFrom<T>(s: State<T>): State<T> {
    if s.workersExited < |s.workers| then
      s.(workers := WakeAll(s.workers), clientsWaiting := s.clientsWaiting + 1, client := Blocked(InTerminate))
    else
      s.(workers := [], workersExited := 0, clientsWaiting := 0, workersWaiting := 0, mOk := true, client := Free)
  }

  ghost predicate Terminate<T>(s: State<T>, s': State<T>) {
    s.client.Free? && s' == if s.workers == [] then s else TerminateFrom(s.(mOk := false))
  }

  ghost predicate TerminateWakes<T>(s: State<T>, s': State<T>) {
    s.client.Notified? && s.client.call.InTerminate? &&
    s' == TerminateFrom(s.(clientsWaiting := s.clientsWaiting - 1))
  }

  /** start: new threads, which are about to call take. */
  ghost predicate Start<T>(s: State<T>, n: nat, s': State<T>) {
    s.client.Free? && s' == s.(workers := s.workers + seq(n, _ => Busy))
  }

  ghost predicate CloseShop<T>(s: State<T>, s': State<T>) { s.client.Free? && s' == s.(open := false) }

  /** take by worker i, from the test of the wait condition on. */
  function TakeFrom<T>(s: State<T>, i: nat): State<T>
    requires i < |s.workers|
  {
    if s.queue == [] then
      s.(workersWaiting := s.workersWaiting + 1, client := NotifyClient(s.client), workers := s.workers[i := Asleep])
    else
      s.(queue := s.queue[1..], taken := s.taken + [s.queue[0]], workers := s.workers[i := Busy],
         client := if s.clientsWaiting > 0 then NotifyClient(s.client) else s.client)
  }

  ghost predicate Take<T>(s: State<T>, i: nat, s': State<T>) {
    i < |s.workers| && s.workers[i] == Busy && s' == if !s.Ok() then s else TakeFrom(s, i)
  }

  ghost predicate TakeWakes<T>(s: State<T>, i: nat, s': State<T>) {
    i < |s.workers| && s.workers[i] == Woken &&
    var s1 := s.(workersWaiting := s.workersWaiting - 1);
    s' == if !s.Ok() then s1.(workers := s.workers[i := Busy]) else TakeFrom(s1, i)
  }

  ghost predicate WorkerExit<T>(s: State<T>, i: nat, s': State<T>) {
    i < |s.workers| && s.workers[i] == Busy &&
    s' == s.(workersExited := s.workersExited + 1, mOk := false, client := NotifyClient(s.client),
             workers := s.workers[i := Exited])
  }

  ghost predicate SpuriousWorker<T>(s: State<T>, i: nat, s': State<T>) {
    i < |s.workers| && s.workers[i] == Asleep && s' == s.(workers := s.workers[i := Woken])
  }

  ghost predicate SpuriousClient<T>(s: State<T>, s': State<T>) {
    s.client.Blocked? && s' == s.(client := Notified(s.client.call))
  }

  datatype Event<T> =
    | EvPut(t: T, flush: bool) | EvPutWakes | EvWaitIdle | EvIdleWakes | EvTerminate | EvTerminateWakes
    | EvStart(n: nat) | EvClose | EvTake(i: nat) | EvTakeWakes(i: nat) | EvExit(i: nat)
    | EvSpuriousWorker(i: nat) | EvSpuriousClient

  ghost predicate Step<T>(s: State<T>, e: Event<T>, s': State<T>) {
    match e
    case EvPut(t, flush) => Put(s, t, flush, s')
    case EvPutWakes => PutWakes(s, s')
    case EvWaitIdle => WaitIdle(s, s')
    case EvIdleWakes => IdleWakes(s, s')
    case EvTerminate => Terminate(s, s')
    case EvTerminateWakes => TerminateWakes(s, s')
    case EvStart(n) => Start(s, n, s')
    case EvClose => CloseShop(s, s')
    case EvTake(i) => Take(s, i, s')
    case EvTakeWakes(i) => TakeWakes(s, i, s')
    case EvExit(i) => WorkerExit(s, i, s')
    case EvSpuriousWorker(i) => SpuriousWorker(s, i, s')
    case EvSpuriousClient => SpuriousClient(s, s')
  }

  /** A run: one state more than events. */
  ghost predicate Run<T>(high: nat, states: seq<State<T>>, events: seq<Event<T>>) {
    |states| == |events| + 1 && states[0] == Init(high) &&
    forall k :: 0 <= k < |events| ==> Step(states[k], events[k], states[k + 1])
  }

  // ----- The invariant -----

  ghost predicate CountersOk<T>(s: State<T>) {
    s.workersWaiting == Count(s.workers, Asleep) + Count(s.workers, Woken) &&
    s.workersExited == Count(s.workers, Exited) &&
    s.clientsWaiting == (if s.client.Free? then 0 else 1)
  }

  /** While a worker sleeps un-notified, each queued task has its own notified worker. */
  ghost predicate TasksHaveWorkers<T>(s: State<T>) {
    s.Ok() && Asleep in s.workers ==> |s.queue| <= Count(s.workers, Woken)
  }

  /** A client blocked un-notified has every reason to wait. */
  ghost predicate ClientWaitsForCause<T>(s: State<T>) {
    s.client.Blocked? ==>
      match s.client.call
      case InPut(_, _) => PutMustWait(s)
      case InWaitIdle => IdleMustWait(s)
      case InTerminate => s.workersExited < |s.workers|
  }

  /** During a termination nobody is left asleep. */
  ghost predicate TerminationWoke<T>(s: State<T>) {
    !s.client.Free? && s.client.call.InTerminate? ==> !s.mOk && Asleep !in s.workers
  }

  ghost predicate Inv<T>(s: State<T>) {
    CountersOk(s) && TasksHaveWorkers(s) && ClientWaitsForCause(s) && TerminationWoke(s)
  }

  // ----- Counting -----

  lemma {:induction false} CountUpdate(ws: seq<WorkerPhase>, i: nat, to: WorkerPhase, ph: WorkerPhase)
    requires i < |ws|
    ensures Count(ws[i := to], ph) == Count(ws, ph) - (if ws[i] == ph then 1 else 0) + (if to == ph then 1 else 0)
  {
    var n := |ws| - 1;
    if i < n {
      CountUpdate(ws[..n], i, to, ph);
      assert ws[i := to][..n] == ws[..n][i := to];
    } else {
      assert ws[i := to][..n] == ws[..n];
    }
  }

  lemma {:induction false} CountAppendBusy(ws: seq<WorkerPhase>, n: nat, ph: WorkerPhase)
    ensures Count(ws + seq(n, _ => Busy), ph) == Count(ws, ph) + (if ph == Busy then n else 0)
    decreases n
  {
    if n == 0 {
      assert ws + seq(n, _ => Busy) == ws;
    } else {
      CountAppendBusy(ws, n - 1, ph);
      var all := ws + seq(n, _ => Busy);
      assert all[..|all| - 1] == ws + seq(n - 1, _ => Busy);
    }
  }

  lemma {:induction false} CountWakeAll(ws: seq<WorkerPhase>)
    ensures Count(WakeAll(ws), Asleep) == 0
    ensures Count(WakeAll(ws), Woken) == Count(ws, Asleep) + Count(ws, Woken)
    ensures Count(WakeAll(ws), Exited) == Count(ws, Exited)
    ensures Count(WakeAll(ws), Busy) == Count(ws, Busy)
  {
    if ws != [] {
      CountWakeAll(ws[..|ws| - 1]);
      assert WakeAll(ws)[..|ws| - 1] == WakeAll(ws[..|ws| - 1]);
    }
  }

  lemma {:induction false} CountZero(ws: seq<WorkerPhase>, ph: WorkerPhase)
    ensures Count(ws, ph) == 0 <==> ph !in ws
  {
    if ws != [] {
      CountZero(ws[..|ws| - 1], ph);
      assert ws == ws[..|ws| - 1] + [ws[|ws| - 1]];
    }
  }

  lemma {:induction false} CountAll(ws: seq<WorkerPhase>)
    ensures Count(ws, Busy) + Count(ws, Asleep) + Count(ws, Woken) + Count(ws, Exited) == |ws|
  {
    if ws != [] { CountAll(ws[..|ws| - 1]); }
  }

  /** All that changes when worker i moves to another phase. */
  lemma Moves(ws: seq<WorkerPhase>, i: nat, to: WorkerPhase)
    requires i < |ws|
    ensures forall ph :: Count(ws[i := to], ph) == Count(ws, ph) - (if ws[i] == ph then 1 else 0) + (if to == ph then 1 else 0)
    ensures Count(ws, Asleep) == 0 <==> Asleep !in ws
    ensures Count(ws[i := to], Asleep) == 0 <==> Asleep !in ws[i := to]
    ensures Count(ws, Busy) + Count(ws, Asleep) + Count(ws, Woken) + Count(ws, Exited) == |ws|
  {
    forall ph { CountUpdate(ws, i, to, ph); }
    CountZero(ws, Asleep);
    CountZero(ws[i := to], Asleep);
    CountAll(ws);
  }

  // ----- Each step keeps the invariant -----

  lemma PutFromKeeps<T>(s: State<T>, t: T, flush: bool, s': State<T>)
    requires CountersOk(s) && TasksHaveWorkers(s) && s.client.Free? && s.Ok()
    requires PutFrom(s, t, flush, s')
    ensures Inv(s')
  {
    CountZero(s.workers, Asleep);
    CountZero(s.workers, Woken);
    if !PutMustWait(s) && s.workersWaiting > 0 && Asleep in s.workers {
      var i :| WakesOne(s.workers, i, s'.workers);
      Moves(s.workers, i, Woken);
    }
  }

  lemma TakeFromKeeps<T>(s: State<T>, i: nat)
    requires i < |s.workers| && s.Ok()
    requires s.workersWaiting == Count(s.workers, Asleep) + Count(s.workers, Woken) - (if s.workers[i] == Woken then 1 else 0)
    requires s.workersExited == Count(s.workers, Exited) && s.clientsWaiting == (if s.client.Free? then 0 else 1)
    requires s.workers[i] == Busy || s.workers[i] == Woken
    requires TasksHaveWorkers(s) && TerminationWoke(s)
    ensures Inv(TakeFrom(s, i))
  {
    Moves(s.workers, i, Asleep);
    Moves(s.workers, i, Busy);
  }

  lemma TerminateFromKeeps<T>(s: State<T>)
    requires s.workersWaiting == Count(s.workers, Asleep) + Count(s.workers, Woken)
    requires s.workersExited == Count(s.workers, Exited) && s.clientsWaiting == 0 && !s.mOk
    ensures Inv(TerminateFrom(s))
  {
    CountWakeAll(s.workers);
    CountZero(WakeAll(s.workers), Asleep);
  }

  lemma ClientStepKeeps<T>(s: State<T>, e: Event<T>, s': State<T>)
    requires Inv(s) && Step(s, e, s')
    requires e.EvPut? || e.EvPutWakes? || e.EvWaitIdle? || e.EvIdleWakes? || e.EvTerminate? || e.EvTerminateWakes?
          || e.EvStart? || e.EvClose? || e.EvSpuriousClient?
    ensures Inv(s')
  {
    match e
    case EvPut(t, flush) => if s.Ok() && s.open { PutFromKeeps(s, t, flush, s'); }
    case EvPutWakes =>
      if s.Ok() {
        var s1 := s.(clientsWaiting := s.clientsWaiting - 1, client := Free);
        PutFromKeeps(s1, s.client.call.task, s.client.call.flush, s');
      }
    case EvTerminate => if s.workers != [] { TerminateFromKeeps(s.(mOk := false)); }
    case EvTerminateWakes => TerminateFromKeeps(s.(clientsWaiting := s.clientsWaiting - 1));
    case EvStart(n) => StartKeeps(s, n, s');
    case _ =>
  }

  lemma StartKeeps<T>(s: State<T>, n: nat, s': State<T>)
    requires Inv(s) && Start(s, n, s')
    ensures Inv(s')
  {
    forall ph { CountAppendBusy(s.workers, n, ph); }
    forall ph { CountZero(s.workers, ph); }
    assert Asleep in s'.workers ==> Asleep in s.workers;
  }

  lemma TakeWakesKeeps<T>(s: State<T>, i: nat, s': State<T>)
    requires Inv(s) && TakeWakes(s, i, s')
    ensures Inv(s')
  {
    if s.Ok() { TakeFromKeeps(s.(workersWaiting := s.workersWaiting - 1), i); } else { Moves(s.workers, i, Busy); }
  }

  lemma ExitKeeps<T>(s: State<T>, i: nat, s': State<T>)
    requires Inv(s) && WorkerExit(s, i, s')
    ensures Inv(s')
  {
    Moves(s.workers, i, Exited);
  }

  lemma SpuriousWorkerKeeps<T>(s: State<T>, i: nat, s': State<T>)
    requires Inv(s) && SpuriousWorker(s, i, s')
    ensures Inv(s')
  {
    Moves(s.workers, i, Woken);
  }

  lemma WorkerStepKeeps<T>(s: State<T>, e: Event<T>, s': State<T>)
    requires Inv(s) && Step(s, e, s')
    requires e.EvTake? || e.EvTakeWakes? || e.EvExit? || e.EvSpuriousWorker?
    ensures Inv(s')
  {
    match e
    case EvTake(i) => if s.Ok() { TakeFromKeeps(s, i); }
    case EvTakeWakes(i) => TakeWakesKeeps(s, i, s');
    case EvExit(i) => ExitKeeps(s, i, s');
    case EvSpuriousWorker(i) => SpuriousWorkerKeeps(s, i, s');
  }

  lemma StepKeeps<T>(s: State<T>, e: Event<T>, s': State<T>)
    requires Inv(s) && Step(s, e, s')
    ensures Inv(s')
  {
    if e.EvTake? || e.EvTakeWakes? || e.EvExit? || e.EvSpuriousWorker? { WorkerStepKeeps(s, e, s'); }
    else { ClientStepKeeps(s, e, s'); }
  }

  lemma {:induction false} RunKeeps<T>(high: nat, states: seq<State<T>>, events: seq<Event<T>>, k: nat)
    requires Run(high, states, events) && k < |states|
    ensures Inv(states[k])
  {
    if k > 0 {
      RunKeeps(high, states, events, k - 1);
      StepKeeps(states[k - 1], events[k - 1], states[k]);
    }
  }

  // ----- No lost wakeup -----

  /** Some worker thread can go on without being notified by anyone. */
  ghost predicate SomeWorkerRuns<T>(s: State<T>) { Busy in s.workers || Woken in s.workers }

  /** Work queued means that a worker is up, as long as the queue is ok. */
  lemma NoTaskIsForgotten<T>(high: nat, states: seq<State<T>>, events: seq<Event<T>>, k: nat)
    requires Run(high, states, events) && k < |states|
    requires states[k].Ok() && states[k].queue != []
    ensures SomeWorkerRuns(states[k])
  {
    RunKeeps(high, states, events, k);
    var s := states[k];
    CountAll(s.workers);
    forall ph { CountZero(s.workers, ph); }
  }

  /** A client that nobody has notified waits for a worker that is up: in put and waitIdle while the
      queue is ok, in a termination always. So it is left alone only in waitIdle, and only when it never
      returns (NeverReturnsExactly). */
  lemma NoClientIsForgotten<T>(high: nat, states: seq<State<T>>, events: seq<Event<T>>, k: nat)
    requires Run(high, states, events) && k < |states|
    requires states[k].client.Blocked?
    ensures states[k].Ok() || states[k].client.call.InTerminate? ==> SomeWorkerRuns(states[k])
    ensures states[k].client.call.InPut? ==> states[k].Ok()
    ensures !SomeWorkerRuns(states[k]) ==>
      states[k].client.call.InWaitIdle? && Abandoned(states[k])
  {
    RunKeeps(high, states, events, k);
    var s := states[k];
    CountAll(s.workers);
    forall ph { CountZero(s.workers, ph); }
  }

  /** When waitIdle lets the client go, the queue is empty and every worker waits, or all have exited. */
  lemma IdleMeansIdle<T>(high: nat, states: seq<State<T>>, events: seq<Event<T>>, k: nat)
    requires Run(high, states, events) && k < |events|
    requires events[k].EvWaitIdle? || events[k].EvIdleWakes?
    requires states[k + 1].client.Free?
    ensures Busy !in states[k + 1].workers
    ensures states[k + 1].queue == [] || (Asleep !in states[k + 1].workers && Woken !in states[k + 1].workers)
  {
    RunKeeps(high, states, events, k + 1);
    var s := states[k + 1];
    CountAll(s.workers);
    forall ph { CountZero(s.workers, ph); }
    assert !IdleMustWait(s);
  }

  // ----- When waitIdle never returns -----

  /** waitIdle does not look at ok(). What makes it wait in vain: a task that nobody will take, and a worker
      that nobody will wake. A client can look at all three before the call. */
  ghost predicate Abandoned<T>(s: State<T>) { !s.Ok() && s.queue != [] && Asleep in s.workers }

  ghost predicate InIdleCall<T>(s: State<T>) { !s.client.Free? && s.client.call.InWaitIdle? }

  /** A continuation without spurious wakeups of workers. */
  ghost predicate Path<T>(states: seq<State<T>>, events: seq<Event<T>>) {
    |states| == |events| + 1 &&
    forall k :: 0 <= k < |events| ==> Step(states[k], events[k], states[k + 1]) && !events[k].EvSpuriousWorker?
  }

  ghost predicate LeadsTo<T>(from: State<T>, states: seq<State<T>>, events: seq<Event<T>>, to: State<T>) {
    Path(states, events) && states[0] == from && states[|events|] == to
  }

  /** However the threads go on, the client stays inside its call. */
  ghost predicate NeverReturns<T(!new)>(s: State<T>) {
    forall states, events, to :: LeadsTo(s, states, events, to) ==> !to.client.Free?
  }

  lemma AbandonedStays<T>(s: State<T>, e: Event<T>, s': State<T>)
    requires Inv(s) && InIdleCall(s) && Abandoned(s) && Step(s, e, s') && !e.EvSpuriousWorker?
    ensures InIdleCall(s') && Abandoned(s')
  {
    CountAll(s.workers);
    CountZero(s.workers, Asleep);
    var i :| 0 <= i < |s.workers| && s.workers[i] == Asleep;
    assert e.EvTakeWakes? || e.EvTake? || e.EvExit? ==> s'.workers[i] == Asleep;
  }

  lemma {:induction false} AbandonedForGood<T>(states: seq<State<T>>, events: seq<Event<T>>, k: nat)
    requires Path(states, events) && k < |states| && Inv(states[0]) && InIdleCall(states[0]) && Abandoned(states[0])
    ensures Inv(states[k]) && InIdleCall(states[k]) && Abandoned(states[k])
  {
    hide Inv, Step, Abandoned;
    if k > 0 {
      AbandonedForGood(states, events, k - 1);
      AbandonedStays(states[k - 1], events[k - 1], states[k]);
      StepKeeps(states[k - 1], events[k - 1], states[k]);
    }
  }

  /** What the workers still have to do before they all sleep or have exited. */
  function Effort<T>(s: State<T>): nat { |s.queue| + Count(s.workers, Busy) + 2 * Count(s.workers, Woken) }

  /** Some worker is up and takes a task, falls asleep, or exits. */
  lemma WorkerGoesOn<T>(s: State<T>) returns (e: Event<T>, s': State<T>)
    requires Inv(s) && InIdleCall(s) && !Abandoned(s) && SomeWorkerRuns(s)
    ensures Step(s, e, s') && !e.EvSpuriousWorker? && InIdleCall(s') && !Abandoned(s') && Effort(s') < Effort(s)
  {
    if Woken in s.workers {
      var i :| 0 <= i < |s.workers| && s.workers[i] == Woken;
      e, s' := WokenGoesOn(s, i);
    } else {
      var i :| 0 <= i < |s.workers| && s.workers[i] == Busy;
      e, s' := BusyGoesOn(s, i);
    }
  }

  lemma WokenGoesOn<T>(s: State<T>, i: nat) returns (e: Event<T>, s': State<T>)
    requires Inv(s) && InIdleCall(s) && !Abandoned(s) && i < |s.workers| && s.workers[i] == Woken
    ensures Step(s, e, s') && !e.EvSpuriousWorker? && InIdleCall(s') && !Abandoned(s') && Effort(s') < Effort(s)
  {
    e := EvTakeWakes(i);
    var s1 := s.(workersWaiting := s.workersWaiting - 1);
    s' := if !s.Ok() then s1.(workers := s.workers[i := Busy]) else TakeFrom(s1, i);
    Moves(s.workers, i, s'.workers[i]);
  }

  lemma BusyGoesOn<T>(s: State<T>, i: nat) returns (e: Event<T>, s': State<T>)
    requires Inv(s) && InIdleCall(s) && !Abandoned(s) && i < |s.workers| && s.workers[i] == Busy
    ensures Step(s, e, s') && !e.EvSpuriousWorker? && InIdleCall(s') && !Abandoned(s') && Effort(s') < Effort(s)
  {
    if s.Ok() {
      e, s' := EvTake(i), TakeFrom(s, i);
    } else {
      e := EvExit(i);
      s' := s.(workersExited := s.workersExited + 1, mOk := false, client := NotifyClient(s.client),
               workers := s.workers[i := Exited]);
    }
    Moves(s.workers, i, s'.workers[i]);
  }

  /** With nobody up, a client that is not abandoned has been notified and finds the queue idle. */
  lemma IdleClientReturns<T>(s: State<T>) returns (s': State<T>)
    requires Inv(s) && InIdleCall(s) && !Abandoned(s) && !SomeWorkerRuns(s)
    ensures Step(s, EvIdleWakes, s') && s'.client.Free?
  {
    CountAll(s.workers);
    forall ph { CountZero(s.workers, ph); }
    s' := IdleFrom(s.(clientsWaiting := s.clientsWaiting - 1));
  }

  lemma {:induction false} CanReturn<T>(s: State<T>) returns (states: seq<State<T>>, events: seq<Event<T>>, to: State<T>)
    requires Inv(s) && InIdleCall(s) && !Abandoned(s)
    ensures LeadsTo(s, states, events, to) && to.client.Free?
    decreases Effort(s)
  {
    hide Step, Inv, Abandoned, Effort, InIdleCall;
    if SomeWorkerRuns(s) {
      var e, next := WorkerGoesOn(s);
      StepKeeps(s, e, next);
      var more, others;
      more, others, to := CanReturn(next);
      states, events := [s] + more, [e] + others;
      forall k | 0 <= k < |events| ensures Step(states[k], events[k], states[k + 1]) && !events[k].EvSpuriousWorker? {
        if k > 0 { assert Step(more[k - 1], others[k - 1], more[k]) && !others[k - 1].EvSpuriousWorker?; }
      }
    } else {
      to := IdleClientReturns(s);
      states, events := [s, to], [EvIdleWakes];
    }
  }

  /** A client inside waitIdle never returns, however the threads go on, if and only if it is abandoned. */
  lemma NeverReturnsExactly<T(!new)>(high: nat, states: seq<State<T>>, events: seq<Event<T>>, k: nat)
    requires Run(high, states, events) && k < |states| && InIdleCall(states[k])
    ensures NeverReturns(states[k]) <==> Abandoned(states[k])
  {
    RunKeeps(high, states, events, k);
    ReturnsUnlessAbandoned(states[k]);
  }

  lemma ReturnsUnlessAbandoned<T(!new)>(s: State<T>)
    requires Inv(s) && InIdleCall(s)
    ensures NeverReturns(s) <==> Abandoned(s)
  {
    hide Step, Inv, Abandoned;
    if Abandoned(s) {
      forall states, events, to | LeadsTo(s, states, events, to) ensures !to.client.Free? {
        AbandonedForGood(states, events, |events|);
      }
    } else {
      var states, events, to := CanReturn(s);
    }
  }

  /** Before the call the same three things decide: the call then waits, and never returns. */
  lemma AbandonedBeforeTheCall<T(!new)>(high: nat, states: seq<State<T>>, events: seq<Event<T>>, k: nat)
    requires Run(high, states, events) && k < |events| && events[k].EvWaitIdle?
    ensures states[k + 1].client == Blocked(InWaitIdle) && NeverReturns(states[k + 1]) <==> Abandoned(states[k])
  {
    RunKeeps(high, states, events, k);
    RunKeeps(high, states, events, k + 1);
    var s, s' := states[k], states[k + 1];
    assert Step(s, EvWaitIdle, s');
    WaitsIfAbandoned(s, s');
    if InIdleCall(s') { ReturnsUnlessAbandoned(s'); }
  }

  lemma WaitsIfAbandoned<T>(s: State<T>, s': State<T>)
    requires Inv(s) && WaitIdle(s, s')
    ensures Abandoned(s) ==> InIdleCall(s') && s'.client.Blocked?
    ensures InIdleCall(s') ==> s'.client.Blocked? && (Abandoned(s') <==> Abandoned(s))
  {
    CountAll(s.workers);
    CountZero(s.workers, Asleep);
  }

  /** It happens. With three workers, two asleep: a task is put, which wakes one, and the third exits at once; the
      woken one finds the queue not ok and exits too. The task stays, and waitIdle blocks the client; no step is
      left but spurious wakeups, and only that of the last worker could free the client. */
  lemma WaitIdleCanHang<T(!new)>(t: T) returns (states: seq<State<T>>, events: seq<Event<T>>)
    ensures Run(0, states, events)
    ensures var s := states[|states| - 1];
      s.client == Blocked(InWaitIdle) && NeverReturns(s) && !SomeWorkerRuns(s) &&
      forall e, s' :: Step(s, e, s') ==> e.EvSpuriousClient? || e.EvSpuriousWorker?
  {
    var s8;
    states, events, s8 := HangingRun(t);
    NobodyMoves(s8);
    NeverReturnsExactly(0, states, events, 8);
  }

  lemma HangingRun<T>(t: T) returns (states: seq<State<T>>, events: seq<Event<T>>, s8: State<T>)
    ensures Run(0, states, events) && |events| == 8 && states[8] == s8
    ensures s8.client == Blocked(InWaitIdle) && Abandoned(s8) && !SomeWorkerRuns(s8)
  {
    hide Step, SomeWorkerRuns, Abandoned;
    var s1, s2, s3 := TwoFallAsleep(t);
    var s4, s5, s6, s7;
    s4, s5, s6, s7, s8 := AllButOneExit(t, s3);
    events := [EvStart(3), EvTake(0), EvTake(1), EvPut(t, false), EvExit(2), EvTakeWakes(0), EvExit(0), EvWaitIdle];
    states := [Init(0), s1, s2, s3, s4, s5, s6, s7, s8];
  }

  lemma TwoFallAsleep<T>(t: T) returns (s1: State<T>, s2: State<T>, s3: State<T>)
    ensures s3 == Init(0).(workers := [Asleep, Asleep, Busy], workersWaiting := 2)
    ensures Step(Init(0), EvStart(3), s1) && Step(s1, EvTake(0), s2) && Step(s2, EvTake(1), s3)
  {
    s1 := Init(0).(workers := [Busy, Busy, Busy]);
    s2 := s1.(workers := [Asleep, Busy, Busy], workersWaiting := 1);
    s3 := s2.(workers := [Asleep, Asleep, Busy], workersWaiting := 2);
    assert s1.workers == [] + seq(3, _ => Busy);
    assert s2.workers == s1.workers[0 := Asleep] && s3.workers == s2.workers[1 := Asleep];
  }

  lemma AllButOneExit<T>(t: T, s3: State<T>)
      returns (s4: State<T>, s5: State<T>, s6: State<T>, s7: State<T>, s8: State<T>)
    requires s3 == Init(0).(workers := [Asleep, Asleep, Busy], workersWaiting := 2)
    ensures s8.client == Blocked(InWaitIdle) && Abandoned(s8) && !SomeWorkerRuns(s8)
    ensures Step(s3, EvPut(t, false), s4) && Step(s4, EvExit(2), s5) && Step(s5, EvTakeWakes(0), s6)
    ensures Step(s6, EvExit(0), s7) && Step(s7, EvWaitIdle, s8)
  {
    s4 := s3.(workers := [Woken, Asleep, Busy], queue := [t], accepted := [t]);
    assert Step(s3, EvPut(t, false), s4) by {
      assert WakesOne(s3.workers, 0, s4.workers);
      assert s4.queue == s3.queue + [t] && s4.accepted == s3.accepted + [t];
    }
    hide NotifyWorker;
    s5 := s4.(workers := [Woken, Asleep, Exited], workersExited := 1, mOk := false);
    assert s5.workers == s4.workers[2 := Exited];
    s6 := s5.(workers := [Busy, Asleep, Exited], workersWaiting := 1);
    assert s6.workers == s5.workers[0 := Busy];
    s7 := s6.(workers := [Exited, Asleep, Exited], workersExited := 2);
    assert s7.workers == s6.workers[0 := Exited];
    s8 := s7.(client := Blocked(InWaitIdle), clientsWaiting := 1);
  }

  lemma NobodyMoves<T(!new)>(s: State<T>)
    requires s.client.Blocked? && !SomeWorkerRuns(s)
    ensures forall e, s' :: Step(s, e, s') ==> e.EvSpuriousClient? || e.EvSpuriousWorker?
  {
  }

  // ----- What is taken -----

  ghost predicate AllPutsFlush<T>(events: seq<Event<T>>) {
    forall k :: 0 <= k < |events| && events[k].EvPut? ==> events[k].flush
  }

  ghost predicate OnlyNewestLeft<T>(s: State<T>) {
    (!s.client.Free? && s.client.call.InPut? ==> s.client.call.flush) &&
    if s.accepted == [] then s.queue == s.taken == []
    else
      var newest := s.accepted[|s.accepted| - 1];
      s.queue == [newest] || (s.queue == [] && s.taken != [] && s.taken[|s.taken| - 1] == newest)
  }

  lemma NewestPutFrom<T>(s: State<T>, t: T, s': State<T>)
    requires s.client.Free? && OnlyNewestLeft(s) && PutFrom(s, t, true, s')
    ensures OnlyNewestLeft(s')
  {
    hide NotifyWorker;
    if !PutMustWait(s) { assert s'.queue == [] + [t] == [t]; }
  }

  lemma NewestTakeFrom<T>(s: State<T>, i: nat)
    requires i < |s.workers| && OnlyNewestLeft(s)
    ensures OnlyNewestLeft(TakeFrom(s, i))
  {
    if s.queue != [] {
      assert s.queue == [s.queue[0]] && s.queue[1..] == [];
    }
  }

  /** The steps that neither put nor take. */
  lemma QuietStep<T>(s: State<T>, e: Event<T>, s': State<T>)
    requires Step(s, e, s') && !e.EvPut? && !e.EvPutWakes? && !e.EvTake? && !e.EvTakeWakes?
    ensures s'.queue == s.queue && s'.accepted == s.accepted && s'.taken == s.taken
    ensures !s'.client.Free? && s'.client.call.InPut? ==> !s.client.Free? && s.client.call == s'.client.call
  {
    hide Count, WakeAll;
  }

  lemma NewestStep<T>(s: State<T>, e: Event<T>, s': State<T>)
    requires OnlyNewestLeft(s) && Step(s, e, s') && (e.EvPut? ==> e.flush)
    ensures OnlyNewestLeft(s')
  {
    hide PutFrom, TakeFrom, Count, WakeAll;
    match e
    case EvPut(t, flush) => if s.Ok() && s.open { NewestPutFrom(s, t, s'); }
    case EvPutWakes =>
      if s.Ok() {
        NewestPutFrom(s.(clientsWaiting := s.clientsWaiting - 1, client := Free), s.client.call.task, s');
      }
    case EvTake(i) => NewestTakeFrom(s, i);
    case EvTakeWakes(i) => NewestTakeFrom(s.(workersWaiting := s.workersWaiting - 1), i);
    case _ => QuietStep(s, e, s');
  }

  /** If every put flushes, the queue holds at most the newest task, and when it is empty the last task
      taken is the last one put. */
  lemma {:induction false} NewestWins<T>(high: nat, states: seq<State<T>>, events: seq<Event<T>>, k: nat)
    requires Run(high, states, events) && k < |states| && AllPutsFlush(events)
    ensures OnlyNewestLeft(states[k])
  {
    hide Step;
    if k > 0 {
      NewestWins(high, states, events, k - 1);
      NewestStep(states[k - 1], events[k - 1], states[k]);
    }
  }

  ghost predicate InOrder<T>(s: State<T>) {
    s.accepted == s.taken + s.queue && (!s.client.Free? && s.client.call.InPut? ==> !s.client.call.flush)
  }

  lemma InOrderPutFrom<T>(s: State<T>, t: T, s': State<T>)
    requires s.client.Free? && InOrder(s) && PutFrom(s, t, false, s')
    ensures InOrder(s')
  {
    hide NotifyWorker;
  }

  lemma InOrderTakeFrom<T>(s: State<T>, i: nat)
    requires i < |s.workers| && InOrder(s)
    ensures InOrder(TakeFrom(s, i))
  {
    if s.queue != [] {
      assert s.queue == [s.queue[0]] + s.queue[1..];
    }
  }

  lemma InOrderStep<T>(s: State<T>, e: Event<T>, s': State<T>)
    requires InOrder(s) && Step(s, e, s') && (e.EvPut? ==> !e.flush)
    ensures InOrder(s')
  {
    hide PutFrom, TakeFrom, Count, WakeAll;
    match e
    case EvPut(t, flush) => if s.Ok() && s.open { InOrderPutFrom(s, t, s'); }
    case EvPutWakes =>
      if s.Ok() {
        InOrderPutFrom(s.(clientsWaiting := s.clientsWaiting - 1, client := Free), s.client.call.task, s');
      }
    case EvTake(i) => InOrderTakeFrom(s, i);
    case EvTakeWakes(i) => InOrderTakeFrom(s.(workersWaiting := s.workersWaiting - 1), i);
    case _ => QuietStep(s, e, s');
  }

  /** If no put flushes, tasks are taken in the order they were put, each once. */
  lemma {:induction false} FirstInFirstOut<T>(high: nat, states: seq<State<T>>, events: seq<Event<T>>, k: nat)
    requires Run(high, states, events) && k < |states|
    requires forall j :: 0 <= j < |events| && events[j].EvPut? ==> !events[j].flush
    ensures InOrder(states[k])
  {
    hide Step;
    if k > 0 {
      FirstInFirstOut(high, states, events, k - 1);
      InOrderStep(states[k - 1], events[k - 1], states[k]);
    }
  }

  // ----- How long the queue gets, and what a closed one takes -----

  /** With a limit, the queue never gets longer. */
  lemma {:induction false} QueueStaysShort<T>(high: nat, states: seq<State<T>>, events: seq<Event<T>>, k: nat)
    requires Run(high, states, events) && k < |states| && high > 0
    ensures |states[k].queue| <= high && states[k].high == high
  {
    hide Step;
    if k > 0 {
      QueueStaysShort(high, states, events, k - 1);
      ShortStep(states[k - 1], events[k - 1], states[k]);
    }
  }

  /** A put never makes the queue longer than the limit, unless the queue is not ok, when it does not put. */
  lemma ShortStep<T>(s: State<T>, e: Event<T>, s': State<T>)
    requires Step(s, e, s') && s.high > 0 && |s.queue| <= s.high
    ensures |s'.queue| <= s'.high == s.high
  {
  }

  ghost predicate Closed<T>(s: State<T>) { !s.open && (s.client.Free? || !s.client.call.InPut?) }

  /** A closed queue with no put under way accepts nothing any more. */
  lemma {:induction false} ClosedAcceptsNothing<T>(states: seq<State<T>>, events: seq<Event<T>>, k: nat)
    requires |states| == |events| + 1 && forall j :: 0 <= j < |events| ==> Step(states[j], events[j], states[j + 1])
    requires k < |states| && Closed(states[0])
    ensures Closed(states[k]) && states[k].accepted == states[0].accepted
  {
    hide Step, Closed;
    if k > 0 {
      ClosedAcceptsNothing(states, events, k - 1);
      ClosedStep(states[k - 1], events[k - 1], states[k]);
    }
  }

  lemma ClosedStep<T>(s: State<T>, e: Event<T>, s': State<T>)
    requires Step(s, e, s') && Closed(s)
    ensures Closed(s') && s'.accepted == s.accepted
  {
  }

  // ----- The class -----

  /** What a call has returned, if it does not wait. */
  datatype Outcome = Sleeps | Returns(ok: bool)

  /** The object under its mutex; where the threads are, and the two histories, are ghosts. A method is one step:
      the code from the entry of a call, or from the end of its wait, to the return or the next wait. */
  class Queue<T(!new)> {
    const high: nat
    var queue: seq<T>
    var mOk: bool
    var openForBusiness: bool
    var workerThreads: nat
    var workersExited: nat
    var clientsWaiting: int
    var workersWaiting: int
    ghost var workers: seq<WorkerPhase>
    ghost var client: ClientPhase<T>
    ghost var accepted: seq<T>
    ghost var taken: seq<T>

    ghost function View(): State<T>
      reads this
    {
      State(queue, high, mOk, openForBusiness, workersExited, clientsWaiting, workersWaiting, workers, client,
            accepted, taken)
    }

    ghost predicate Valid()
      reads this
    {
      workerThreads == |workers|
    }

    constructor (hi: nat)
      ensures Valid() && View() == Init(hi)
    {
      high, queue, mOk, openForBusiness := hi, [], true, true;
      workerThreads, workersExited, clientsWaiting, workersWaiting := 0, 0, 0, 0;
      workers, client, accepted, taken := [], Free, [], [];
    }

    predicate Ok()
      requires Valid()
      reads this
      ensures Ok() == View().Ok()
    {
      mOk && workersExited == 0 && workerThreads != 0
    }

    /** Any sleeping worker may be the one. */
    ghost method NotifyOneWorker()
      requires Valid()
      modifies this`workers
      ensures Valid() && NotifyWorker(old(workers), workers)
    {
      if Asleep in workers {
        var i :| 0 <= i < |workers| && workers[i] == Asleep;
        ghost var before := workers;
        workers := workers[i := Woken];
        assert WakesOne(before, i, workers);
      }
    }

    /** The rest of put, from its wait loop on. */
    method PutOrWait(t: T, flushprevious: bool) returns (r: Outcome)
      requires Valid() && client.Free?
      modifies this
      ensures Valid() && PutFrom(old(View()), t, flushprevious, View())
      ensures r == if client.Blocked? then Sleeps else Returns(true)
      ensures accepted == old(accepted) + if r.Sleeps? then [] else [t]
    {
      if Ok() && high > 0 && |queue| >= high {
        clientsWaiting := clientsWaiting + 1;
        client := Blocked(InPut(t, flushprevious));
        return Sleeps;
      }
      if flushprevious {
        while queue != []
          invariant unchanged(`mOk, `openForBusiness, `workerThreads, `workersExited, `clientsWaiting, `workersWaiting)
          invariant unchanged(`workers, `client, `accepted, `taken)
          decreases |queue|
        {
          queue := queue[1..];
        }
      }
      queue := queue + [t];
      accepted := accepted + [t];
      if workersWaiting > 0 { NotifyOneWorker(); }
      return Returns(true);
    }

    method PutTask(t: T, flushprevious: bool) returns (r: Outcome)
      requires Valid() && client.Free?
      modifies this
      ensures Valid() && Step(old(View()), EvPut(t, flushprevious), View())
      ensures r == Returns(false) <==> !old(Ok()) || !old(openForBusiness)
      ensures r.Sleeps? <==> old(Ok()) && old(openForBusiness) && high > 0 && |old(queue)| >= high
      ensures queue == if r == Returns(true) then (if flushprevious then [] else old(queue)) + [t] else old(queue)
      ensures r.Sleeps? <==> client.Blocked?
      ensures accepted == old(accepted) + if r == Returns(true) then [t] else []
    {
      if !Ok() || !openForBusiness { return Returns(false); }
      r := PutOrWait(t, flushprevious);
    }

    method CloseShop()
      requires Valid() && client.Free?
      modifies this`openForBusiness
      ensures Valid() && Step(old(View()), EvClose, View())
    {
      openForBusiness := false;
    }

    /** put after its wait. */
    method PutGoesOn(t: T, flushprevious: bool) returns (r: Outcome)
      requires Valid() && client == Notified(InPut(t, flushprevious))
      modifies this
      ensures Valid() && Step(old(View()), EvPutWakes, View())
      ensures r == Returns(false) <==> !old(Ok())
      ensures r.Sleeps? <==> old(Ok()) && high > 0 && |old(queue)| >= high
      ensures queue == if r == Returns(true) then (if flushprevious then [] else old(queue)) + [t] else old(queue)
      ensures r.Sleeps? <==> client.Blocked?
      ensures accepted == old(accepted) + if r == Returns(true) then [t] else []
    {
      clientsWaiting := clientsWaiting - 1;
      client := Free;
      if !Ok() { return Returns(false); }
      r := PutOrWait(t, flushprevious);
    }

    /** The rest of take, from its wait loop on, on a queue that is ok. */
    method TakeOrWait(ghost i: nat) returns (task: seq<T>)
      requires Valid() && i < |workers|
      modifies this
      ensures Valid() && View() == TakeFrom(old(View()), i)
      ensures task == if old(queue) == [] then [] else [old(queue)[0]]
    {
      if |queue| < 1 {
        workersWaiting := workersWaiting + 1;
        client := NotifyClient(client);
        workers := workers[i := Asleep];
        return [];
      }
      task := [queue[0]];
      taken := taken + task;
      queue := queue[1..];
      workers := workers[i := Busy];
      if clientsWaiting > 0 { client := NotifyClient(client); }
    }

    method TakeTask(ghost i: nat) returns (task: seq<T>)
      requires Valid() && i < |workers| && workers[i] == Busy
      modifies this
      ensures Valid() && Step(old(View()), EvTake(i), View())
      ensures task == if old(Ok()) && old(queue) != [] then [old(queue)[0]] else []
      ensures workers[i] == Asleep <==> old(Ok()) && old(queue) == []
      ensures queue == if task == [] then old(queue) else old(queue)[1..]
    {
      if !Ok() { return []; }
      task := TakeOrWait(i);
    }

    /** take after its wait. */
    method TakeGoesOn(ghost i: nat) returns (task: seq<T>)
      requires Valid() && i < |workers| && workers[i] == Woken
      modifies this
      ensures Valid() && Step(old(View()), EvTakeWakes(i), View())
      ensures task == if old(Ok()) && old(queue) != [] then [old(queue)[0]] else []
      ensures workers[i] == Asleep <==> old(Ok()) && old(queue) == []
      ensures queue == if task == [] then old(queue) else old(queue)[1..]
    {
      workersWaiting := workersWaiting - 1;
      if !Ok() {
        workers := workers[i := Busy];
        return [];
      }
      task := TakeOrWait(i);
    }

    /** waitIdle, from the test of its loop on. */
    method IdleOrWait() returns (r: Outcome)
      requires Valid()
      modifies this
      ensures Valid() && View() == IdleFrom(old(View()))
      ensures r.Sleeps? <==> (queue != [] && workersExited < workerThreads) || workersWaiting + workersExited < workerThreads
      ensures r == if IdleMustWait(old(View())) then Sleeps else Returns(old(Ok()))
    {
      if (|queue| > 0 && workersExited < workerThreads) || workersWaiting + workersExited < workerThreads {
        clientsWaiting := clientsWaiting + 1;
        client := Blocked(InWaitIdle);
        return Sleeps;
      }
      client := Free;
      return Returns(Ok());
    }

    method WaitIdleCall() returns (r: Outcome)
      requires Valid() && client.Free?
      modifies this
      ensures Valid() && Step(old(View()), EvWaitIdle, View())
      ensures r == if IdleMustWait(old(View())) then Sleeps else Returns(old(Ok()))
    {
      r := IdleOrWait();
    }

    /** waitIdle after its wait. */
    method WaitIdleGoesOn() returns (r: Outcome)
      requires Valid() && client == Notified(InWaitIdle)
      modifies this
      ensures Valid() && Step(old(View()), EvIdleWakes, View())
      ensures r == if IdleMustWait(old(View())) then Sleeps else Returns(old(Ok()))
    {
      clientsWaiting := clientsWaiting - 1;
      r := IdleOrWait();
    }

    /** setTerminateAndWait, from the test of its loop on. */
    method TerminateOrWait() returns (r: Outcome)
      requires Valid()
      modifies this
      ensures Valid() && View() == TerminateFrom(old(View()))
      ensures r == if old(workersExited) < old(workerThreads) then Sleeps else Returns(true)
      ensures r.Sleeps? ==> Asleep !in workers
      ensures r == Returns(true) ==>
        mOk && workers == [] && workersExited == 0 && clientsWaiting == 0 && workersWaiting == 0 && queue == old(queue)
    {
      if workersExited < workerThreads {
        workers := WakeAll(workers);
        clientsWaiting := clientsWaiting + 1;
        client := Blocked(InTerminate);
        return Sleeps;
      }
      workers, workerThreads := [], 0;
      workersExited, clientsWaiting, workersWaiting, mOk, client := 0, 0, 0, true, Free;
      return Returns(true);
    }

    /** false for a queue without workers, where termination was called already. */
    method SetTerminateAndWait() returns (r: Outcome)
      requires Valid() && client.Free?
      modifies this
      ensures Valid() && Step(old(View()), EvTerminate, View())
      ensures r == Returns(false) <==> old(workerThreads) == 0
      ensures r.Sleeps? <==> client.Blocked?
    {
      if workerThreads == 0 { return Returns(false); }
      mOk := false;
      r := TerminateOrWait();
    }

    /** setTerminateAndWait after its wait. */
    method TerminateGoesOn() returns (r: Outcome)
      requires Valid() && client == Notified(InTerminate)
      modifies this
      ensures Valid() && Step(old(View()), EvTerminateWakes, View())
      ensures r.Sleeps? <==> client.Blocked?
    {
      clientsWaiting := clientsWaiting - 1;
      r := TerminateOrWait();
    }

    method Exits(ghost i: nat)
      requires Valid() && i < |workers| && workers[i] == Busy
      modifies this
      ensures Valid() && Step(old(View()), EvExit(i), View())
      ensures !Ok() && !client.Blocked? && queue == old(queue)
    {
      workersExited := workersExited + 1;
      mOk := false;
      client := NotifyClient(client);
      workers := workers[i := Exited];
    }
  }
}
