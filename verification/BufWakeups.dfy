/** Who wakes whom in src/mediaserver/cdplugins/bufxchange.h. The state machine of BufXChange is refined by the two
    waiting counters and by who has been notified: a thread that waits goes on only after a notification or a
    spurious wakeup, or when its time is over. Any number of clients and of consumers. */
module BufWakeups {
  import opened BufXChange

  /** unsigned int: the counters wrap around. */
  const WIDTH: nat := 0x1_0000_0000

  function Wrap(c: int): nat { c % WIDTH }

  function Inc(c: nat): nat { Wrap(c + 1) }

  function Dec(c: nat): nat { Wrap(c - 1) }

  /** A notified thread still waits for the mutex. A wait whose time is over does not take its count back: lateClients
      and lateWorkers are the number of those waits since the last reset. */
  datatype Monitor = Monitor(
    x: State, clientsWaiting: nat, workersWaiting: nat, notified: set<nat>, lateClients: nat, lateWorkers: nat)

  function Start(high: nat, n: nat): Monitor { Monitor(Init(high, n), 0, 0, {}, 0, 0) }

  /** The threads that wait on the workers' condition, or on the clients'. */
  function Waiters(ts: seq<Thread>, worker: bool): set<nat> {
    set i: nat | i < |ts| && !ts[i].running && ts[i].call.CallTake? == worker
  }

  function Sleepers(m: Monitor, worker: bool): set<nat> { Waiters(m.x.threads, worker) - m.notified }

  function Woken(m: Monitor, worker: bool): set<nat> { Waiters(m.x.threads, worker) * m.notified }

  /** notify_one: any sleeper, none if none sleeps. */
  ghost predicate NotifiesOne(sleepers: set<nat>, before: set<nat>, after: set<nat>) {
    if sleepers == {} then after == before else exists j: nat :: NotifiesThat(sleepers, before, j, after)
  }

  ghost predicate NotifiesThat(sleepers: set<nat>, before: set<nat>, j: nat, after: set<nat>) {
    j in sleepers && after == before + {j}
  }

  /** Thread i makes a call, or has been notified in the middle of one. */
  ghost predicate Awake(m: Monitor, i: nat) {
    i < |m.x.threads| && (m.x.threads[i].running || i in m.notified)
  }

  /** The thread has the mutex; a wait has taken its count back. */
  function Back(m: Monitor, i: nat): Monitor
    requires i < |m.x.threads|
  {
    if m.x.threads[i].running then m
    else if m.x.threads[i].call.CallTake? then m.(workersWaiting := Dec(m.workersWaiting), notified := m.notified - {i})
    else m.(clientsWaiting := Dec(m.clientsWaiting), notified := m.notified - {i})
  }

  /** wait_for has reported a timeout, perhaps to a thread that has been notified. */
  function Late(m: Monitor, i: nat): Monitor
    requires i < |m.x.threads|
  {
    if m.x.threads[i].call.CallTake? then m.(lateWorkers := m.lateWorkers + 1, notified := m.notified - {i})
    else m.(lateClients := m.lateClients + 1, notified := m.notified - {i})
  }

  ghost predicate Expires(m: Monitor, i: nat, timeout: bool) {
    i < |m.x.threads| && timeout && !m.x.threads[i].running
  }

  ghost predicate FallsAsleep(m: Monitor, i: nat, m': Monitor) {
    Awake(m, i) && m' == Back(m, i).(x := m'.x, clientsWaiting := Inc(Back(m, i).clientsWaiting))
  }

  /** take notifies the clients before it waits, since the queue is empty. */
  ghost predicate TakerFallsAsleep(m: Monitor, i: nat, m': Monitor) {
    Awake(m, i) &&
    m' == Back(m, i).(x := m'.x, workersWaiting := Inc(Back(m, i).workersWaiting),
                      notified := Back(m, i).notified + Waiters(m'.x.threads, false))
  }

  /** put is done, or take is: one waiting thread of the other kind is notified if the counter says so. */
  ghost predicate PutsOne(m: Monitor, i: nat, m': Monitor) {
    Awake(m, i) &&
    var m1 := Back(m, i).(x := m'.x);
    m' == m1.(notified := m'.notified) &&
    if m1.workersWaiting > 0 then NotifiesOne(Sleepers(m1, true), m1.notified, m'.notified) else m'.notified == m1.notified
  }

  ghost predicate TakesOne(m: Monitor, i: nat, m': Monitor) {
    Awake(m, i) &&
    var m1 := Back(m, i).(x := m'.x);
    m' == m1.(notified := m'.notified) &&
    if m1.clientsWaiting > 0 then NotifiesOne(Sleepers(m1, false), m1.notified, m'.notified) else m'.notified == m1.notified
  }

  /** A call returns, with false or from waitIdle. */
  ghost predicate Leaves(m: Monitor, i: nat, timeout: bool, m': Monitor) {
    if Expires(m, i, timeout) then m' == Late(m, i).(x := m'.x)
    else Awake(m, i) && m' == Back(m, i).(x := m'.x)
  }

  ghost predicate Everybody(m: Monitor, m': Monitor) {
    m'.notified == m.notified + Waiters(m.x.threads, true) + Waiters(m.x.threads, false)
  }

  ghost predicate Signals(m: Monitor, e: Event, m': Monitor) {
    match e
    case EvPutWaits(i, _, _) => FallsAsleep(m, i, m')
    case EvPutDone(i, _, _) => PutsOne(m, i, m')
    case EvPutFails(i, _, _, timeout) => Leaves(m, i, timeout, m')
    case EvTakeWaits(i) => TakerFallsAsleep(m, i, m')
    case EvTakeDone(i) => TakesOne(m, i, m')
    case EvTakeFails(i, timeout) => Leaves(m, i, timeout, m')
    case EvIdleWaits(i) => FallsAsleep(m, i, m')
    case EvIdleReturns(i, timeout) => Leaves(m, i, timeout, m')
    case EvTerminate(_) => Everybody(m, m') && m' == m.(x := m'.x, notified := m'.notified)
    case EvReset(_) => Everybody(m, m') && m' == Monitor(m'.x, 0, 0, m'.notified, 0, 0)
    case _ => m' == m.(x := m'.x)
  }

  datatype Move = Does(e: Event) | Spurious(i: nat)

  ghost predicate Moves(m: Monitor, v: Move, m': Monitor) {
    match v
    case Does(e) => Step(m.x, e, m'.x) && Signals(m, e, m')
    case Spurious(i) =>
      i < |m.x.threads| && !m.x.threads[i].running && i !in m.notified && m' == m.(notified := m.notified + {i})
  }

  /** How a program uses the object. */
  datatype Rules = Rules(
    consumers: set<nat>,
    untakes: bool,        // consumers call untake
    lateWakeups: bool,    // a take times out although the thread has been notified
    busyResets: bool,     // reset is called while some thread is inside a call
    manyTimeouts: bool)   // so many waits time out that the counters wrap around

  predicate AllRunning(ts: seq<Thread>) { forall i :: 0 <= i < |ts| ==> ts[i].running }

  ghost predicate Follows(m: Monitor, v: Move, rules: Rules) {
    (!rules.manyTimeouts ==> m.lateWorkers + |m.x.threads| < WIDTH && m.lateClients + |m.x.threads| < WIDTH) &&
    (v.Does? ==>
      match v.e
      case EvAlloc(i) => i !in rules.consumers
      case EvPutWaits(i, _, _) => i !in rules.consumers
      case EvPutDone(i, _, _) => i !in rules.consumers
      case EvPutFails(i, _, _, _) => i !in rules.consumers
      case EvIdleWaits(i) => i !in rules.consumers
      case EvIdleReturns(i, _) => i !in rules.consumers
      case EvTakeRecycled(i) => i !in rules.consumers
      case EvTakeWaits(i) => i in rules.consumers
      case EvTakeDone(i) => i in rules.consumers
      case EvTakeFails(i, timeout) =>
        i in rules.consumers && (Expires(m, i, timeout) && i in m.notified ==> rules.lateWakeups)
      case EvUntake(i, _) => i in rules.consumers && rules.untakes
      case EvReset(_) => rules.busyResets || AllRunning(m.x.threads)
      case _ => true)
  }

  ghost predicate MonitorRun(high: nat, n: nat, ms: seq<Monitor>, vs: seq<Move>) {
    |ms| == |vs| + 1 && ms[0] == Start(high, n) &&
    forall k :: 0 <= k < |vs| ==> Moves(ms[k], vs[k], ms[k + 1])
  }

  ghost predicate RunUnder(rules: Rules, high: nat, n: nat, ms: seq<Monitor>, vs: seq<Move>) {
    MonitorRun(high, n, ms, vs) && forall k :: 0 <= k < |vs| ==> Follows(ms[k], vs[k], rules)
  }

  // ----- Ownership holds here too -----

  /** A run of this machine is one of the machine without counters, with pauses. */
  lemma {:induction false} StillOwned(high: nat, n: nat, ms: seq<Monitor>, vs: seq<Move>, k: nat)
    requires MonitorRun(high, n, ms, vs) && k < |ms|
    ensures Owned(ms[k].x) && |ms[k].x.threads| == n && ms[k].x.high == high
  {
    hide Step, Signals, Places;
    if k > 0 {
      StillOwned(high, n, ms, vs, k - 1);
      assert Moves(ms[k - 1], vs[k - 1], ms[k]);
      if vs[k - 1].Does? {
        StepKeepsOwned(ms[k - 1].x, vs[k - 1].e, ms[k].x);
        ThreadEffect(ms[k - 1].x, vs[k - 1].e, ms[k].x);
      }
    } else {
      StartOwned(high, n);
    }
  }

  lemma StartOwned(high: nat, n: nat)
    ensures Owned(Init(high, n))
  {
    OnePlaceEach(high, n, [Init(high, n)], [], 0);
  }

  ghost predicate AllAtOnce(e: Event) { e.EvTerminate? || e.EvReset? }

  ghost predicate Waits(e: Event) { e.EvPutWaits? || e.EvTakeWaits? || e.EvIdleWaits? }

  /** A step moves one thread at most, into a wait or out of it. */
  lemma ThreadEffect(s: State, e: Event, s': State)
    requires |s.rqueue| <= MAXRECYCLED && Step(s, e, s')
    ensures |s'.threads| == |s.threads| && s'.high == s.high
    ensures AllAtOnce(e) ==> s'.threads == s.threads
    ensures e.EvReset? ==> s'.queue == []
    ensures !AllAtOnce(e) ==>
      e.i < |s.threads| && s'.threads == s.threads[e.i := s'.threads[e.i]] &&
      s'.threads[e.i].running == !Waits(e) && (Waits(e) ==> s'.threads[e.i].call.CallTake? == e.EvTakeWaits?)
  {
    if e.EvReset? {
      RecycleAllPlaces(s, 0);
      RecycleAllKeepsHigh(s);
    }
  }

  function Moved(ws: set<nat>, i: nat, waits: bool): set<nat> { if waits then ws + {i} else ws - {i} }

  lemma WaitersAfter(s: State, e: Event, s': State, worker: bool)
    requires |s.rqueue| <= MAXRECYCLED && Step(s, e, s')
    ensures AllAtOnce(e) ==> Waiters(s'.threads, worker) == Waiters(s.threads, worker)
    ensures !AllAtOnce(e) ==>
      e.i < |s.threads| &&
      Waiters(s'.threads, worker) == Moved(Waiters(s.threads, worker), e.i, Waits(e) && e.EvTakeWaits? == worker)
  {
    hide Step;
    ThreadEffect(s, e, s');
  }

  // ----- The counters -----

  /** Every thread waits where its kind waits, and only a waiting thread is notified. */
  ghost predicate Roles(m: Monitor, consumers: set<nat>) {
    (forall i :: i in Waiters(m.x.threads, true) ==> i in consumers) &&
    (forall i :: i in Waiters(m.x.threads, false) ==> i !in consumers) && OnlyWaiters(m)
  }

  /** A counter is the number of waiting threads and of waits that timed out, as far as an unsigned int goes. */
  ghost predicate Counted(m: Monitor) {
    m.workersWaiting == Wrap(|Waiters(m.x.threads, true)| + m.lateWorkers) &&
    m.clientsWaiting == Wrap(|Waiters(m.x.threads, false)| + m.lateClients)
  }

  ghost predicate OnlyWaiters(m: Monitor) {
    forall i :: i in m.notified ==> i in Waiters(m.x.threads, true) || i in Waiters(m.x.threads, false)
  }

  lemma RolesStep(m: Monitor, v: Move, m': Monitor, rules: Rules)
    requires |m.x.rqueue| <= MAXRECYCLED && Roles(m, rules.consumers) && Moves(m, v, m') && Follows(m, v, rules)
    ensures Roles(m', rules.consumers)
  {
    if v.Does? {
      OnlyWaitersStep(m, v.e, m');
      hide Step, Signals, Waiters;
      WaitersAfter(m.x, v.e, m'.x, true);
      WaitersAfter(m.x, v.e, m'.x, false);
    }
  }

  /** Whoever is notified by a step waited on one of the conditions before or sleeps there now. */
  lemma WhoIsNotified(m: Monitor, e: Event, m': Monitor)
    requires Step(m.x, e, m'.x) && Signals(m, e, m')
    ensures AllAtOnce(e) ==> forall i :: i in m'.notified ==>
      i in m.notified || i in Waiters(m.x.threads, true) || i in Waiters(m.x.threads, false)
    ensures !AllAtOnce(e) ==> e.i < |m.x.threads| && forall i :: i in m'.notified ==>
      (i in m.notified && (i != e.i || m.x.threads[i].running)) ||
      i in Waiters(m'.x.threads, true) || i in Waiters(m'.x.threads, false)
  {
  }

  lemma OnlyWaitersStep(m: Monitor, e: Event, m': Monitor)
    requires |m.x.rqueue| <= MAXRECYCLED && OnlyWaiters(m) && Step(m.x, e, m'.x) && Signals(m, e, m')
    ensures OnlyWaiters(m')
  {
    WhoIsNotified(m, e, m');
    hide Step, Signals;
    WaitersAfter(m.x, e, m'.x, true);
    WaitersAfter(m.x, e, m'.x, false);
  }

  lemma MovedSize(ws: set<nat>, i: nat, waits: bool)
    ensures |Moved(ws, i, waits)| == |ws| - (if i in ws then 1 else 0) + (if waits then 1 else 0)
  {
    assert i in ws ==> ws + {i} == ws && |ws - {i}| == |ws| - 1;
    assert i !in ws ==> ws - {i} == ws && |ws + {i}| == |ws| + 1;
  }

  /** The wait of the thread that moves ends by a timeout. */
  ghost predicate TimesOut(m: Monitor, e: Event) {
    (e.EvPutFails? || e.EvTakeFails? || e.EvIdleReturns?) && Expires(m, e.i, e.timeout)
  }

  function Recount(c: nat, waited: bool, late: bool, waits: bool): nat {
    var c1 := if waited && !late then Dec(c) else c;
    if waits then Inc(c1) else c1
  }

  lemma RecountIs(waiters: nat, late: nat, waited: bool, isLate: bool, waits: bool)
    requires waited ==> waiters > 0
    ensures Recount(Wrap(waiters + late), waited, isLate, waits) ==
      Wrap(waiters - (if waited then 1 else 0) + (if waits then 1 else 0) + late + (if waited && isLate then 1 else 0))
  {
  }

  lemma CounterEffect(m: Monitor, e: Event, m': Monitor)
    requires Step(m.x, e, m'.x) && Signals(m, e, m') && !AllAtOnce(e)
    ensures e.i < |m.x.threads|
    ensures var late := TimesOut(m, e);
      var taker := e.i in Waiters(m.x.threads, true); var client := e.i in Waiters(m.x.threads, false);
      m'.workersWaiting == Recount(m.workersWaiting, taker, late, e.EvTakeWaits?) &&
      m'.clientsWaiting == Recount(m.clientsWaiting, client, late, Waits(e) && !e.EvTakeWaits?) &&
      m'.lateWorkers == m.lateWorkers + (if taker && late then 1 else 0) &&
      m'.lateClients == m.lateClients + (if client && late then 1 else 0)
  {
  }

  /** What one counter goes through when thread i moves. */
  lemma OneCounter(ws: set<nat>, i: nat, late: nat, isLate: bool, waits: bool)
    ensures Recount(Wrap(|ws| + late), i in ws, isLate, waits) ==
      Wrap(|Moved(ws, i, waits)| + late + (if i in ws && isLate then 1 else 0))
  {
    hide Wrap, Recount, Moved;
    MovedSize(ws, i, waits);
    RecountIs(|ws|, late, i in ws, isLate, waits);
  }

  lemma CountedMove(m: Monitor, e: Event, m': Monitor)
    requires |m.x.rqueue| <= MAXRECYCLED && Counted(m) && Step(m.x, e, m'.x) && Signals(m, e, m') && !AllAtOnce(e)
    ensures Counted(m')
  {
    hide Step, Signals, Recount, Wrap, Waiters, TimesOut, Moved;
    WaitersAfter(m.x, e, m'.x, true);
    WaitersAfter(m.x, e, m'.x, false);
    CounterEffect(m, e, m');
    OneCounter(Waiters(m.x.threads, true), e.i, m.lateWorkers, TimesOut(m, e), e.EvTakeWaits?);
    OneCounter(Waiters(m.x.threads, false), e.i, m.lateClients, TimesOut(m, e), Waits(e) && !e.EvTakeWaits?);
  }

  lemma CountedStep(m: Monitor, v: Move, m': Monitor, rules: Rules)
    requires |m.x.rqueue| <= MAXRECYCLED && Counted(m) && Moves(m, v, m') && Follows(m, v, rules)
    requires !rules.busyResets
    ensures Counted(m')
  {
    hide Step;
    if v.Does? && AllAtOnce(v.e) {
      WaitersAfter(m.x, v.e, m'.x, true);
      WaitersAfter(m.x, v.e, m'.x, false);
      if v.e.EvReset? { NobodyWaits(m.x.threads); }
    } else if v.Does? {
      CountedMove(m, v.e, m');
    }
  }

  lemma NobodyWaits(ts: seq<Thread>)
    requires AllRunning(ts)
    ensures Waiters(ts, true) == {} && Waiters(ts, false) == {}
  {
  }

  // ----- A queued buffer has a consumer that is up -----

  /** While a consumer sleeps un-notified, each queued buffer has its own notified consumer. */
  ghost predicate Covered(m: Monitor) {
    Sleepers(m, true) != {} ==> m.x.ok && |m.x.queue| <= |Woken(m, true)|
  }

  predicate Safe(rules: Rules) {
    !rules.busyResets && !rules.manyTimeouts && (|rules.consumers| <= 1 || (!rules.untakes && !rules.lateWakeups))
  }

  ghost predicate Inv(m: Monitor, rules: Rules) {
    Roles(m, rules.consumers) && Counted(m) && Covered(m)
  }

  /** put wakes one of the sleeping consumers, if its counter is right. */
  lemma PutSignals(m: Monitor, e: Event, m': Monitor, consumers: set<nat>) returns (j: nat)
    requires |m.x.rqueue| <= MAXRECYCLED && Roles(m, consumers) && Step(m.x, e, m'.x) && Signals(m, e, m')
    requires e.EvPutDone? && e.i !in consumers && m.workersWaiting > 0 && Sleepers(m, true) != {}
    ensures j in Sleepers(m, true) && Waiters(m'.x.threads, true) == Waiters(m.x.threads, true)
    ensures m'.notified == m.notified - {e.i} + {j}
  {
    WaitersAfter(m.x, e, m'.x, true);
    var m1 := Back(m, e.i).(x := m'.x);
    assert e.i !in Waiters(m.x.threads, true);
    assert Sleepers(m1, true) == Sleepers(m, true);
    assert m1.workersWaiting == m.workersWaiting;
    j :| NotifiesThat(Sleepers(m1, true), m1.notified, j, m'.notified);
    assert !m.x.threads[e.i].running || e.i !in m.notified;
  }

  lemma OneMoreWoken(ws: set<nat>, notified: set<nat>, i: nat, j: nat)
    requires i !in ws && j in ws && j !in notified
    ensures |ws * (notified - {i} + {j})| == |ws * notified| + 1
  {
    assert ws * (notified - {i} + {j}) == ws * notified + {j};
  }

  lemma SomeCount(m: Monitor, worker: bool)
    requires Counted(m) && Sleepers(m, worker) != {}
    requires m.lateWorkers + |m.x.threads| < WIDTH && m.lateClients + |m.x.threads| < WIDTH
    ensures (if worker then m.workersWaiting else m.clientsWaiting) > 0
  {
    WaitersFit(m.x.threads, worker);
  }

  lemma {:induction false} WaitersFit(ts: seq<Thread>, worker: bool)
    ensures |Waiters(ts, worker)| <= |ts|
  {
    if ts != [] {
      var n := |ts| - 1;
      WaitersFit(ts[..n], worker);
      assert Waiters(ts, worker) == Waiters(ts[..n], worker) + (if n in Waiters(ts, worker) then {n} else {});
    }
  }

  lemma CoveredPut(m: Monitor, e: Event, m': Monitor, rules: Rules)
    requires |m.x.rqueue| <= MAXRECYCLED && Inv(m, rules) && Step(m.x, e, m'.x) && Signals(m, e, m')
    requires e.EvPutDone? && Follows(m, Does(e), rules) && !rules.manyTimeouts
    ensures Covered(m')
  {
    if Sleepers(m, true) != {} {
      SomeCount(m, true);
      var j := PutSignals(m, e, m', rules.consumers);
      OneMoreWoken(Waiters(m.x.threads, true), m.notified, e.i, j);
    } else {
      assert Sleepers(m', true) == {} by { WaitersAfter(m.x, e, m'.x, true); }
    }
  }

  /** take from the queue: if others sleep, the notified ones still suffice. */
  lemma CoveredTake(m: Monitor, e: Event, m': Monitor, rules: Rules)
    requires |m.x.rqueue| <= MAXRECYCLED && Inv(m, rules) && Step(m.x, e, m'.x) && Signals(m, e, m')
    requires e.EvTakeDone? && Follows(m, Does(e), rules)
    ensures Covered(m')
  {
    assert e.i in rules.consumers && |m'.x.queue| == |m.x.queue| - 1 && m'.x.ok;
    WaitersAfter(m.x, e, m'.x, true);
    TakeSignals(m, e, m', rules.consumers);
    hide Step, Signals, Follows, Waiters, Counted;
    OneLessWoken(Waiters(m.x.threads, true), m.notified, m'.notified, e.i);
  }

  lemma OneLessWoken(ws: set<nat>, before: set<nat>, after: set<nat>, i: nat)
    requires forall j :: j in ws && j != i ==> (j in after <==> j in before)
    ensures |(ws - {i}) * after| >= |ws * before| - 1 && (ws - {i}) - after <= ws - before
  {
    assert (ws - {i}) * after == Moved(ws * before, i, false);
    MovedSize(ws * before, i, false);
  }

  lemma CoveredWait(m: Monitor, e: Event, m': Monitor)
    requires Step(m.x, e, m'.x) && e.EvTakeWaits?
    ensures Covered(m')
  {
  }

  /** take touches no notification but its own and a client's. */
  lemma TakeSignals(m: Monitor, e: Event, m': Monitor, consumers: set<nat>)
    requires |m.x.rqueue| <= MAXRECYCLED && Roles(m, consumers) && Step(m.x, e, m'.x) && Signals(m, e, m')
    requires e.EvTakeDone? && e.i in consumers
    ensures forall j :: j in consumers && j != e.i ==> (j in m'.notified <==> j in m.notified)
    ensures e.i !in m'.notified
  {
    WaitersAfter(m.x, e, m'.x, false);
    var m1 := Back(m, e.i).(x := m'.x);
    assert e.i !in m1.notified;
    if m1.clientsWaiting > 0 && Sleepers(m1, false) != {} {
      var j: nat :| NotifiesThat(Sleepers(m1, false), m1.notified, j, m'.notified);
      assert j in Waiters(m.x.threads, false);
    }
  }

  lemma CoveredFail(m: Monitor, e: Event, m': Monitor, rules: Rules)
    requires |m.x.rqueue| <= MAXRECYCLED && Inv(m, rules) && Step(m.x, e, m'.x) && Signals(m, e, m')
    requires e.EvTakeFails? && Follows(m, Does(e), rules) && Safe(rules)
    ensures Covered(m')
  {
    WaitersAfter(m.x, e, m'.x, true);
    assert Sleepers(m', true) <= Sleepers(m, true);
    if Sleepers(m', true) != {} {
      if e.i in Woken(m, true) {
        AnotherConsumer(m', rules, e.i);
      } else {
        assert Woken(m', true) == Woken(m, true);
      }
    }
  }

  /** Next to a sleeping consumer, one that is up is a second one. */
  lemma AnotherConsumer(m: Monitor, rules: Rules, i: nat)
    requires Roles(m, rules.consumers) && i in rules.consumers && i !in Sleepers(m, true) && Sleepers(m, true) != {}
    ensures |rules.consumers| >= 2
  {
    var j :| j in Sleepers(m, true);
    assert {i, j} <= rules.consumers;
    SubsetSize({i, j}, rules.consumers);
  }

  lemma {:induction false} SubsetSize(a: set<nat>, b: set<nat>)
    requires a <= b
    ensures |a| <= |b|
  {
    if a != {} {
      var i :| i in a;
      SubsetSize(a - {i}, b - {i});
    }
  }

  ghost predicate ByTheWay(e: Event) {
    !AllAtOnce(e) && !e.EvPutDone? && !e.EvTakeDone? && !e.EvTakeWaits? && !e.EvTakeFails?
  }

  lemma OthersUntouched(m: Monitor, e: Event, m': Monitor, rules: Rules)
    requires |m.x.rqueue| <= MAXRECYCLED && Roles(m, rules.consumers) && Step(m.x, e, m'.x) && Signals(m, e, m')
    requires ByTheWay(e) && Follows(m, Does(e), rules)
    ensures Sleepers(m', true) == Sleepers(m, true) && Woken(m', true) == Woken(m, true)
  {
    WaitersAfter(m.x, e, m'.x, true);
    assert e.i !in Waiters(m.x.threads, true);
    assert m'.notified - {e.i} == m.notified - {e.i};
  }

  lemma CoveredOther(m: Monitor, e: Event, m': Monitor, rules: Rules)
    requires |m.x.rqueue| <= MAXRECYCLED && Inv(m, rules) && Step(m.x, e, m'.x) && Signals(m, e, m')
    requires ByTheWay(e) && Follows(m, Does(e), rules) && Safe(rules)
    ensures Covered(m')
  {
    hide Waiters, Counted, Signals;
    OthersUntouched(m, e, m', rules);
    if e.EvUntake? && Sleepers(m, true) != {} {
      assert e.i !in Sleepers(m, true) by { NotWaiting(m.x, e.i, true); }
      AnotherConsumer(m, rules, e.i);
    }
  }

  lemma NotWaiting(x: State, i: nat, worker: bool)
    requires Idle(x, i)
    ensures i !in Waiters(x.threads, worker)
  {
  }

  lemma CoveredAtOnce(m: Monitor, e: Event, m': Monitor)
    requires |m.x.rqueue| <= MAXRECYCLED && Step(m.x, e, m'.x) && Signals(m, e, m') && AllAtOnce(e)
    ensures Sleepers(m', true) == {} && Sleepers(m', false) == {} && Covered(m')
  {
    WaitersAfter(m.x, e, m'.x, true);
    WaitersAfter(m.x, e, m'.x, false);
  }

  lemma CoveredSpurious(m: Monitor, v: Move, m': Monitor)
    requires Covered(m) && Moves(m, v, m') && v.Spurious?
    ensures Covered(m')
  {
    SubsetSize(Woken(m, true), Woken(m', true));
  }

  lemma CoveredStep(m: Monitor, v: Move, m': Monitor, rules: Rules)
    requires |m.x.rqueue| <= MAXRECYCLED && Inv(m, rules) && Moves(m, v, m') && Follows(m, v, rules) && Safe(rules)
    ensures Inv(m', rules)
  {
    RolesStep(m, v, m', rules);
    CountedStep(m, v, m', rules);
    hide Step, Signals, Follows, Roles, Counted, Covered;
    if v.Spurious? { CoveredSpurious(m, v, m'); }
    else if AllAtOnce(v.e) { CoveredAtOnce(m, v.e, m'); }
    else if ByTheWay(v.e) { CoveredOther(m, v.e, m', rules); }
    else if v.e.EvPutDone? { CoveredPut(m, v.e, m', rules); }
    else if v.e.EvTakeFails? { CoveredFail(m, v.e, m', rules); }
    else if v.e.EvTakeWaits? { CoveredWait(m, v.e, m'); }
    else { CoveredTake(m, v.e, m', rules); }
  }

  /** In every run by these rules, a consumer sleeps un-notified only beside as many notified ones as there are buffers
      in the queue. */
  lemma {:induction false} RunKeeps(rules: Rules, high: nat, n: nat, ms: seq<Monitor>, vs: seq<Move>, k: nat)
    requires RunUnder(rules, high, n, ms, vs) && k < |ms| && Safe(rules)
    ensures Inv(ms[k], rules)
  {
    hide Moves, Follows, Inv;
    if k > 0 {
      RunKeeps(rules, high, n, ms, vs, k - 1);
      StillOwned(high, n, ms, vs, k - 1);
      CoveredStep(ms[k - 1], vs[k - 1], ms[k], rules);
    } else {
      StartIsSound(rules, high, n);
    }
  }

  lemma StartIsSound(rules: Rules, high: nat, n: nat)
    ensures Inv(Start(high, n), rules)
  {
    NobodyWaits(Start(high, n).x.threads);
  }

  // ----- Clients and consumers never all sleep -----

  /** A client that sleeps un-notified has a consumer that does not. */
  ghost predicate SomebodyUp(m: Monitor, consumers: set<nat>) {
    Sleepers(m, false) != {} ==> exists i :: i in consumers && i !in Sleepers(m, true)
  }

  lemma QueuedIsUp(m: Monitor, consumers: set<nat>)
    requires Roles(m, consumers) && Covered(m) && m.x.queue != [] && consumers != {}
    ensures exists i :: i in consumers && i !in Sleepers(m, true)
  {
    if Sleepers(m, true) != {} {
      var i :| i in Woken(m, true);
      assert i !in Sleepers(m, true);
    } else {
      var i :| i in consumers;
      assert i !in Sleepers(m, true);
    }
  }

  /** Only a client falls asleep as a client, beside a queue that is not empty, and only take makes a consumer sleep,
      when it has notified the clients. */
  lemma WhoFallsAsleep(m: Monitor, e: Event, m': Monitor, rules: Rules)
    requires |m.x.rqueue| <= MAXRECYCLED && Roles(m, rules.consumers) && Step(m.x, e, m'.x) && Signals(m, e, m')
    requires Follows(m, Does(e), rules)
    ensures e.EvTakeWaits? ==> Sleepers(m', false) == {}
    ensures !e.EvTakeWaits? ==> Sleepers(m', true) <= Sleepers(m, true)
    ensures e.EvPutWaits? || e.EvIdleWaits? ==> m'.x.queue != []
    ensures !e.EvPutWaits? && !e.EvIdleWaits? ==> Sleepers(m', false) <= Sleepers(m, false)
  {
    WaitersAfter(m.x, e, m'.x, true);
    WaitersAfter(m.x, e, m'.x, false);
  }

  lemma UpStep(m: Monitor, v: Move, m': Monitor, rules: Rules)
    requires |m.x.rqueue| <= MAXRECYCLED && Inv(m, rules) && Inv(m', rules) && Moves(m, v, m') && Follows(m, v, rules)
    requires SomebodyUp(m, rules.consumers) && rules.consumers != {}
    ensures SomebodyUp(m', rules.consumers)
  {
    if v.Does? {
      WhoFallsAsleep(m, v.e, m', rules);
      hide Step, Signals, Follows, Waiters;
      if Sleepers(m', false) != {} {
        if v.e.EvPutWaits? || v.e.EvIdleWaits? {
          QueuedIsUp(m', rules.consumers);
        } else {
          assert Sleepers(m, false) != {};
          var i :| i in rules.consumers && i !in Sleepers(m, true);
          assert i !in Sleepers(m', true);
        }
      }
    } else {
      assert Sleepers(m', true) <= Sleepers(m, true) && Sleepers(m', false) <= Sleepers(m, false);
    }
  }

  /** In every run by these rules with a consumer, a client never sleeps un-notified while all consumers do. */
  lemma {:induction false} NeverAllAsleep(rules: Rules, high: nat, n: nat, ms: seq<Monitor>, vs: seq<Move>, k: nat)
    requires RunUnder(rules, high, n, ms, vs) && k < |ms| && Safe(rules) && rules.consumers != {}
    ensures SomebodyUp(ms[k], rules.consumers)
  {
    hide Moves, Follows, Inv, SomebodyUp;
    if k > 0 {
      NeverAllAsleep(rules, high, n, ms, vs, k - 1);
      StillOwned(high, n, ms, vs, k - 1);
      RunKeeps(rules, high, n, ms, vs, k - 1);
      RunKeeps(rules, high, n, ms, vs, k);
      UpStep(ms[k - 1], vs[k - 1], ms[k], rules);
    } else {
      StartIsUp(rules.consumers, high, n);
    }
  }

  lemma StartIsUp(consumers: set<nat>, high: nat, n: nat)
    ensures SomebodyUp(Start(high, n), consumers)
  {
    NobodyWaits(Start(high, n).x.threads);
  }

  // ----- One client -----

  /** A client that sleeps un-notified has every reason to. */
  ghost predicate ForCause(m: Monitor) {
    forall i :: i in Sleepers(m, false) ==>
      m.x.ok && if m.x.threads[i].call.CallPut? then Full(m.x) else m.x.queue != []
  }

  predicate OneClient(rules: Rules, n: nat) {
    forall i: nat, j: nat :: i < n && j < n && i !in rules.consumers && j !in rules.consumers ==> i == j
  }

  /** A take wakes the client if it sleeps. */
  lemma TakeWakesClient(m: Monitor, e: Event, m': Monitor, rules: Rules)
    requires |m.x.rqueue| <= MAXRECYCLED && Roles(m, rules.consumers) && Counted(m)
    requires OneClient(rules, |m.x.threads|) && !rules.manyTimeouts
    requires Step(m.x, e, m'.x) && Signals(m, e, m') && e.EvTakeDone? && Follows(m, Does(e), rules)
    ensures Sleepers(m', false) == {}
  {
    WaitersAfter(m.x, e, m'.x, false);
    var m1 := Back(m, e.i).(x := m'.x);
    assert Sleepers(m1, false) == Sleepers(m, false);
    if Sleepers(m, false) != {} {
      SomeCount(m, false);
      var j: nat :| NotifiesThat(Sleepers(m1, false), m1.notified, j, m'.notified);
      assert forall i :: i in Sleepers(m', false) ==> i in Sleepers(m, false) && i != j;
    }
  }

  /** No other step takes the reason away from a client that goes on sleeping. */
  lemma CauseStays(m: Monitor, e: Event, m': Monitor, rules: Rules, i: nat)
    requires |m.x.rqueue| <= MAXRECYCLED && Roles(m, rules.consumers) && ForCause(m) && OneClient(rules, |m.x.threads|)
    requires Step(m.x, e, m'.x) && Signals(m, e, m') && Follows(m, Does(e), rules)
    requires !e.EvTakeDone? && !e.EvPutWaits? && !e.EvIdleWaits? && !AllAtOnce(e)
    requires i in Sleepers(m, false) && i in Sleepers(m', false)
    ensures m'.x.ok && if m'.x.threads[i].call.CallPut? then Full(m'.x) else m'.x.queue != []
  {
    WaitersAfter(m.x, e, m'.x, false);
  }

  lemma CauseStep(m: Monitor, v: Move, m': Monitor, rules: Rules)
    requires |m.x.rqueue| <= MAXRECYCLED && Roles(m, rules.consumers) && Counted(m) && ForCause(m)
    requires OneClient(rules, |m.x.threads|) && !rules.manyTimeouts
    requires Moves(m, v, m') && Follows(m, v, rules)
    ensures ForCause(m')
  {
    if v.Does? {
      if v.e.EvTakeDone? { TakeWakesClient(m, v.e, m', rules); }
      else if AllAtOnce(v.e) { CoveredAtOnce(m, v.e, m'); }
      else if v.e.EvPutWaits? || v.e.EvIdleWaits? { ClientSleeps(m, v.e, m', rules); }
      else {
        WhoFallsAsleep(m, v.e, m', rules);
        forall i | i in Sleepers(m', false)
          ensures m'.x.ok && if m'.x.threads[i].call.CallPut? then Full(m'.x) else m'.x.queue != []
        {
          CauseStays(m, v.e, m', rules, i);
        }
      }
    }
  }

  lemma ClientSleeps(m: Monitor, e: Event, m': Monitor, rules: Rules)
    requires |m.x.rqueue| <= MAXRECYCLED && Roles(m, rules.consumers) && OneClient(rules, |m.x.threads|)
    requires Step(m.x, e, m'.x) && Signals(m, e, m') && (e.EvPutWaits? || e.EvIdleWaits?) && Follows(m, Does(e), rules)
    ensures ForCause(m')
  {
    WaitersAfter(m.x, e, m'.x, false);
    assert forall i :: i in Sleepers(m', false) ==> i == e.i;
  }

  /** With one client, and any number of consumers that may untake and time out: what the client waits for while it
      sleeps un-notified is really missing. */
  lemma {:induction false} ClientNeverMissed(rules: Rules, high: nat, n: nat, ms: seq<Monitor>, vs: seq<Move>, k: nat)
    requires RunUnder(rules, high, n, ms, vs) && k < |ms|
    requires OneClient(rules, n) && !rules.busyResets && !rules.manyTimeouts
    ensures Roles(ms[k], rules.consumers) && Counted(ms[k]) && ForCause(ms[k])
  {
    hide Moves, Follows, Roles, Counted, ForCause;
    if k > 0 {
      ClientNeverMissed(rules, high, n, ms, vs, k - 1);
      StillOwned(high, n, ms, vs, k - 1);
      RolesStep(ms[k - 1], vs[k - 1], ms[k], rules);
      CountedStep(ms[k - 1], vs[k - 1], ms[k], rules);
      CauseStep(ms[k - 1], vs[k - 1], ms[k], rules);
    } else {
      StartIsSound(rules, high, n);
      StartForCause(high, n);
    }
  }

  lemma StartForCause(high: nat, n: nat)
    ensures ForCause(Start(high, n))
  {
    NobodyWaits(Start(high, n).x.threads);
  }

  // ----- Exactly when a sleeping consumer is missed -----

  ghost predicate NeverUncovered(rules: Rules, high: nat, n: nat) {
    forall ms, vs, k: nat :: RunUnder(rules, high, n, ms, vs) && k < |ms| ==> Covered(ms[k])
  }

  /** One more step of a run. */
  lemma Extend(rules: Rules, high: nat, n: nat, ms: seq<Monitor>, vs: seq<Move>, v: Move, m: Monitor)
    requires RunUnder(rules, high, n, ms, vs) && Moves(ms[|vs|], v, m) && Follows(ms[|vs|], v, rules)
    ensures RunUnder(rules, high, n, ms + [m], vs + [v])
  {
    hide Moves, Follows;
    var ns, ws := ms + [m], vs + [v];
    forall k | 0 <= k < |ws| ensures Moves(ns[k], ws[k], ns[k + 1]) && Follows(ns[k], ws[k], rules) {
      assert k < |vs| ==> ns[k] == ms[k] && ns[k + 1] == ms[k + 1] && ws[k] == vs[k];
    }
  }

  /** Some run leads to m. */
  ghost predicate Reaches(rules: Rules, high: nat, n: nat, m: Monitor) {
    exists ms, vs :: RunUnder(rules, high, n, ms, vs) && ms[|vs|] == m
  }

  lemma ReachesStart(rules: Rules, high: nat, n: nat)
    ensures Reaches(rules, high, n, Start(high, n))
  {
    assert RunUnder(rules, high, n, [Start(high, n)], []);
  }

  lemma ReachesNext(rules: Rules, high: nat, n: nat, m: Monitor, v: Move, m': Monitor)
    requires Reaches(rules, high, n, m) && Moves(m, v, m') && Follows(m, v, rules)
    ensures Reaches(rules, high, n, m')
  {
    hide Moves, Follows;
    var ms, vs :| RunUnder(rules, high, n, ms, vs) && ms[|vs|] == m;
    Extend(rules, high, n, ms, vs, v, m');
    assert (ms + [m'])[|vs + [v]|] == m';
  }

  lemma ReachedUncovered(rules: Rules, high: nat, n: nat, m: Monitor)
    requires Reaches(rules, high, n, m) && !Covered(m)
    ensures !NeverUncovered(rules, high, n)
  {
    var ms, vs :| RunUnder(rules, high, n, ms, vs) && ms[|vs|] == m;
    assert !Covered(ms[|vs|]);
  }

  /** The client p puts a buffer on the empty queue. j is a sleeping consumer, which is notified if the counter says so. */
  function AfterPut(m: Monitor, p: nat, j: nat): Monitor
    requires p < |m.x.threads|
  {
    m.(x := m.x.(queue := [m.x.next], next := m.x.next + 1),
       notified := if m.workersWaiting > 0 then m.notified + {j} else m.notified)
  }

  /** Thread p runs, and has nothing in its hand. */
  ghost predicate Ready(m: Monitor, p: nat) {
    Idle(m.x, p) && m.x.threads[p].hand == multiset{} && m.x.ok && m.x.queue == []
  }

  ghost predicate InRange(m: Monitor) {
    m.lateWorkers + |m.x.threads| < WIDTH && m.lateClients + |m.x.threads| < WIDTH
  }

  lemma PutReaches(rules: Rules, high: nat, n: nat, m: Monitor, p: nat, j: nat)
    requires Reaches(rules, high, n, m) && (InRange(m) || rules.manyTimeouts)
    requires Ready(m, p) && p !in rules.consumers
    requires m.workersWaiting > 0 ==> j in Sleepers(m, true)
    ensures Reaches(rules, high, n, AfterPut(m, p, j))
  {
    var b := m.x.next;
    var m1 := m.(x := Gain(m.x, p, b).(next := b + 1));
    ReachesNext(rules, high, n, m, Does(EvAlloc(p)), m1);
    var m2 := AfterPut(m, p, j);
    assert multiset{} + multiset{b} - multiset{b} == multiset{};
    assert Lose(m1.x, p, b).threads[p] == m.x.threads[p];
    assert Lose(m1.x, p, b).threads == m2.x.threads;
    assert Step(m1.x, EvPutDone(p, b, false), m2.x) by { assert [] + [b] == [b]; }
    assert Sleepers(Back(m1, p).(x := m2.x), true) == Sleepers(m, true);
    if m.workersWaiting > 0 { assert NotifiesThat(Sleepers(m, true), m.notified, j, m2.notified); }
    ReachesNext(rules, high, n, m1, Does(EvPutDone(p, b, false)), m2);
  }

  /** A consumer that runs calls take on an empty queue. */
  function AfterWait(m: Monitor, i: nat): Monitor
    requires i < |m.x.threads|
  {
    m.(x := Wait(m.x, i, CallTake), workersWaiting := Inc(m.workersWaiting))
  }

  lemma WaitReaches(rules: Rules, high: nat, n: nat, m: Monitor, i: nat)
    requires Reaches(rules, high, n, m) && (InRange(m) || rules.manyTimeouts)
    requires Idle(m.x, i) && i in rules.consumers && m.x.ok && m.x.queue == [] && Waiters(m.x.threads, false) == {}
    ensures Reaches(rules, high, n, AfterWait(m, i))
    ensures i in Waiters(AfterWait(m, i).x.threads, true) && Waiters(AfterWait(m, i).x.threads, false) == {}
  {
    var m' := AfterWait(m, i);
    assert Waiters(m'.x.threads, false) == {};
    assert m.notified + {} == m.notified;
    ReachesNext(rules, high, n, m, Does(EvTakeWaits(i)), m');
  }

  /** untake notifies nobody: a buffer that one consumer gives back leaves another one asleep. */
  lemma UntakeUncovers(rules: Rules, high: nat, n: nat, p: nat, a: nat, b: nat)
    requires p < n && a < n && b < n && a != b && p !in rules.consumers && {a, b} <= rules.consumers
    requires rules.untakes && n < WIDTH
    ensures !NeverUncovered(rules, high, n)
  {
    var m0 := Start(high, n);
    ReachesStart(rules, high, n);
    PutReaches(rules, high, n, m0, p, a);
    var m1 := AfterPut(m0, p, a);
    TakeReaches(rules, high, n, m1, a, 0);
    var m2 := AfterTake(m1, a, 0);
    NobodyWaits(m2.x.threads);
    WaitReaches(rules, high, n, m2, b);
    var m3 := AfterWait(m2, b);
    UntakeReaches(rules, high, n, m3, a, 0);
    assert m3.x.threads[a].hand == multiset{0} && b in Sleepers(m3, true) && m3.notified == {};
    UncoveredBy(rules, high, n, AfterUntake(m3, a, 0), b);
  }

  function AfterTake(m: Monitor, a: nat, c: Buf): Monitor
    requires a < |m.x.threads|
  {
    m.(x := Gain(m.x, a, c).(queue := []))
  }

  lemma TakeReaches(rules: Rules, high: nat, n: nat, m: Monitor, a: nat, c: Buf)
    requires Reaches(rules, high, n, m) && (InRange(m) || rules.manyTimeouts)
    requires Idle(m.x, a) && a in rules.consumers && m.x.ok && m.x.queue == [c] && m.clientsWaiting == 0
    ensures Reaches(rules, high, n, AfterTake(m, a, c))
  {
    assert m.x.queue[1..] == [];
    ReachesNext(rules, high, n, m, Does(EvTakeDone(a)), AfterTake(m, a, c));
  }

  function AfterUntake(m: Monitor, a: nat, c: Buf): Monitor
    requires a < |m.x.threads|
  {
    m.(x := Lose(m.x, a, c).(queue := [c] + m.x.queue))
  }

  lemma UntakeReaches(rules: Rules, high: nat, n: nat, m: Monitor, a: nat, c: Buf)
    requires Reaches(rules, high, n, m) && (InRange(m) || rules.manyTimeouts) && rules.untakes
    requires Holds(m.x, a, c) && a in rules.consumers && m.x.ok
    ensures Reaches(rules, high, n, AfterUntake(m, a, c))
  {
    ReachesNext(rules, high, n, m, Does(EvUntake(a, c)), AfterUntake(m, a, c));
  }

  lemma UncoveredBy(rules: Rules, high: nat, n: nat, m: Monitor, b: nat)
    requires Reaches(rules, high, n, m) && b in Sleepers(m, true) && Woken(m, true) == {} && m.x.queue != []
    ensures !NeverUncovered(rules, high, n)
  {
    ReachedUncovered(rules, high, n, m);
  }

  /** A notified consumer whose wait times out takes the notification with it. */
  lemma LateWakeupUncovers(rules: Rules, high: nat, n: nat, p: nat, a: nat, b: nat)
    requires p < n && a < n && b < n && a != b && p !in rules.consumers && {a, b} <= rules.consumers
    requires rules.lateWakeups && n < WIDTH
    ensures !NeverUncovered(rules, high, n)
  {
    var m0 := Start(high, n);
    ReachesStart(rules, high, n);
    NobodyWaits(m0.x.threads);
    WaitReaches(rules, high, n, m0, a);
    var m1 := AfterWait(m0, a);
    WaitReaches(rules, high, n, m1, b);
    var m2 := AfterWait(m1, b);
    PutReaches(rules, high, n, m2, p, a);
    var m3 := AfterPut(m2, p, a);
    var m4 := Late(m3, a).(x := Return(m3.x, a));
    ReachesNext(rules, high, n, m3, Does(EvTakeFails(a, true)), m4);
    UncoveredBy(rules, high, n, m4, b);
  }

  /** reset on an empty queue. */
  function AfterReset(m: Monitor): Monitor {
    Monitor(m.x, 0, 0, m.notified + Waiters(m.x.threads, true) + Waiters(m.x.threads, false), 0, 0)
  }

  lemma ResetReaches(rules: Rules, high: nat, n: nat, m: Monitor, p: nat)
    requires Reaches(rules, high, n, m) && (InRange(m) || rules.manyTimeouts) && rules.busyResets
    requires Idle(m.x, p) && m.x.ok && m.x.queue == []
    ensures Reaches(rules, high, n, AfterReset(m))
  {
    ReachesNext(rules, high, n, m, Does(EvReset(p)), AfterReset(m));
  }

  /** A notified consumer finds the queue empty and waits again. */
  lemma WaitAgainReaches(rules: Rules, high: nat, n: nat, m: Monitor, a: nat, m': Monitor)
    requires Reaches(rules, high, n, m) && (InRange(m) || rules.manyTimeouts)
    requires a in Woken(m, true) && a in rules.consumers && m.x.ok && m.x.queue == [] && Waiters(m.x.threads, false) == {}
    requires m' == m.(workersWaiting := Inc(Dec(m.workersWaiting)), notified := m.notified - {a})
    ensures Reaches(rules, high, n, m')
  {
    assert Wait(m.x, a, CallTake).threads == m.x.threads;
    assert m'.notified + {} == m'.notified;
    ReachesNext(rules, high, n, m, Does(EvTakeWaits(a)), m');
  }

  /** reset zeroes the count of a waiting consumer. When that consumer has looked at the empty queue and waits again, the
      counter has gone through -1 back to 0, and put notifies nobody. */
  lemma BusyResetUncovers(rules: Rules, high: nat, n: nat, p: nat, a: nat)
    requires p < n && a < n && p !in rules.consumers && a in rules.consumers && rules.busyResets && n < WIDTH
    ensures !NeverUncovered(rules, high, n)
  {
    var m0 := Start(high, n);
    ReachesStart(rules, high, n);
    NobodyWaits(m0.x.threads);
    WaitReaches(rules, high, n, m0, a);
    var m1 := AfterWait(m0, a);
    assert m1.notified == {};
    ResetReaches(rules, high, n, m1, p);
    var m2 := AfterReset(m1);
    assert Waiters(m1.x.threads, true) == {a};
    var m3 := m1.(workersWaiting := 0);
    assert Inc(Dec(0)) == 0;
    WaitAgainReaches(rules, high, n, m2, a, m3);
    PutReaches(rules, high, n, m3, p, a);
    var m4 := AfterPut(m3, p, a);
    UncoveredBy(rules, high, n, m4, a);
  }

  /** The state after consumer a has timed out t times. */
  function AfterTimeouts(high: nat, n: nat, t: nat): Monitor {
    Start(high, n).(workersWaiting := Wrap(t), lateWorkers := t)
  }

  lemma {:induction false} TimeoutsReach(rules: Rules, high: nat, n: nat, a: nat, t: nat)
    requires a < n && a in rules.consumers && rules.manyTimeouts
    ensures Reaches(rules, high, n, AfterTimeouts(high, n, t))
  {
    if t == 0 {
      ReachesStart(rules, high, n);
    } else {
      TimeoutsReach(rules, high, n, a, t - 1);
      var m := AfterTimeouts(high, n, t - 1);
      NobodyWaits(m.x.threads);
      WaitReaches(rules, high, n, m, a);
      var m1 := AfterWait(m, a);
      var m2 := AfterTimeouts(high, n, t);
      assert Return(m1.x, a).threads == m2.x.threads;
      assert Inc(Wrap(t - 1)) == Wrap(t);
      assert m1.notified - {a} == m2.notified;
      ReachesNext(rules, high, n, m1, Does(EvTakeFails(a, true)), m2);
    }
  }

  /** After 2 to the 32 waits, all but the last timed out, the counter is back at 0. */
  lemma ManyTimeoutsUncover(rules: Rules, high: nat, n: nat, p: nat, a: nat)
    requires p < n && a < n && p !in rules.consumers && a in rules.consumers && rules.manyTimeouts
    ensures !NeverUncovered(rules, high, n)
  {
    var m0 := AfterTimeouts(high, n, WIDTH - 1);
    TimeoutsReach(rules, high, n, a, WIDTH - 1);
    NobodyWaits(m0.x.threads);
    WaitReaches(rules, high, n, m0, a);
    var m1 := AfterWait(m0, a);
    assert m1.workersWaiting == 0;
    PutReaches(rules, high, n, m1, p, a);
    var m2 := AfterPut(m1, p, a);
    UncoveredBy(rules, high, n, m2, a);
  }

  /** A queued buffer never leaves a consumer asleep without a notified one for it, in any run, if and only if no reset
      comes while a thread waits, fewer waits than the counter can hold time out, and either there is one consumer or
      consumers neither untake nor lose a notification to a timeout. */
  lemma NeverUncoveredExactly(rules: Rules, high: nat, n: nat, p: nat)
    requires p < n < WIDTH && p !in rules.consumers && (forall i :: i in rules.consumers ==> i < n)
    ensures NeverUncovered(rules, high, n) <==> rules.consumers == {} || Safe(rules)
  {
    hide RunUnder;
    if Safe(rules) {
      forall ms, vs, k: nat | RunUnder(rules, high, n, ms, vs) && k < |ms| ensures Covered(ms[k]) {
        RunKeeps(rules, high, n, ms, vs, k);
      }
    } else if rules.consumers == {} {
      forall ms, vs, k: nat | RunUnder(rules, high, n, ms, vs) && k < |ms| ensures Covered(ms[k]) {
        NoConsumers(rules, high, n, ms, vs, k);
      }
    } else {
      var a :| a in rules.consumers;
      if rules.busyResets { BusyResetUncovers(rules, high, n, p, a); }
      else if rules.manyTimeouts { ManyTimeoutsUncover(rules, high, n, p, a); }
      else {
        var b := SecondConsumer(rules.consumers, a);
        if rules.untakes { UntakeUncovers(rules, high, n, p, a, b); } else { LateWakeupUncovers(rules, high, n, p, a, b); }
      }
    }
  }

  lemma SecondConsumer(s: set<nat>, a: nat) returns (b: nat)
    requires a in s && |s| >= 2
    ensures b in s && b != a
  {
    assert |s - {a}| >= 1;
    b :| b in s - {a};
  }

  lemma {:induction false} NoConsumers(rules: Rules, high: nat, n: nat, ms: seq<Monitor>, vs: seq<Move>, k: nat)
    requires RunUnder(rules, high, n, ms, vs) && k < |ms| && rules.consumers == {}
    ensures Roles(ms[k], {}) && Covered(ms[k])
  {
    hide Moves, Follows;
    if k > 0 {
      NoConsumers(rules, high, n, ms, vs, k - 1);
      StillOwned(high, n, ms, vs, k - 1);
      RolesStep(ms[k - 1], vs[k - 1], ms[k], rules);
    } else {
      StartIsSound(rules, high, n);
    }
  }
}
