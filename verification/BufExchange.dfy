/** The class of src/mediaserver/cdplugins/bufxchange.h under its mutex. */
module BufExchange {
  import opened BufXChange
  import opened BufWakeups

  datatype Outcome = Waits | Done | Fails

  /** What the threads hold, who waits and has been notified, and what was deleted, are ghosts. A method is one step:
      the code from the entry of a call, or from the end of its wait, to the return or the next wait. */
  class Exchange {
    const high: nat
    var queue: seq<Buf>
    var rqueue: seq<Buf>
    var ok: bool
    var clientsWaiting: nat
    var workersWaiting: nat
    ghost var threads: seq<Thread>
    ghost var next: nat
    ghost var freed: seq<Buf>
    ghost var notified: set<nat>
    ghost var lateClients: nat
    ghost var lateWorkers: nat

    ghost function Contents(): State
      reads this
    {
      State(queue, rqueue, high, ok, threads, next, freed)
    }

    ghost function View(): Monitor
      reads this
    {
      Monitor(Contents(), clientsWaiting, workersWaiting, notified, lateClients, lateWorkers)
    }

    constructor (high: nat, ghost n: nat)
      ensures View() == Start(high, n)
    {
      this.high, queue, rqueue, ok, clientsWaiting, workersWaiting := high, [], [], true, 0, 0;
      threads, next, freed := seq(n, _ => Thread(multiset{}, true, CallTake)), 0, [];
      notified, lateClients, lateWorkers := {}, 0, 0;
    }

    /** notify_one on the workers' condition or on the clients'. */
    ghost method NotifyOne(worker: bool)
      modifies this`notified
      ensures NotifiesOne(Sleepers(old(View()), worker), old(notified), notified)
    {
      if Sleepers(View(), worker) != {} {
        var j :| j in Sleepers(View(), worker);
        notified := notified + {j};
        assert NotifiesThat(Sleepers(old(View()), worker), old(notified), j, notified);
      }
    }

    ghost method NotifyAll(worker: bool)
      modifies this`notified
      ensures notified == old(notified) + Waiters(threads, worker)
    {
      notified := notified + Waiters(threads, worker);
    }

    method Flush()
      modifies this`queue, this`freed
      ensures queue == [] && freed == old(freed) + old(queue)
    {
      while queue != []
        invariant freed + queue == old(freed) + old(queue)
      {
        freed := freed + [queue[0]];
        queue := queue[1..];
      }
    }

    /** put, from its entry or from the end of a wait that has not timed out. */
    method Put(ghost i: nat, waited: bool, t: Buf, flushprevious: bool) returns (r: Outcome)
      requires At(Contents(), i, CallPut(t, flushprevious)) && Awake(View(), i) && waited == !threads[i].running
      modifies this
      ensures Moves(old(View()), Does(match r case Waits => EvPutWaits(i, t, flushprevious)
                                              case Done => EvPutDone(i, t, flushprevious)
                                              case Fails => EvPutFails(i, t, flushprevious, false)), View())
      ensures (r.Waits? <==> old(ok) && high > 0 && |old(queue)| >= high) && (r.Fails? <==> !old(ok)) && ok == old(ok)
      ensures queue == if r.Done? then (if flushprevious then [] else old(queue)) + [t] else old(queue)
      ensures freed == if r.Done? && flushprevious then old(freed) + old(queue) else old(freed)
    {
      if waited { clientsWaiting, notified := Dec(clientsWaiting), notified - {i}; }
      assert View() == Back(old(View()), i);
      if ok && high > 0 && |queue| >= high {
        clientsWaiting := Inc(clientsWaiting);
        threads := Wait(Contents(), i, CallPut(t, flushprevious)).threads;
        return Waits;
      }
      if !ok {
        threads := Return(Contents(), i).threads;
        return Fails;
      }
      threads := Lose(Contents(), i, t).threads;
      if flushprevious { Flush(); }
      queue := queue + [t];
      if workersWaiting > 0 { NotifyOne(true); }
      return Done;
    }

    /** take, from its entry or from the end of a wait that has not timed out. */
    method Take(ghost i: nat, waited: bool) returns (r: Outcome, t: Buf)
      requires At(Contents(), i, CallTake) && Awake(View(), i) && waited == !threads[i].running
      modifies this
      ensures Moves(old(View()), Does(match r case Waits => EvTakeWaits(i)
                                              case Done => EvTakeDone(i)
                                              case Fails => EvTakeFails(i, false)), View())
      ensures (r.Waits? <==> old(ok) && old(queue) == []) && (r.Fails? <==> !old(ok)) && ok == old(ok)
      ensures if r.Done? then old(queue) == [t] + queue else queue == old(queue)
    {
      t := 0;
      if waited { workersWaiting, notified := Dec(workersWaiting), notified - {i}; }
      assert View() == Back(old(View()), i);
      if ok && |queue| < 1 {
        threads := Wait(Contents(), i, CallTake).threads;
        if queue == [] { NotifyAll(false); }
        workersWaiting := Inc(workersWaiting);
        return Waits, t;
      }
      if !ok {
        threads := Return(Contents(), i).threads;
        return Fails, t;
      }
      t := queue[0];
      threads := Gain(Contents(), i, t).threads;
      queue := queue[1..];
      if clientsWaiting > 0 { NotifyOne(false); }
      return Done, t;
    }

    /** waitIdle, from its entry or from the end of a wait that has not timed out. */
    method WaitIdle(ghost i: nat, waited: bool) returns (r: Outcome)
      requires At(Contents(), i, CallWaitIdle) && Awake(View(), i) && waited == !threads[i].running
      modifies this
      ensures Moves(old(View()), Does(if r.Waits? then EvIdleWaits(i) else EvIdleReturns(i, false)), View())
      ensures (r.Waits? <==> ok && queue != []) && (r.Fails? <==> !ok) && ok == old(ok) && queue == old(queue)
    {
      if waited { clientsWaiting, notified := Dec(clientsWaiting), notified - {i}; }
      assert View() == Back(old(View()), i);
      if ok && |queue| > 0 {
        clientsWaiting := Inc(clientsWaiting);
        threads := Wait(Contents(), i, CallWaitIdle).threads;
        return Waits;
      }
      threads := Return(Contents(), i).threads;
      return if ok then Done else Fails;
    }

    /** put, take and waitIdle when their wait has timed out: the counter is not taken back. */
    method TimesOut(ghost i: nat, ghost c: Call) returns (done: bool)
      requires At(Contents(), i, c) && !threads[i].running
      modifies this`threads, this`notified, this`lateClients, this`lateWorkers
      ensures !done
      ensures Moves(old(View()), Does(match c case CallPut(t, flush) => EvPutFails(i, t, flush, true)
                                              case CallTake => EvTakeFails(i, true)
                                              case CallWaitIdle => EvIdleReturns(i, true)), View())
    {
      threads, notified := Return(Contents(), i).threads, notified - {i};
      if c.CallTake? { lateWorkers := lateWorkers + 1; } else { lateClients := lateClients + 1; }
      return false;
    }

    method Untake(ghost i: nat, t: Buf) returns (done: bool)
      requires Holds(Contents(), i, t)
      modifies this`queue, this`threads
      ensures Moves(old(View()), Does(EvUntake(i, t)), View()) && done == old(ok)
      ensures queue == if done then [t] + old(queue) else old(queue)
    {
      if !ok { return false; }
      threads := Lose(Contents(), i, t).threads;
      queue := [t] + queue;
      return true;
    }

    method TakeRecycled(ghost i: nat) returns (done: bool, t: Buf)
      requires Idle(Contents(), i)
      modifies this`rqueue, this`threads
      ensures Moves(old(View()), Does(EvTakeRecycled(i)), View())
      ensures done == (old(ok) && old(rqueue) != []) && (done ==> t == old(rqueue)[0])
    {
      t := 0;
      if !ok || rqueue == [] { return false, t; }
      t := rqueue[0];
      threads := Gain(Contents(), i, t).threads;
      rqueue := rqueue[1..];
      return true, t;
    }

    method RecycleNolock(t: Buf)
      modifies this`rqueue, this`freed
      ensures Contents() == Recycled(old(Contents()), t)
      ensures old(rqueue) == freed[|old(freed)|..] + rqueue[..|rqueue| - 1] && rqueue[|rqueue| - 1] == t
      ensures |rqueue| <= 4 && (freed != old(freed) ==> |rqueue| == 4)
    {
      ghost var n := 0;
      while |rqueue| >= MAXRECYCLED
        invariant 0 <= n <= Excess(old(rqueue)) && rqueue == old(rqueue)[n..] && freed == old(freed) + old(rqueue)[..n]
      {
        freed := freed + [rqueue[0]];
        rqueue := rqueue[1..];
        n := n + 1;
      }
      rqueue := rqueue + [t];
    }

    method Recycle(ghost i: nat, t: Buf)
      requires Holds(Contents(), i, t)
      modifies this`rqueue, this`freed, this`threads
      ensures Moves(old(View()), Does(EvRecycle(i, t)), View())
    {
      threads := Lose(Contents(), i, t).threads;
      RecycleNolock(t);
    }

    method SetTerminate(ghost i: nat)
      requires Idle(Contents(), i)
      modifies this`ok, this`notified
      ensures Moves(old(View()), Does(EvTerminate(i)), View())
    {
      ok := false;
      NotifyAll(false);
      NotifyAll(true);
    }

    method RecycleQueue()
      modifies this`queue, this`rqueue, this`freed
      ensures Contents() == RecycleAll(old(Contents())) && queue == []
    {
      while queue != []
        invariant RecycleAll(Contents()) == RecycleAll(old(Contents()))
        decreases |queue|
      {
        var t := queue[0];
        queue := queue[1..];
        RecycleNolock(t);
      }
    }

    method Reset(ghost i: nat)
      requires Idle(Contents(), i)
      modifies this
      ensures Moves(old(View()), Does(EvReset(i)), View())
      ensures queue == [] && ok && clientsWaiting == 0 && workersWaiting == 0
    {
      RecycleQueue();
      clientsWaiting, workersWaiting, lateClients, lateWorkers := 0, 0, 0, 0;
      ok := true;
      NotifyAll(false);
      NotifyAll(true);
    }
  }
}
