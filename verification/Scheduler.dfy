/** The scheduler in operation: switching threads, waiting for events and setting them, creating and
    ending threads (kernel/ps.cpp, kernel/ps386.asm, kernel/kernel.cpp). */
module KernelScheduler {
  import opened Common
  import opened SchedulerState

  const THREAD_NORMAL_QUANTUM := 3

  /** The thread FindReadyThread picks: the first in the list that is not the current one. */
  function FirstOther(ready: seq<nat>, current: nat): (t: int)
    ensures t >= 0 ==> t in ready && t != current
    ensures t < 0 <==> forall k :: 0 <= k < |ready| ==> ready[k] == current
  {
    if ready == [] then -1
    else if ready[0] != current then ready[0]
    else
      assert forall k :: 0 < k < |ready| ==> ready[1..][k - 1] == ready[k];
      FirstOther(ready[1..], current)
  }

  lemma {:induction false} FirstOtherIsFirst(ready: seq<nat>, current: nat)
    ensures FirstOther(ready, current) >= 0 ==>
      exists k :: 0 <= k < |ready| && ready[k] == FirstOther(ready, current) && forall j :: 0 <= j < k ==> ready[j] == current
  {
    if ready != [] && ready[0] == current && FirstOther(ready, current) >= 0 {
      var rest := ready[1..];
      FirstOtherIsFirst(rest, current);
      var k :| 0 <= k < |rest| && rest[k] == FirstOther(rest, current) && forall j :: 0 <= j < k ==> rest[j] == current;
      assert ready[k + 1] == FirstOther(ready, current);
      assert forall j :: 0 < j < k + 1 ==> ready[j] == rest[j - 1];
    }
  }

  class Scheduler {
    var threads: seq<Thread>
    var events: seq<Event>
    var ready: seq<nat>               // PsReadyListHead, the running thread included
    var waiting: seq<nat>             // PsWaitListHead
    var current: nat
    var quantumLeft: nat

    /** The lists are right, and the current thread is the one that runs. */
    ghost predicate Valid()
      reads this
    {
      && Shape(threads, events, ready, waiting) && current < |threads|
      && forall t :: 0 <= t < |threads| ==> (threads[t].state.Running? <==> t == current)
    }

    /** The lists are right and no thread runs: the current one is giving up the processor. */
    ghost predicate Switching()
      reads this
    {
      && Shape(threads, events, ready, waiting) && current < |threads|
      && forall t :: 0 <= t < |threads| ==> !threads[t].state.Running?
    }

    /** PspInitSystem: the initial thread runs alone. */
    constructor (events: seq<Event>)
      requires forall e :: 0 <= e < |events| ==> events[e].waiters == []
      ensures Valid() && threads == [Thread(Running, THREAD_NORMAL_QUANTUM, 0, NotWaiting, 0, 0)] && this.events == events
    {
      this.events := events;
      threads := [Thread(Running, THREAD_NORMAL_QUANTUM, 0, NotWaiting, 0, 0)];
      ready, waiting, current, quantumLeft := [0], [], 0, THREAD_NORMAL_QUANTUM;
      new;
      assert forall t {:trigger Filed(threads, ready, waiting, t)} :: 0 <= t < |threads| ==> Filed(threads, ready, waiting, t);
      assert forall t {:trigger Queued(threads, this.events, t)} :: 0 <= t < |threads| ==> Queued(threads, this.events, t);
    }

    // -------------------------------------------------------------- switching

    /** FindReadyThread: every thread it meets is ready.  It fails, and the system stops, when the list
        holds no other thread and the current one cannot go on. */
    method FindReadyThread() returns (found: bool, thread: nat)
      requires Switching()
      ensures found <==> (FirstOther(ready, current) >= 0 || threads[current].state.Ready?)
      ensures found ==> thread == if FirstOther(ready, current) >= 0 then FirstOther(ready, current) else current
      ensures found ==> thread < |threads| && threads[thread].state.Ready? && thread in ready
      ensures found && thread != current ==>
        exists k :: 0 <= k < |ready| && ready[k] == thread && forall j :: 0 <= j < k ==> ready[j] == current
    {
      FirstOtherIsFirst(ready, current);
      var k := 0;
      while k < |ready|
        invariant 0 <= k <= |ready| && FirstOther(ready, current) == FirstOther(ready[k..], current)
      {
        var t := ready[k];
        assert Filed(threads, ready, waiting, t);
        assert threads[t].state.Ready?;
        assert ready[k..][0] == t && ready[k..][1..] == ready[k + 1..];
        if t != current {
          return true, t;
        }
        k := k + 1;
      }
      assert Filed(threads, ready, waiting, current);
      return threads[current].state.Ready?, current;
    }

    /** PspReadyThread: to the end of the ready list. */
    method ReadyThread(t: nat)
      requires Switching() && t in ready
      modifies this`ready
      ensures Switching() && ready == Removed(old(ready), t) + [t]
    {
      ReorderKeeps(threads, events, ready, waiting, t);
      ready := Removed(ready, t) + [t];
    }

    /** PspUnwaitThread: a thread that waits for an object becomes the first of the ready ones; one that
        waits for time is left alone. */
    method UnwaitThread(t: nat, increment: nat)
      requires Shape(threads, events, ready, waiting) && t < |threads| && threads[t].state.Waiting?
      modifies this`threads, this`events, this`ready, this`waiting
      ensures Shape(threads, events, ready, waiting)
      ensures if old(threads[t].waitType.ObjectsAny?) then
          && threads == old(threads)[t := Woken(old(threads[t]), increment)] && events == Unblocked(old(events), t)
          && ready == [t] + old(ready) && waiting == Removed(old(waiting), t)
        else threads == old(threads) && events == old(events) && ready == old(ready) && waiting == old(waiting)
    {
      hide Shape;
      if threads[t].waitType.ObjectsAny? {
        ghost var before := threads;
        WakeKeeps(threads, events, ready, waiting, t, increment);
        threads := threads[t := threads[t].(state := Ready)];
        waiting := Removed(waiting, t);
        ready := [t] + ready;
        threads := threads[t := threads[t].(dynamic := increment)];
        events := Unblocked(events, t);
        threads := threads[t := threads[t].(waitType := NotWaiting, objects := 0)];
        assert threads == before[t := Woken(before[t], increment)];
      }
    }

    /** PspProcessWaitList: delays count down, but no thread is woken when its delay is over. */
    method ProcessWaitList()
      requires Switching()
      modifies this`threads, this`events, this`ready, this`waiting
      ensures Switching() && events == old(events) && ready == old(ready) && waiting == old(waiting)
      ensures |threads| == |old(threads)|
      ensures forall t :: 0 <= t < |threads| ==> threads[t] == Ticked(old(threads[t]))
    {
      var k := 0;
      while k < |waiting|
        invariant 0 <= k <= |waiting| && Switching()
        invariant events == old(events) && ready == old(ready) && waiting == old(waiting) && |threads| == |old(threads)|
        invariant forall t :: 0 <= t < |threads| ==>
          threads[t] == if t in waiting[..k] then Ticked(old(threads[t])) else old(threads[t])
      {
        var t := waiting[k];
        assert t in waiting && t < |threads| && t !in waiting[..k];
        assert waiting[..k + 1] == waiting[..k] + [t];
        assert Filed(threads, ready, waiting, t);
        if threads[t].waitType.ExecutionDelayed? {
          ghost var before := threads;
          threads := threads[t := threads[t].(ticks := if threads[t].ticks > 0 then threads[t].ticks - 1 else TWO32 - 1)];
          RestateKeeps(before, threads, events, ready, waiting);
          if threads[t].ticks == 0 {
            UnwaitThread(t, 0);
          }
        }
        k := k + 1;
      }
      assert waiting[..k] == waiting;
      forall t | 0 <= t < |threads|
        ensures threads[t] == Ticked(old(threads[t]))
      {
        assert Filed(threads, ready, waiting, t);
      }
    }

    /** SwapContext: the thread runs, with its quantum and what it was given on top. */
    method SwapContext(t: nat)
      requires Switching() && t < |threads| && threads[t].state.Ready?
      modifies this`threads, this`current, this`quantumLeft
      ensures Valid() && current == t && |threads| == |old(threads)|
      ensures quantumLeft == (old(threads[t]).quantum + old(threads[t]).dynamic) % 0x1_0000
      ensures threads == old(threads)[t := Started(old(threads[t]))]
      ensures threads == old(threads)[t := old(threads[t]).(state := Running, dynamic := 0)]
    {
      ghost var before := threads;
      threads := threads[t := threads[t].(state := Running)];
      current := t;
      quantumLeft := (threads[t].quantum + threads[t].dynamic) % 0x1_0000;
      threads := threads[t := threads[t].(dynamic := 0)];
      RestateKeeps(before, threads, events, ready, waiting);
    }

    /** PspSwapThread: a current thread that is still ready goes to the end of the list; the first other
        one runs.  Without one and with a current thread that cannot go on, the system stops. */
    method SwapThread() returns (ok: bool)
      requires Switching()
      modifies this
      ensures events == old(events) && waiting == old(waiting) && |threads| == |old(threads)|
      ensures ready == if old(threads[current]).state.Ready? then Removed(old(ready), old(current)) + [old(current)] else old(ready)
      ensures ok <==> (FirstOther(ready, old(current)) >= 0 || old(threads[current]).state.Ready?)
      ensures ok ==> Valid()
      ensures ok ==> current == if FirstOther(ready, old(current)) >= 0 then FirstOther(ready, old(current)) else old(current)
      ensures Switched(old(threads), threads, ok, current) && (ok ==> old(threads)[current].state.Ready?)
      ensures ok ==> quantumLeft == (old(threads)[current].quantum + old(threads)[current].dynamic) % 0x1_0000
    {
      assert Filed(threads, ready, waiting, current);
      hide Ticked, Started, FirstOther, Removed, Filed, Queued;
      if threads[current].state.Ready? {
        ReadyThread(current);
      }
      ProcessWaitList();
      var t;
      ok, t := FindReadyThread();
      if ok {
        SwapContext(t);
      }
    }

    /** PsQuantumEnd */
    method QuantumEnd()
      requires Valid()
      modifies this
      ensures Valid() && events == old(events) && waiting == old(waiting) && |threads| == |old(threads)|
      ensures ready == Rotated(old(ready), old(current)) && current == Next(old(ready), old(current))
      ensures Switched(old(threads)[old(current) := old(threads[current]).(state := Ready)], threads, true, current)
      ensures StillDelayed(old(threads), threads)
    {
      hide Shape, Switched, StillDelayed, Filed, Removed, FirstOther;
      ghost var before, t := threads, current;
      StopRunning(before, events, ready, waiting, t);
      threads := threads[current := threads[current].(state := Ready)];
      var ok := SwapThread();
      SwitchedDelays(before, t, before[t].(state := Ready), threads, ok, current);
    }

    // -------------------------------------------------------------- waiting and waking

    /** KeWaitForSingleObject: no wait for a signalled event; else the thread goes to the end of the event's
        list and another one runs, or the system stops. */
    method WaitForSingleObject(e: nat) returns (waited: bool, ok: bool)
      requires Valid() && e < |events|
      modifies this
      ensures waited == !old(events[e].signaled) && |threads| == |old(threads)|
      ensures !waited ==> ok && Valid() && threads == old(threads) && events == old(events)
      ensures !waited ==> ready == old(ready) && waiting == old(waiting) && current == old(current)
      ensures waited ==>
        && events == old(events)[e := old(events[e]).(waiters := old(events[e]).waiters + [old(current)])]
        && ready == Removed(old(ready), old(current)) && waiting == old(waiting) + [old(current)]
        && (ok <==> ready != []) && (ok ==> Valid() && current == ready[0])
        && var th := old(threads[current]).(state := Waiting, waitType := ObjectsAny, objects := 1);
           Switched(old(threads)[old(current) := th], threads, ok, current)
      ensures StillDelayed(old(threads), threads)
    {
      if events[e].signaled {
        return false, true;
      }
      hide Shape, StillDelayed, Switched, Removed;
      ghost var before := threads;
      var th := threads[current].(state := Waiting, waitType := ObjectsAny, objects := 1);
      BlockKeeps(threads, events, ready, waiting, current, th, e);
      events := events[e := events[e].(waiters := events[e].waiters + [current])];
      threads := threads[current := th];
      ready := Removed(ready, current);
      waiting := waiting + [current];
      WhoIsOther(ready, current);
      ghost var t := current;
      ok := SwapThread();
      SwitchedDelays(before, t, th, threads, ok, current);
      waited := true;
    }

    /** PsDelayThreadExecution: the thread waits, and nothing will wake it. */
    method DelayThreadExecution(ticks: nat) returns (ok: bool)
      requires Valid()
      modifies this
      ensures |threads| == |old(threads)| && Delayed(threads[old(current)]) && StillDelayed(old(threads), threads)
      ensures var th := old(threads[current]).(state := Waiting, waitType := ExecutionDelayed, ticks := ticks);
        Switched(old(threads)[old(current) := th], threads, ok, current)
      ensures events == old(events) && ready == Removed(old(ready), old(current)) && waiting == old(waiting) + [old(current)]
      ensures (ok <==> ready != []) && (ok ==> Valid() && current == ready[0])
    {
      hide Shape, StillDelayed, Removed;
      ghost var before, t := threads, current;
      var th := threads[current].(state := Waiting, waitType := ExecutionDelayed, ticks := ticks);
      LeaveKeeps(threads, events, ready, waiting, current, th);
      threads := threads[current := th];
      ready := Removed(ready, current);
      waiting := waiting + [current];
      WhoIsOther(ready, current);
      ok := SwapThread();
      SwitchedDelays(before, t, th, threads, ok, current);
    }

    /** PsExitThread */
    method ExitThread() returns (ok: bool)
      requires Valid()
      modifies this
      ensures |threads| == |old(threads)| && StillDelayed(old(threads), threads)
      ensures events == old(events) && ready == Removed(old(ready), old(current)) && waiting == old(waiting)
      ensures (ok <==> ready != []) && (ok ==> Valid() && current == ready[0])
      ensures Switched(old(threads)[old(current) := old(threads[current]).(state := Terminated)], threads, ok, current)
    {
      hide Shape, StillDelayed, Removed;
      ghost var before, t := threads, current;
      var th := threads[current].(state := Terminated);
      LeaveKeeps(threads, events, ready, waiting, current, th);
      ready := Removed(ready, current);
      threads := threads[current := th];
      WhoIsOther(ready, current);
      ok := SwapThread();
      SwitchedDelays(before, t, th, threads, ok, current);
    }

    /** PspCreateThread: the new thread is the first of the ready ones. */
    method CreateThread() returns (t: nat)
      requires Valid()
      modifies this`threads, this`ready
      ensures Valid() && t == |old(threads)| && ready == [t] + old(ready) && StillDelayed(old(threads), threads)
      ensures threads == old(threads) + [Thread(Ready, THREAD_NORMAL_QUANTUM, 0, NotWaiting, 0, 0)]
    {
      t := |threads|;
      var th := Thread(Ready, THREAD_NORMAL_QUANTUM, 0, NotWaiting, 0, 0);
      CreateKeeps(threads, events, ready, waiting, th);
      threads := threads + [th];
      ready := [t] + ready;
    }

    /** The threads that setting event e wakes: the first waiter of a synchronization event, all of a
        notification event. */
    function WokenBy(e: nat): (w: seq<nat>)
      requires e < |events|
      reads this
      ensures |w| <= |events[e].waiters| && w == events[e].waiters[..|w|]
    {
      if events[e].synchronization && events[e].waiters != [] then events[e].waiters[..1] else events[e].waiters
    }

    /** KeSetEvent: the event is and stays signalled; each thread woken goes in front of the ready list. */
    method SetEvent(e: nat, increment: nat) returns (wasSignaled: bool)
      requires Valid() && e < |events|
      modifies this`threads, this`events, this`ready, this`waiting
      ensures Valid() && wasSignaled == old(events[e].signaled) && |threads| == |old(threads)|
      ensures Woke(old(threads), old(events)[e := old(events[e]).(signaled := true)], old(ready), old(waiting),
                   threads, events, ready, waiting, e, increment, |old(WokenBy(e))|)
      ensures var w := old(events[e].waiters);
        old(events[e].synchronization) && w != [] ==>
          && events == old(events)[e := old(events[e]).(signaled := true, waiters := w[1..])]
          && OneWoken(old(threads), old(ready), threads, ready, w[0], increment)
      ensures var w := old(events[e].waiters);
        !old(events[e].synchronization) || w == [] ==>
          && events == old(events)[e := old(events[e]).(signaled := true, waiters := [])]
          && AllWoken(old(threads), old(ready), threads, ready, w, increment)
      ensures StillDelayed(old(threads), threads)
    {
      hide Shape, Valid;
      wasSignaled := events[e].signaled;
      ghost var ts, es, rs, ws := threads, events, ready, waiting;
      WaitersInRange(e);
      SetSignaled(e, true);
      WakeWaiters(e, increment);
      if es[e].synchronization && es[e].waiters != [] {
        WokeOne(ts, es[e := es[e].(signaled := true)], rs, ws, threads, events, ready, waiting, e, increment);
      } else {
        WokeAll(ts, es[e := es[e].(signaled := true)], rs, ws, threads, events, ready, waiting, e, increment);
      }
    }

    lemma WaitersInRange(e: nat)
      requires Valid() && e < |events|
      ensures forall t :: t in events[e].waiters ==> t < |threads|
    {
      assert InRange(threads, events[e].waiters);
    }

    /** The store to SignaledState; with false it is KeClearEvent. */
    method SetSignaled(e: nat, signaled: bool)
      requires Valid() && e < |events|
      modifies this`events
      ensures Valid() && events == old(events)[e := old(events[e]).(signaled := signaled)]
    {
      SignalKeeps(threads, events, ready, waiting, e, signaled);
      events := events[e := events[e].(signaled := signaled)];
    }

    /** The loop of KiSetEvent over the wait blocks. */
    method WakeWaiters(e: nat, increment: nat)
      requires Valid() && e < |events|
      modifies this`threads, this`events, this`ready, this`waiting
      ensures Valid() && |threads| == |old(threads)|
      ensures Woke(old(threads), old(events), old(ready), old(waiting), threads, events, ready, waiting,
                   e, increment, |old(WokenBy(e))|)
      ensures StillDelayed(old(threads), threads)
    {
      hide Shape, Valid, Woke, Reversed;
      ghost var ts, es, rs, ws := threads, events, ready, waiting;
      var list := events[e].waiters;
      WokeNone(ts, es, rs, ws, e, increment);
      var k := 0;
      var done := list == [];
      while !done
        invariant 0 <= k <= |list| && Valid() && |threads| == |ts|
        invariant done ==> k == |list| || (es[e].synchronization && k == 1)
        invariant !done ==> k < |list| && (es[e].synchronization ==> k == 0)
        invariant es[e].synchronization ==> k <= 1
        invariant Woke(ts, es, rs, ws, threads, events, ready, waiting, e, increment, k)
        invariant StillDelayed(ts, threads)
        decreases |list| - k, !done
      {
        ghost var ts1, es1, rs1, ws1 := threads, events, ready, waiting;
        WokeAt(ts, es, rs, ws, ts1, es1, rs1, ws1, e, increment, k);
        WakeFirst(e, increment);
        WokeMore(ts, es, rs, ws, ts1, es1, rs1, ws1, threads, events, ready, waiting, e, increment, k);
        k := k + 1;
        done := events[e].synchronization || k == |list|;
      }
    }

    /** One round of the loop in KiSetEvent: the thread whose wait block is first. */
    method WakeFirst(e: nat, increment: nat)
      requires Valid() && e < |events| && events[e].waiters != []
      modifies this`threads, this`events, this`ready, this`waiting
      ensures Valid() && |threads| == |old(threads)| && StillDelayed(old(threads), threads)
      ensures var t := old(events[e].waiters[0]);
        && events == old(events)[e := old(events[e]).(waiters := old(events[e]).waiters[1..])]
        && ready == [t] + old(ready) && (forall u :: u in waiting <==> u in old(waiting) && u != t)
        && t < |threads| && threads == old(threads)[t := Woken(old(threads[t]), increment)]
    {
      hide Shape;
      WaiterWaits(threads, events, ready, waiting, e, 0);
      UnwaitThread(events[e].waiters[0], increment);
    }

    /** KePulseEvent */
    method PulseEvent(e: nat, increment: nat) returns (wasSignaled: bool)
      requires Valid() && e < |events|
      modifies this`threads, this`events, this`ready, this`waiting
      ensures Valid() && wasSignaled == old(events[e].signaled) && |threads| == |old(threads)|
      ensures Woke(old(threads), old(events)[e := old(events[e]).(signaled := false)], old(ready), old(waiting),
                   threads, events, ready, waiting, e, increment, |old(WokenBy(e))|)
      ensures var w := old(events[e].waiters);
        old(events[e].synchronization) && w != [] ==>
          && events == old(events)[e := old(events[e]).(signaled := false, waiters := w[1..])]
          && OneWoken(old(threads), old(ready), threads, ready, w[0], increment)
      ensures var w := old(events[e].waiters);
        !old(events[e].synchronization) || w == [] ==>
          && events == old(events)[e := old(events[e]).(signaled := false, waiters := [])]
          && AllWoken(old(threads), old(ready), threads, ready, w, increment)
      ensures StillDelayed(old(threads), threads)
    {
      hide Shape, Reversed;
      wasSignaled := SetEvent(e, increment);
      SetSignaled(e, false);
    }
  }

  /** Between two states the first k waiters of event e were woken: each became ready, in front of the
      ready list, and left both wait lists; nothing else changed. */
  ghost predicate Woke(ts: seq<Thread>, es: seq<Event>, rs: seq<nat>, ws: seq<nat>,
                       ts': seq<Thread>, es': seq<Event>, rs': seq<nat>, ws': seq<nat>, e: nat, increment: nat, k: nat) {
    && e < |es| && k <= |es[e].waiters| && |ts'| == |ts|
    && es' == es[e := es[e].(waiters := es[e].waiters[k..])]
    && rs' == Reversed(es[e].waiters[..k]) + rs
    && (forall t :: t in ws' <==> t in ws && t !in es[e].waiters[..k])
    && (forall t :: 0 <= t < |ts| ==> ts'[t] == if t in es[e].waiters[..k] then Woken(ts[t], increment) else ts[t])
  }

  /** Thread t alone became ready, in front of the ready list and with the increment. */
  ghost predicate OneWoken(ts: seq<Thread>, rs: seq<nat>, ts': seq<Thread>, rs': seq<nat>, t: nat, increment: nat) {
    && t < |ts| && rs' == [t] + rs
    && ts' == ts[t := ts[t].(state := Ready, dynamic := increment, waitType := NotWaiting, objects := 0)]
  }

  /** The threads of w became ready, each in front of the one before it, with the increment; no other changed. */
  ghost predicate AllWoken(ts: seq<Thread>, rs: seq<nat>, ts': seq<Thread>, rs': seq<nat>, w: seq<nat>, increment: nat) {
    && |ts'| == |ts| && |rs'| == |w| + |rs| && rs'[|w|..] == rs
    && (forall k :: 0 <= k < |w| ==> rs'[k] == w[|w| - 1 - k])
    && (forall t :: 0 <= t < |ts| ==>
         ts'[t] == if t in w then ts[t].(state := Ready, dynamic := increment, waitType := NotWaiting, objects := 0)
                   else ts[t])
  }

  lemma WokeOne(ts: seq<Thread>, es: seq<Event>, rs: seq<nat>, ws: seq<nat>,
                ts': seq<Thread>, es': seq<Event>, rs': seq<nat>, ws': seq<nat>, e: nat, increment: nat)
    requires Woke(ts, es, rs, ws, ts', es', rs', ws', e, increment, 1)
    requires forall t :: t in es[e].waiters ==> t < |ts|
    ensures OneWoken(ts, rs, ts', rs', es[e].waiters[0], increment)
    ensures es' == es[e := es[e].(waiters := es[e].waiters[1..])]
  {
    hide Reversed;
    var w := es[e].waiters;
    assert w[..1] == [w[0]] && w[0] in w;
    FromTheEnd([w[0]], 0);
    assert Reversed(w[..1]) == [w[0]];
  }

  lemma WokeAll(ts: seq<Thread>, es: seq<Event>, rs: seq<nat>, ws: seq<nat>,
                ts': seq<Thread>, es': seq<Event>, rs': seq<nat>, ws': seq<nat>, e: nat, increment: nat)
    requires e < |es| && Woke(ts, es, rs, ws, ts', es', rs', ws', e, increment, |es[e].waiters|)
    ensures AllWoken(ts, rs, ts', rs', es[e].waiters, increment)
    ensures es' == es[e := es[e].(waiters := [])]
  {
    hide Reversed;
    var w := es[e].waiters;
    assert w[..|w|] == w && w[|w|..] == [];
    ReversedLength(w);
    forall j | 0 <= j < |w|
      ensures Reversed(w)[j] == w[|w| - 1 - j]
    {
      FromTheEnd(w, j);
    }
  }

  lemma WokeNone(ts: seq<Thread>, es: seq<Event>, rs: seq<nat>, ws: seq<nat>, e: nat, increment: nat)
    requires e < |es|
    ensures Woke(ts, es, rs, ws, ts, es, rs, ws, e, increment, 0)
  {
    var list := es[e].waiters;
    assert list[0..] == list && es == es[e := es[e].(waiters := list[0..])];
    assert [] + rs == rs;
  }

  lemma WokeAt(ts: seq<Thread>, es: seq<Event>, rs: seq<nat>, ws: seq<nat>,
               ts1: seq<Thread>, es1: seq<Event>, rs1: seq<nat>, ws1: seq<nat>, e: nat, increment: nat, k: nat)
    requires Woke(ts, es, rs, ws, ts1, es1, rs1, ws1, e, increment, k)
    ensures e < |es1| == |es| && es1[e].waiters == es[e].waiters[k..] && es1[e].synchronization == es[e].synchronization
  {
  }

  lemma WokeMore(ts: seq<Thread>, es: seq<Event>, rs: seq<nat>, ws: seq<nat>,
                 ts1: seq<Thread>, es1: seq<Event>, rs1: seq<nat>, ws1: seq<nat>,
                 ts2: seq<Thread>, es2: seq<Event>, rs2: seq<nat>, ws2: seq<nat>, e: nat, increment: nat, k: nat)
    requires Woke(ts, es, rs, ws, ts1, es1, rs1, ws1, e, increment, k) && k < |es[e].waiters|
    requires var t := es[e].waiters[k];
      && es2 == es1[e := es1[e].(waiters := es1[e].waiters[1..])]
      && rs2 == [t] + rs1 && (forall u :: u in ws2 <==> u in ws1 && u != t)
      && t < |ts1| && ts2 == ts1[t := Woken(ts1[t], increment)]
    ensures Woke(ts, es, rs, ws, ts2, es2, rs2, ws2, e, increment, k + 1)
  {
    var list := es[e].waiters;
    ReversedMore(list[..k], list[k]);
    hide Reversed;
    assert list[k..][1..] == list[k + 1..] && list[..k + 1] == list[..k] + [list[k]];
    assert [list[k]] + (Reversed(list[..k]) + rs) == ([list[k]] + Reversed(list[..k])) + rs;
  }

  lemma StopRunning(threads: seq<Thread>, events: seq<Event>, ready: seq<nat>, waiting: seq<nat>, t: nat)
    requires Shape(threads, events, ready, waiting) && t < |threads| && threads[t].state.Running?
    ensures Shape(threads[t := threads[t].(state := Ready)], events, ready, waiting) && t in ready
  {
    assert Filed(threads, ready, waiting, t);
    RestateKeeps(threads, threads[t := threads[t].(state := Ready)], events, ready, waiting);
  }

  /** Without the current thread on it, the list yields its first thread, if any. */
  lemma WhoIsOther(ready: seq<nat>, current: nat)
    requires current !in ready
    ensures FirstOther(ready, current) >= 0 <==> ready != []
    ensures ready != [] ==> FirstOther(ready, current) == ready[0]
  {
    if ready != [] {
      FirstIsOther(ready, current);
    }
  }

  /** A thread on an event's list waits for an object, and on no other list; it is the first to go. */
  lemma WaiterWaits(threads: seq<Thread>, events: seq<Event>, ready: seq<nat>, waiting: seq<nat>, e: nat, k: nat)
    requires Shape(threads, events, ready, waiting) && e < |events| && k < |events[e].waiters|
    ensures var t := events[e].waiters[k];
      && t < |threads| && threads[t].state.Waiting? && threads[t].waitType.ObjectsAny?
      && (k == 0 ==> Unblocked(events, t) == events[e := events[e].(waiters := events[e].waiters[1..])])
  {
    var t, list := events[e].waiters[k], events[e].waiters;
    assert InRange(threads, list) && t in list;
    assert Queued(threads, events, t);
    if k == 0 {
      assert t !in list[1..];
      assert Removed(list, t) == [] + list[1..] == list[1..];
      forall d | 0 <= d < |events| && d != e
        ensures Unblocked(events, t)[d] == events[d]
      {
        assert t !in events[d].waiters;
      }
    }
  }

  // ---------------------------------------------------------------- round robin

  /** The ready list after the current thread's quantum ended. */
  function Rotated(ready: seq<nat>, current: nat): seq<nat> {
    Removed(ready, current) + [current]
  }

  /** The thread that runs next. */
  function Next(ready: seq<nat>, current: nat): nat {
    var t := FirstOther(Rotated(ready, current), current);
    if t >= 0 then t else current
  }

  /** The thread that runs after n quantum ends. */
  function RunsAfter(ready: seq<nat>, current: nat, n: nat): nat
    decreases n
  {
    if n == 0 then current else RunsAfter(Rotated(ready, current), Next(ready, current), n - 1)
  }

  lemma FirstIsOther(ready: seq<nat>, current: nat)
    requires |ready| > 0 && ready[0] != current
    ensures FirstOther(ready, current) == ready[0]
  {
  }

  /** Once the current thread heads the list, thread k of the list runs k quantum ends later. */
  lemma {:induction false} RunsInTurn(ready: seq<nat>, k: nat)
    requires Distinct(ready) && k < |ready|
    ensures RunsAfter(ready, ready[0], k) == ready[k]
    decreases k
  {
    hide Rotated, Next, Distinct;
    if k > 0 {
      RotatedAt(ready, k);
      RunsInTurn(Rotated(ready, ready[0]), k - 1);
    }
  }

  lemma RotatedAt(ready: seq<nat>, k: nat)
    requires Distinct(ready) && 0 < k < |ready|
    ensures var r := Rotated(ready, ready[0]);
      Distinct(r) && |r| == |ready| && r[k - 1] == ready[k] && Next(ready, ready[0]) == r[0]
  {
    hide Rotated, Next, Distinct;
    HeadRotates(ready);
  }

  lemma HeadRotates(ready: seq<nat>)
    requires Distinct(ready) && |ready| > 1
    ensures Rotated(ready, ready[0]) == ready[1..] + [ready[0]] && Next(ready, ready[0]) == ready[1]
    ensures Distinct(Rotated(ready, ready[0]))
  {
    assert ready[0] !in ready[1..];
    assert Removed(ready, ready[0]) == [] + ready[1..] == ready[1..];
    FirstIsOther(Rotated(ready, ready[0]), ready[0]);
  }

  /** With no wake-ups or creations every ready thread runs within as many quantum ends as there are ready
      threads. */
  lemma RoundRobin(ready: seq<nat>, current: nat, t: nat) returns (n: nat)
    requires Distinct(ready) && current in ready && t in ready
    ensures n <= |ready| && RunsAfter(ready, current, n) == t
  {
    hide Rotated, Next, Distinct;
    RotatedFacts(ready, current);
    var r := Rotated(ready, current);
    if |ready| == 1 {
      assert t == ready[0] && current == ready[0];
      n := 0;
    } else {
      assert t in r;
      var k :| 0 <= k < |r| && r[k] == t;
      RunsInTurn(r, k);
      n := k + 1;
    }
  }

  lemma RotatedFacts(ready: seq<nat>, current: nat)
    requires Distinct(ready) && current in ready
    ensures var r := Rotated(ready, current);
      && |r| == |ready| && Distinct(r) && (forall t :: t in ready ==> t in r)
      && (|ready| > 1 ==> Next(ready, current) == r[0])
  {
    RemovedDistinct(ready, current);
    if |ready| > 1 {
      assert Removed(ready, current)[0] in Removed(ready, current);
      FirstIsOther(Rotated(ready, current), current);
    }
  }
}
