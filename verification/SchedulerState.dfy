/** The threads, the ready and wait lists, and the events they wait for (kernel/ps.cpp,
    kernel/kernel.cpp). */
module SchedulerState {
  import opened Common

  datatype ThreadState = Ready | Running | Waiting | Terminated

  datatype WaitType = NotWaiting | ExecutionDelayed | ObjectsAny

  datatype Thread = Thread(state: ThreadState, quantum: nat, dynamic: nat, waitType: WaitType, ticks: nat, objects: nat)

  /** An event object with its signalled state and the threads on its wait list, in order. */
  datatype Event = Event(synchronization: bool, signaled: bool, waiters: seq<nat>)

  /** The list without thread t. */
  function Removed(s: seq<nat>, t: nat): (r: seq<nat>)
    ensures forall x :: x in r <==> x in s && x != t
    ensures t !in s ==> r == s
  {
    if s == [] then [] else (if s[0] == t then [] else [s[0]]) + Removed(s[1..], t)
  }

  lemma {:induction false} RemovedDistinct(s: seq<nat>, t: nat)
    requires Distinct(s)
    ensures Distinct(Removed(s, t))
    ensures t in s ==> |Removed(s, t)| == |s| - 1
  {
    if s != [] {
      RemovedDistinct(s[1..], t);
      var r := Removed(s[1..], t);
      assert forall k :: 0 <= k < |s[1..]| ==> s[1..][k] == s[k + 1];
      assert s[0] !in s[1..];
      assert forall k :: 0 <= k < |r| ==> r[k] in s[1..];
    }
  }

  /** What the lists hold of thread t. */
  ghost predicate Filed(threads: seq<Thread>, ready: seq<nat>, waiting: seq<nat>, t: nat)
    requires t < |threads|
  {
    && (t in ready <==> threads[t].state.Ready? || threads[t].state.Running?)
    && (t in waiting <==> threads[t].state.Waiting?)
    && (threads[t].state.Waiting? ==> threads[t].waitType != NotWaiting)
  }

  /** A thread waits for an object exactly when it is on the list of one event. */
  ghost predicate Queued(threads: seq<Thread>, events: seq<Event>, t: nat)
    requires t < |threads|
  {
    && (threads[t].state.Waiting? && threads[t].waitType.ObjectsAny? ==>
         threads[t].objects == 1 && exists e :: 0 <= e < |events| && t in events[e].waiters)
    && (forall e :: 0 <= e < |events| && t in events[e].waiters ==> threads[t].state.Waiting? && threads[t].waitType.ObjectsAny?)
    && (forall d, e :: 0 <= d < |events| && 0 <= e < |events| && t in events[d].waiters && t in events[e].waiters ==> d == e)
  }

  ghost predicate InRange(threads: seq<Thread>, s: seq<nat>) {
    Distinct(s) && forall t :: t in s ==> t < |threads|
  }

  /** Every live thread is on exactly one of the two lists, as its state says. */
  ghost predicate Shape(threads: seq<Thread>, events: seq<Event>, ready: seq<nat>, waiting: seq<nat>) {
    && InRange(threads, ready) && InRange(threads, waiting)
    && (forall t {:trigger Filed(threads, ready, waiting, t)} :: 0 <= t < |threads| ==> Filed(threads, ready, waiting, t))
    && (forall t {:trigger Queued(threads, events, t)} :: 0 <= t < |threads| ==> Queued(threads, events, t))
    && (forall e {:trigger events[e]} :: 0 <= e < |events| ==> InRange(threads, events[e].waiters))
  }

  /** A thread that waits for time to pass. */
  predicate Delayed(th: Thread) { th.state.Waiting? && th.waitType.ExecutionDelayed? }

  /** A thread on the wait list once its delay was counted down, a ULONG. */
  function Ticked(th: Thread): Thread {
    if Delayed(th) then th.(ticks := if th.ticks > 0 then th.ticks - 1 else TWO32 - 1) else th
  }

  function TickedTimes(th: Thread, k: nat): Thread {
    if k == 0 then th else Ticked(TickedTimes(th, k - 1))
  }

  /** However often the list is processed: the delay of a thread that waits for time has gone down by as much,
      through zero and on from the top of a ULONG, and nothing else about any thread has changed. */
  lemma {:induction false} DelayGoesDown(th: Thread, k: nat)
    requires th.ticks < 0x1_0000_0000
    ensures TickedTimes(th, k) ==
      if th.state == Waiting && th.waitType == ExecutionDelayed then th.(ticks := (th.ticks - k) % 0x1_0000_0000) else th
    decreases k
  {
    if k > 0 {
      DelayGoesDown(th, k - 1);
      OneLess(th.ticks, k);
    }
  }

  lemma OneLess(n: nat, k: nat)
    requires k > 0
    ensures var m := (n - (k - 1)) % 0x1_0000_0000;
      (n - k) % 0x1_0000_0000 == if m > 0 then m - 1 else 0xFFFF_FFFF
  {
  }

  /** A thread that gets the processor. */
  function Started(th: Thread): Thread { th.(state := Running, dynamic := 0) }

  /** What a switch to thread `current`, if there is one to switch to, makes of the threads. */
  ghost predicate Switched(threads: seq<Thread>, threads': seq<Thread>, ok: bool, current: nat) {
    && |threads'| == |threads| && (ok ==> current < |threads|)
    && forall t {:trigger threads'[t]} :: 0 <= t < |threads| ==>
         threads'[t] == if ok && t == current then Started(threads[t]) else Ticked(threads[t])
  }

  /** No delayed thread came back. */
  ghost predicate StillDelayed(threads: seq<Thread>, threads': seq<Thread>) {
    |threads| <= |threads'| && forall t :: 0 <= t < |threads| && Delayed(threads[t]) ==> Delayed(threads'[t])
  }

  /** A switch away from thread t, which was not delayed before, to one that was ready. */
  lemma SwitchedDelays(a: seq<Thread>, t: nat, th: Thread, b: seq<Thread>, ok: bool, current: nat)
    requires t < |a| && a[t].state.Running? && Switched(a[t := th], b, ok, current)
    requires ok ==> a[t := th][current].state.Ready?
    ensures StillDelayed(a, b)
  {
    forall u | 0 <= u < |a| && Delayed(a[u])
      ensures Delayed(b[u])
    {
      assert u != t && a[t := th][u] == a[u];
    }
  }

  /** A delayed thread is never ready or running, nor woken by any event. */
  lemma DelayedIsStuck(threads: seq<Thread>, events: seq<Event>, ready: seq<nat>, waiting: seq<nat>, t: nat)
    requires Shape(threads, events, ready, waiting) && t < |threads| && Delayed(threads[t])
    ensures t !in ready && t in waiting && forall e :: 0 <= e < |events| ==> t !in events[e].waiters
  {
    assert Filed(threads, ready, waiting, t) && Queued(threads, events, t);
  }

  /** The threads before, between and after the operations of a run, each of which keeps delayed threads
      delayed. */
  ghost predicate DelaysKept(run: seq<seq<Thread>>) {
    forall k {:trigger DelayKept(run, k)} :: 0 <= k < |run| - 1 ==> DelayKept(run, k)
  }

  ghost predicate DelayKept(run: seq<seq<Thread>>, k: nat)
    requires k < |run| - 1
  {
    StillDelayed(run[k], run[k + 1])
  }

  /** Over any run, a thread that ever waits for time waits for it ever after, and is never ready again. */
  lemma {:induction false} NeverWakes(run: seq<seq<Thread>>, i: nat, j: nat, t: nat)
    requires DelaysKept(run) && i <= j < |run| && t < |run[i]| && Delayed(run[i][t])
    ensures t < |run[j]| && Delayed(run[j][t]) && !run[j][t].state.Ready? && !run[j][t].state.Running?
    decreases j - i
  {
    if i < j {
      assert DelayKept(run, i);
      NeverWakes(run, i + 1, j, t);
    }
  }

  // ---------------------------------------------------------------- waking a thread

  function Woken(th: Thread, increment: nat): Thread {
    th.(state := Ready, dynamic := increment, waitType := NotWaiting, objects := 0)
  }

  /** The events once the wait blocks of thread t are unlinked. */
  function Unblocked(events: seq<Event>, t: nat): seq<Event> {
    seq(|events|, e requires 0 <= e < |events| => events[e].(waiters := Removed(events[e].waiters, t)))
  }

  lemma WakeKeeps(threads: seq<Thread>, events: seq<Event>, ready: seq<nat>, waiting: seq<nat>, t: nat, increment: nat)
    requires Shape(threads, events, ready, waiting) && t < |threads|
    requires threads[t].state.Waiting? && threads[t].waitType.ObjectsAny?
    ensures Shape(threads[t := Woken(threads[t], increment)], Unblocked(events, t), [t] + ready, Removed(waiting, t))
  {
    var threads', events' := threads[t := Woken(threads[t], increment)], Unblocked(events, t);
    assert Filed(threads, ready, waiting, t);
    RemovedDistinct(waiting, t);
    forall u {:trigger Filed(threads', [t] + ready, Removed(waiting, t), u)} | 0 <= u < |threads'|
      ensures Filed(threads', [t] + ready, Removed(waiting, t), u)
    {
      assert Filed(threads, ready, waiting, u);
    }
    forall u {:trigger Queued(threads', events', u)} | 0 <= u < |threads'|
      ensures Queued(threads', events', u)
    {
      assert Queued(threads, events, u);
      QueuedRemoved(threads, threads', events, t, u);
    }
    forall e {:trigger events'[e]} | 0 <= e < |events'|
      ensures InRange(threads', events'[e].waiters)
    {
      assert InRange(threads, events[e].waiters);
      RemovedDistinct(events[e].waiters, t);
    }
  }

  lemma QueuedRemoved(threads: seq<Thread>, threads': seq<Thread>, events: seq<Event>, t: nat, u: nat)
    requires u < |threads| == |threads'| && Queued(threads, events, u)
    requires u != t ==> threads'[u] == threads[u]
    requires u == t ==> !threads'[u].state.Waiting?
    ensures Queued(threads', Unblocked(events, t), u)
  {
    if u != t && threads[u].state.Waiting? && threads[u].waitType.ObjectsAny? {
      var e :| 0 <= e < |events| && u in events[e].waiters;
      assert u in Unblocked(events, t)[e].waiters;
    }
  }

  // ---------------------------------------------------------------- blocking and leaving

  /** The current thread leaves the ready list for the wait list of event e. */
  lemma BlockKeeps(threads: seq<Thread>, events: seq<Event>, ready: seq<nat>, waiting: seq<nat>, t: nat, th: Thread, e: nat)
    requires Shape(threads, events, ready, waiting) && t < |threads| && e < |events|
    requires threads[t].state.Running? && th.state.Waiting? && th.waitType.ObjectsAny? && th.objects == 1
    ensures Shape(threads[t := th], events[e := events[e].(waiters := events[e].waiters + [t])], Removed(ready, t), waiting + [t])
  {
    var threads', events' := threads[t := th], events[e := events[e].(waiters := events[e].waiters + [t])];
    assert Filed(threads, ready, waiting, t) && Queued(threads, events, t);
    RemovedDistinct(ready, t);
    forall u {:trigger Filed(threads', Removed(ready, t), waiting + [t], u)} | 0 <= u < |threads'|
      ensures Filed(threads', Removed(ready, t), waiting + [t], u)
    {
      assert Filed(threads, ready, waiting, u);
    }
    forall u {:trigger Queued(threads', events', u)} | 0 <= u < |threads'|
      ensures Queued(threads', events', u)
    {
      assert Queued(threads, events, u);
      if u == t {
        assert t in events'[e].waiters;
      } else if threads[u].state.Waiting? && threads[u].waitType.ObjectsAny? {
        var d :| 0 <= d < |events| && u in events[d].waiters;
        assert u in events'[d].waiters;
      }
    }
    forall d {:trigger events'[d]} | 0 <= d < |events'|
      ensures InRange(threads', events'[d].waiters)
    {
      assert InRange(threads, events[d].waiters);
    }
  }

  /** The current thread leaves the ready list, for the wait list or for good, without an object. */
  lemma LeaveKeeps(threads: seq<Thread>, events: seq<Event>, ready: seq<nat>, waiting: seq<nat>, t: nat, th: Thread)
    requires Shape(threads, events, ready, waiting) && t < |threads|
    requires threads[t].state.Running? && (th.state.Terminated? || Delayed(th))
    ensures Shape(threads[t := th], events, Removed(ready, t), if th.state.Waiting? then waiting + [t] else waiting)
  {
    var threads', waiting' := threads[t := th], if th.state.Waiting? then waiting + [t] else waiting;
    assert Filed(threads, ready, waiting, t) && Queued(threads, events, t);
    RemovedDistinct(ready, t);
    forall u {:trigger Filed(threads', Removed(ready, t), waiting', u)} | 0 <= u < |threads'|
      ensures Filed(threads', Removed(ready, t), waiting', u)
    {
      assert Filed(threads, ready, waiting, u);
    }
    forall u {:trigger Queued(threads', events, u)} | 0 <= u < |threads'|
      ensures Queued(threads', events, u)
    {
      assert Queued(threads, events, u);
    }
    forall e {:trigger events[e]} | 0 <= e < |events|
      ensures InRange(threads', events[e].waiters)
    {
    }
  }

  /** A field that does not matter for the lists, or Ready instead of Running and the other way. */
  lemma RestateKeeps(threads: seq<Thread>, threads': seq<Thread>, events: seq<Event>, ready: seq<nat>, waiting: seq<nat>)
    requires Shape(threads, events, ready, waiting) && |threads'| == |threads|
    requires forall t {:trigger threads'[t]} :: 0 <= t < |threads| ==> SameStanding(threads[t], threads'[t])
    ensures Shape(threads', events, ready, waiting)
  {
    forall u {:trigger Filed(threads', ready, waiting, u)} | 0 <= u < |threads'|
      ensures Filed(threads', ready, waiting, u)
    {
      assert Filed(threads, ready, waiting, u) && SameStanding(threads[u], threads'[u]);
    }
    forall u {:trigger Queued(threads', events, u)} | 0 <= u < |threads'|
      ensures Queued(threads', events, u)
    {
      assert Queued(threads, events, u) && SameStanding(threads[u], threads'[u]);
    }
    forall e {:trigger events[e]} | 0 <= e < |events|
      ensures InRange(threads', events[e].waiters)
    {
    }
  }

  ghost predicate SameStanding(th: Thread, th': Thread) {
    && (th'.state.Ready? || th'.state.Running? <==> th.state.Ready? || th.state.Running?)
    && (th'.state.Waiting? <==> th.state.Waiting?)
    && th'.waitType == th.waitType && th'.objects == th.objects
  }

  /** The order of the ready list does not matter for its shape. */
  lemma ReorderKeeps(threads: seq<Thread>, events: seq<Event>, ready: seq<nat>, waiting: seq<nat>, t: nat)
    requires Shape(threads, events, ready, waiting) && t in ready
    ensures Shape(threads, events, Removed(ready, t) + [t], waiting)
  {
    var ready' := Removed(ready, t) + [t];
    RemovedDistinct(ready, t);
    forall u {:trigger Filed(threads, ready', waiting, u)} | 0 <= u < |threads|
      ensures Filed(threads, ready', waiting, u)
    {
      assert Filed(threads, ready, waiting, u);
    }
  }

  lemma CreateKeeps(threads: seq<Thread>, events: seq<Event>, ready: seq<nat>, waiting: seq<nat>, th: Thread)
    requires Shape(threads, events, ready, waiting) && th.state.Ready?
    ensures Shape(threads + [th], events, [|threads|] + ready, waiting)
  {
    var threads', n := threads + [th], |threads|;
    assert forall i :: 0 <= i < |ready| ==> ready[i] in ready;
    forall u {:trigger Filed(threads', [n] + ready, waiting, u)} | 0 <= u < |threads'|
      ensures Filed(threads', [n] + ready, waiting, u)
    {
      if u < n {
        assert Filed(threads, ready, waiting, u);
      }
    }
    forall u {:trigger Queued(threads', events, u)} | 0 <= u < |threads'|
      ensures Queued(threads', events, u)
    {
      if u < n {
        assert Queued(threads, events, u);
      } else {
        forall e | 0 <= e < |events|
          ensures n !in events[e].waiters
        {
          assert InRange(threads, events[e].waiters);
        }
      }
    }
    forall e {:trigger events[e]} | 0 <= e < |events|
      ensures InRange(threads', events[e].waiters)
    {
      assert InRange(threads, events[e].waiters);
    }
  }

  /** Signalling or clearing an event changes none of its waiters. */
  lemma SignalKeeps(threads: seq<Thread>, events: seq<Event>, ready: seq<nat>, waiting: seq<nat>, e: nat, signaled: bool)
    requires Shape(threads, events, ready, waiting) && e < |events|
    ensures Shape(threads, events[e := events[e].(signaled := signaled)], ready, waiting)
  {
    var events' := events[e := events[e].(signaled := signaled)];
    forall u {:trigger Queued(threads, events', u)} | 0 <= u < |threads|
      ensures Queued(threads, events', u)
    {
      assert Queued(threads, events, u);
      if threads[u].state.Waiting? && threads[u].waitType.ObjectsAny? {
        var d :| 0 <= d < |events| && u in events[d].waiters;
        assert u in events'[d].waiters;
      }
    }
    forall d {:trigger events'[d]} | 0 <= d < |events'|
      ensures InRange(threads, events'[d].waiters)
    {
      assert InRange(threads, events[d].waiters);
    }
  }
}
