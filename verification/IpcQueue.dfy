/** The wait lists of rt-smart/src/ipc.c: where rt_ipc_list_suspend places a thread, and what removal leaves. */
module IpcQueue {
  import opened Common

  type Thread = nat

  // RT_IPC_FLAG_FIFO and RT_IPC_FLAG_PRIO
  datatype Order = Fifo | Prio

  // The values of a thread's `error` field that the blocking calls set or test.
  datatype Error = EOk | EIntr | ETimeout | EError

  // Smaller numbers are more urgent; a thread is placed before the first that is less urgent than it.
  function Placed(q: seq<Thread>, t: Thread, prio: Thread -> nat): (r: seq<Thread>)
    ensures forall u :: u in r <==> u == t || u in q
  {
    if q == [] || prio(t) < prio(q[0]) then
      [t] + q
    else
      var rest := Placed(q[1..], t, prio);
      assert forall u :: u in q <==> u == q[0] || u in q[1..];
      [q[0]] + rest
  }

  function Suspended(q: seq<Thread>, t: Thread, order: Order, prio: Thread -> nat): (r: seq<Thread>)
    ensures forall u :: u in r <==> u == t || u in q
  {
    if order == Fifo then q + [t] else Placed(q, t, prio)
  }

  ghost predicate SortedBy(q: seq<Thread>, prio: Thread -> nat) {
    forall i, j :: 0 <= i < j < |q| ==> prio(q[i]) <= prio(q[j])
  }

  // In a priority queue the newcomer goes behind everyone at least as urgent and before everyone less urgent.
  lemma PlacedStably(q: seq<Thread>, t: Thread, prio: Thread -> nat) returns (k: nat)
    requires SortedBy(q, prio)
    ensures k <= |q| && Placed(q, t, prio) == q[..k] + [t] + q[k..]
    ensures forall i :: 0 <= i < k ==> prio(q[i]) <= prio(t)
    ensures forall i :: k <= i < |q| ==> prio(t) < prio(q[i])
    ensures SortedBy(Placed(q, t, prio), prio)
  {
    k := PlacedSplits(q, t, prio);
    assert forall i :: k <= i < |q| ==> prio(q[k]) <= prio(q[i]);
  }

  lemma {:induction false} PlacedSplits(q: seq<Thread>, t: Thread, prio: Thread -> nat) returns (k: nat)
    ensures k <= |q| && Placed(q, t, prio) == q[..k] + [t] + q[k..]
    ensures forall i :: 0 <= i < k ==> prio(q[i]) <= prio(t)
    ensures k < |q| ==> prio(t) < prio(q[k])
  {
    if q == [] || prio(t) < prio(q[0]) {
      k := 0;
    } else {
      var m := PlacedSplits(q[1..], t, prio);
      k := m + 1;
      assert q[..k] == [q[0]] + q[1..][..m] && q[k..] == q[1..][m..];
    }
  }

  lemma {:induction false} SuspendedDistinct(q: seq<Thread>, t: Thread, order: Order, prio: Thread -> nat)
    requires Distinct(q) && t !in q
    ensures Distinct(Suspended(q, t, order, prio))
  {
    if order == Prio && q != [] && prio(t) >= prio(q[0]) {
      SuspendedDistinct(q[1..], t, order, prio);
      assert q[0] !in q[1..] && q[0] !in Placed(q[1..], t, prio);
    }
  }

  // rt_ipc_list_suspend, after the thread has been suspended.
  method Suspend(q: seq<Thread>, t: Thread, order: Order, prio: Thread -> nat) returns (r: seq<Thread>)
    ensures r == Suspended(q, t, order, prio)
  {
    match order
    case Fifo =>
      r := q + [t];
    case Prio =>
      var n := 0;
      while n != |q|
        invariant n <= |q|
        invariant forall i :: 0 <= i < n ==> prio(q[i]) <= prio(t)
      {
        if prio(t) < prio(q[n]) {
          break;
        }
        n := n + 1;
      }
      r := q[..n] + [t] + q[n..];
      ghost var k := PlacedSplits(q, t, prio);
      assert k == n;
  }

  /** The threads in one kind of blocking call on an object: those on its wait list, and those taken off the list
      that have not run since, with the error their control blocks then hold. */
  datatype Waiters = Waiters(blocked: seq<Thread>, ready: map<Thread, Error>)

  const NoWaiters := Waiters([], map[])

  // rt_ipc_list_resume: the first thread on the list becomes ready without an error.
  function Wake(w: Waiters): Waiters {
    if w.blocked == [] then w else Waiters(w.blocked[1..], w.ready[w.blocked[0] := EOk])
  }

  function Block(w: Waiters, t: Thread, order: Order, prio: Thread -> nat): Waiters {
    w.(blocked := Suspended(w.blocked, t, order, prio))
  }

  // The thread runs.
  function Resume(w: Waiters, t: Thread): Waiters {
    w.(ready := w.ready - {t})
  }

  // rt_thread_timeout, or a signal that resumes the thread: it leaves the wait list with an error.
  function Leave(w: Waiters, t: Thread, error: Error): Waiters {
    if t in w.blocked then Waiters(Without(w.blocked, t), w.ready[t := error]) else w
  }

  // rt_ipc_list_resume_all
  function WakeAll(w: Waiters): Waiters {
    Waiters([], map t | t in w.ready.Keys + (set u | u in w.blocked) :: if t in w.blocked then EError else w.ready[t])
  }

  // Resuming with an error ends the call.
  predicate Failed(w: Waiters, t: Thread) {
    t in w.ready && w.ready[t] != EOk
  }

  // The threads that have been woken without an error and have not run since.
  ghost function Woken(w: Waiters): set<Thread> {
    set t | t in w.ready && w.ready[t] == EOk
  }

  /** No lost wakeup: while some thread is blocked, the woken ones are enough for the units that are available. */
  ghost predicate Covered(w: Waiters, units: int) {
    && Distinct(w.blocked) && (forall t :: t in w.blocked ==> t !in w.ready)
    && (w.blocked != [] ==> |Woken(w)| >= units)
  }

  lemma WakeCovers(w: Waiters, units: int)
    requires Covered(w, units)
    ensures Covered(Wake(w), units + 1)
  {
    if w.blocked != [] {
      assert Woken(Wake(w)) == Woken(w) + {w.blocked[0]};
    }
  }

  lemma BlockCovers(w: Waiters, t: Thread, order: Order, prio: Thread -> nat)
    requires Covered(w, 0) && t !in w.blocked && t !in w.ready
    ensures Covered(Block(w, t, order, prio), 0)
  {
    SuspendedDistinct(w.blocked, t, order, prio);
  }

  // A thread that runs may use up one unit, or none if it failed or was not woken.
  lemma ResumeCovers(w: Waiters, t: Thread, units: int)
    requires Covered(w, units)
    ensures Covered(Resume(w, t), units - 1)
    ensures Failed(w, t) ==> Covered(Resume(w, t), units)
  {
    assert Woken(Resume(w, t)) == Woken(w) - {t};
  }

  lemma LeaveCovers(w: Waiters, t: Thread, error: Error, units: int)
    requires Covered(w, units) && error != EOk
    ensures Covered(Leave(w, t, error), units)
  {
    if t in w.blocked {
      WithoutDistinct(w.blocked, t);
      assert Woken(Leave(w, t, error)) == Woken(w);
    }
  }

  /** A wake-up takes the first thread off the list, and no other: the one that has waited longest, or in a list by
      priority one that none of the others precedes. */
  lemma WakesFirst(w: Waiters, prio: Thread -> nat)
    requires w.blocked != [] && Distinct(w.blocked)
    ensures var t, after := w.blocked[0], Wake(w);
            && t !in after.blocked && t in after.ready && !Failed(after, t) && (t in Woken(after))
            && (forall u :: u != t ==>
                 (u in after.blocked <==> u in w.blocked) && (u in Woken(after) <==> u in Woken(w)))
            && (SortedBy(w.blocked, prio) ==> forall u :: u in after.blocked ==> prio(t) <= prio(u))
  {
    assert forall i :: 0 <= i < |w.blocked[1..]| ==> w.blocked[1..][i] == w.blocked[i + 1];
    forall u | u != w.blocked[0] ensures u in w.blocked[1..] <==> u in w.blocked {}
  }

  /** In first-come order as many wake-ups as there were threads before it reach a thread that blocks, and not fewer. */
  lemma FirstComeFirstWoken(w: Waiters, t: Thread, prio: Thread -> nat, wakes: nat)
    requires Distinct(w.blocked) && t !in w.blocked && wakes <= |w.blocked| + 1
    ensures t in WokenTimes(Block(w, t, Fifo, prio), wakes).blocked <==> wakes <= |w.blocked|
  {
    var q := w.blocked + [t];
    WokenTimesIs(Waiters(q, w.ready), wakes);
    if wakes <= |w.blocked| {
      assert q[wakes..][|w.blocked| - wakes] == t;
    }
  }

  function WokenTimes(w: Waiters, wakes: nat): Waiters
    decreases wakes
  {
    if wakes == 0 then w else WokenTimes(Wake(w), wakes - 1)
  }

  lemma {:induction false} WokenTimesIs(w: Waiters, wakes: nat)
    requires wakes <= |w.blocked|
    ensures WokenTimes(w, wakes).blocked == w.blocked[wakes..]
    decreases wakes
  {
    if wakes > 0 {
      WokenTimesIs(Wake(w), wakes - 1);
    }
  }

  /** A thread that times out, or is resumed by a signal, is off the list with that error, and no other thread
      changes. */
  lemma LeaveTells(w: Waiters, t: Thread, error: Error)
    requires Distinct(w.blocked) && error != EOk
    ensures var after := Leave(w, t, error);
            && t !in after.blocked && (forall u :: u != t ==> (u in after.blocked <==> u in w.blocked))
            && (t in w.blocked ==> Failed(after, t) && after.ready[t] == error)
            && (forall u :: u != t ==> (u in after.ready <==> u in w.ready) && (Failed(after, u) <==> Failed(w, u)))
            && (forall k :: 0 <= k < |w.blocked| && w.blocked[k] == t ==> after.blocked == Dropped(w.blocked, k))
  {
    forall k | 0 <= k < |w.blocked| && w.blocked[k] == t ensures Leave(w, t, error).blocked == Dropped(w.blocked, k) {
      WithoutAt(w.blocked, t, k);
    }
  }

  /** A reset resumes all threads on the list with an error. */
  lemma ResetFails(w: Waiters, t: Thread)
    requires t in w.blocked
    ensures WakeAll(w).blocked == [] && Failed(WakeAll(w), t)
  {
  }

  lemma WakeAllNone(ready: map<Thread, Error>)
    ensures WakeAll(Waiters([], ready)) == Waiters([], ready)
  {
  }

  lemma WakeAllFirst(q: seq<Thread>, ready: map<Thread, Error>)
    requires q != []
    ensures WakeAll(Waiters(q, ready)) == WakeAll(Waiters(q[1..], ready[q[0] := EError]))
  {
    assert (set u | u in q) == {q[0]} + set u | u in q[1..];
  }

  method ResumeAll(w: Waiters) returns (all: Waiters)
    ensures all == WakeAll(w)
  {
    hide WakeAll;
    var q, ready := w.blocked, w.ready;
    while q != []
      invariant WakeAll(Waiters(q, ready)) == WakeAll(w)
      decreases |q|
    {
      WakeAllFirst(q, ready);
      q, ready := q[1..], ready[q[0] := EError];
    }
    all := Waiters(q, ready);
    WakeAllNone(ready);
  }
}
