/** The uniprocessor scheduler of rt-smart/src/scheduler.c and thread.c: priority queues, their bitmaps, time slices. */
module Scheduler {
  import opened Common
  import opened Bitmap
  import opened IpcQueue

  const MAX_PRIORITIES := 256

  datatype Stat = Created | Ready | Running | Suspended

  // What a thread's control block holds for the scheduler. The masks are kept for `prio`, and `reloaded` is the yield
  // flag: the time slice has been reloaded since the last scheduling.
  datatype Tcb = Tcb(stat: Stat, reloaded: bool, initPrio: nat, prio: nat, number: nat, numberMask: nat, highMask: nat,
                     remaining: nat, slice: nat)

  // `queues` is rt_thread_priority_table, with `max` priorities.
  datatype State = State(max: nat, queues: seq<seq<Thread>>, threads: map<Thread, Tcb>, current: Thread, lock: nat)

  function WithPrio(tcb: Tcb, p: nat, max: nat): Tcb {
    if max > 32 then tcb.(prio := p, number := p / 8, numberMask := Mask(p / 8), highMask := Mask(p % 8))
    else tcb.(prio := p, numberMask := Mask(p))
  }

  // The least number of a queue that is not empty, or the number of queues.
  function Top(queues: seq<seq<Thread>>): (p: nat)
    ensures p <= |queues| && (p < |queues| ==> queues[p] != [])
    ensures forall i :: 0 <= i < p ==> queues[i] == []
  {
    if queues == [] || queues[0] != [] then 0 else 1 + Top(queues[1..])
  }

  ghost predicate ThreadOk(tcb: Tcb, max: nat) {
    && tcb.prio < max && tcb.initPrio < max && WithPrio(tcb, tcb.prio, max) == tcb
    && 1 <= tcb.remaining <= tcb.slice
  }

  ghost predicate QueuesOk(queues: seq<seq<Thread>>, threads: map<Thread, Tcb>) {
    && (forall p :: 0 <= p < |queues| ==> Distinct(queues[p]))
    && (forall p, t :: 0 <= p < |queues| && t in queues[p] ==>
         t in threads && threads[t].stat == Ready && threads[t].prio == p)
    && (forall t :: t in threads && threads[t].stat == Ready ==>
         threads[t].prio < |queues| && t in queues[threads[t].prio])
  }

  ghost predicate ThreadsOk(threads: map<Thread, Tcb>, max: nat, current: Thread) {
    && (forall t :: t in threads ==> ThreadOk(threads[t], max) && (threads[t].stat == Running ==> t == current))
    && current in threads && (threads[current].stat == Running || threads[current].stat == Suspended)
  }

  // The queues hold exactly the ready threads, each at its priority, and at most the current thread runs.
  ghost predicate Inv(s: State) {
    && 0 < s.max <= MAX_PRIORITIES && |s.queues| == s.max && QueuesOk(s.queues, s.threads)
    && ThreadsOk(s.threads, s.max, s.current)
  }

  function Queue(s: State, p: nat): seq<Thread> {
    if p < |s.queues| then s.queues[p] else []
  }

  function SetQueue(s: State, p: nat, q: seq<Thread>): State {
    if p < |s.queues| then s.(queues := s.queues[p := q]) else s
  }

  // rt_schedule_insert_thread
  function InsertThread(s: State, t: Thread): State
    requires t in s.threads
  {
    var tcb := s.threads[t];
    if t == s.current then s.(threads := s.threads[t := tcb.(stat := Running)])
    else SetQueue(s.(threads := s.threads[t := tcb.(stat := Ready)]), tcb.prio, Queue(s, tcb.prio) + [t])
  }

  // rt_schedule_remove_thread
  function RemoveThread(s: State, t: Thread): State
    requires t in s.threads
  {
    SetQueue(s, s.threads[t].prio, Without(Queue(s, s.threads[t].prio), t))
  }

  function SetStat(s: State, t: Thread, stat: Stat): State
    requires t in s.threads
  {
    s.(threads := s.threads[t := s.threads[t].(stat := stat)])
  }

  // The current thread goes on: it is more urgent than all that are ready, or as urgent and has not been reloaded.
  predicate Stays(s: State)
    requires s.current in s.threads
  {
    var cur := s.threads[s.current];
    cur.stat == Running && (cur.prio < Top(s.queues) || (cur.prio == Top(s.queues) && !cur.reloaded))
  }

  // The switch from the current thread to the first ready one.
  function Switch(s: State): State
    requires s.current in s.threads && Top(s.queues) < |s.queues| && s.queues[Top(s.queues)][0] in s.threads
  {
    var from, to := s.current, s.queues[Top(s.queues)][0];
    var s1 := s.(current := to);
    var s2 := if s.threads[from].stat == Running then InsertThread(s1, from) else s1;
    SetStat(RemoveThread(s2, to), to, Running)
  }

  function Spend(s: State): State
    requires s.current in s.threads
  {
    s.(threads := s.threads[s.current := s.threads[s.current].(reloaded := false)])
  }

  // rt_schedule
  function Schedule(s: State): State
    requires Inv(s)
  {
    if s.lock != 0 || Top(s.queues) == |s.queues| then s
    else if Stays(s) then Spend(s)
    else Switch(if s.threads[s.current].stat == Running then Spend(s) else s)
  }

  lemma WithoutFirst(q: seq<Thread>)
    requires Distinct(q) && q != []
    ensures Without(q, q[0]) == q[1..]
  {
    WithoutAt(q, q[0], 0);
    assert q[..0] + q[1..] == q[1..];
  }

  // A thread joins the queue of its priority.
  lemma QueuesWith(queues: seq<seq<Thread>>, threads: map<Thread, Tcb>, t: Thread)
    requires QueuesOk(queues, threads) && t in threads && threads[t].stat != Ready && threads[t].prio < |queues|
    ensures var p := threads[t].prio;
            QueuesOk(queues[p := queues[p] + [t]], threads[t := threads[t].(stat := Ready)])
  {
    var p := threads[t].prio;
    assert t !in queues[p];
    assert Distinct(queues[p] + [t]);
    hide Distinct;
  }

  // A ready thread leaves its queue for another state.
  lemma QueuesWithout(queues: seq<seq<Thread>>, threads: map<Thread, Tcb>, t: Thread, stat: Stat)
    requires QueuesOk(queues, threads) && t in threads && threads[t].stat == Ready && stat != Ready
    ensures var p := threads[t].prio;
            p < |queues| && QueuesOk(queues[p := Without(queues[p], t)], threads[t := threads[t].(stat := stat)])
  {
    WithoutDistinct(queues[threads[t].prio], t);
    hide Distinct;
  }

  // A thread that is not ready changes what the queues do not depend on.
  lemma QueuesSame(queues: seq<seq<Thread>>, threads: map<Thread, Tcb>, t: Thread, tcb: Tcb)
    requires QueuesOk(queues, threads) && t in threads && threads[t].stat != Ready && tcb.stat != Ready
    ensures QueuesOk(queues, threads[t := tcb])
  {
    hide Distinct;
  }

  lemma ThreadsSame(threads: map<Thread, Tcb>, max: nat, current: Thread, t: Thread, tcb: Tcb)
    requires ThreadsOk(threads, max, current) && t in threads && ThreadOk(tcb, max)
    requires if t == current then tcb.stat == Running || tcb.stat == Suspended else tcb.stat != Running
    ensures ThreadsOk(threads[t := tcb], max, current)
  {
    hide ThreadOk;
  }

  lemma ThreadsHas(threads: map<Thread, Tcb>, max: nat, current: Thread, t: Thread)
    requires ThreadsOk(threads, max, current) && t in threads
    ensures ThreadOk(threads[t], max)
  {
    hide ThreadOk;
  }

  lemma InsertKeeps(s: State, t: Thread)
    requires Inv(s) && t in s.threads && s.threads[t].stat != Ready
    ensures Inv(InsertThread(s, t))
  {
    hide Mask, WithPrio;
    ThreadsHas(s.threads, s.max, s.current, t);
    var tcb := s.threads[t].(stat := if t == s.current then Running else Ready);
    StatOk(s.threads[t], s.max, tcb.stat);
    ThreadsSame(s.threads, s.max, s.current, t, tcb);
    if t == s.current {
      QueuesSame(s.queues, s.threads, t, tcb);
    } else {
      QueuesWith(s.queues, s.threads, t);
    }
    hide QueuesOk, ThreadsOk;
  }

  lemma SpendKeeps(s: State)
    requires Inv(s)
    ensures Inv(Spend(s))
  {
    QueuesSame(s.queues, s.threads, s.current, Spend(s).threads[s.current]);
    ThreadsSame(s.threads, s.max, s.current, s.current, Spend(s).threads[s.current]);
    hide QueuesOk, ThreadsOk;
  }

  lemma SwitchKeeps(s: State)
    requires Inv(s) && Top(s.queues) < |s.queues|
    ensures s.queues[Top(s.queues)][0] in s.threads && s.queues[Top(s.queues)][0] != s.current && Inv(Switch(s))
  {
    hide Mask, WithPrio, Top, Without, Distinct;
    var p, from := Top(s.queues), s.current;
    var to, cur := s.queues[p][0], s.threads[from];
    assert to in s.queues[p];
    var s1 := s.(current := to);
    var s2 := if cur.stat == Running then InsertThread(s1, from) else s1;
    if cur.stat == Running {
      QueuesWith(s.queues, s.threads, from);
    }
    QueuesWithout(s2.queues, s2.threads, to, Running);
    ThreadsSwitch(s.threads, s.max, from, to);
    hide QueuesOk, ThreadsOk;
  }

  lemma ThreadsSwitch(threads: map<Thread, Tcb>, max: nat, from: Thread, to: Thread)
    requires ThreadsOk(threads, max, from) && to in threads && to != from
    ensures var cur := threads[from];
            var switched := threads[from := if cur.stat == Running then cur.(stat := Ready) else cur];
            ThreadsOk(switched[to := threads[to].(stat := Running)], max, to)
    ensures threads[from := threads[from]] == threads
  {
    StatOk(threads[from], max, Ready);
    StatOk(threads[to], max, Running);
    hide ThreadOk;
  }

  lemma StatOk(tcb: Tcb, max: nat, stat: Stat)
    requires ThreadOk(tcb, max)
    ensures ThreadOk(tcb.(stat := stat), max)
  {
    hide Mask;
  }

  lemma InvParts(s: State)
    requires Inv(s)
    ensures |s.queues| == s.max && QueuesOk(s.queues, s.threads) && ThreadsOk(s.threads, s.max, s.current)
    ensures s.current in s.threads && (s.threads[s.current].stat == Running || s.threads[s.current].stat == Suspended)
  {
    hide QueuesOk, ThreadOk;
  }

  lemma QueueOf(queues: seq<seq<Thread>>, threads: map<Thread, Tcb>, p: nat, t: Thread)
    requires QueuesOk(queues, threads) && p < |queues| && t in queues[p]
    ensures Distinct(queues[p]) && t in threads && threads[t].stat == Ready && threads[t].prio == p
  {
    hide Distinct;
  }

  // What a switch leaves: the first thread of the top queue runs, and what ran before is the last of its own queue.
  lemma SwitchIs(s: State)
    requires Inv(s) && Top(s.queues) < |s.queues|
    ensures s.queues[Top(s.queues)][0] in s.threads && s.queues[Top(s.queues)][0] != s.current
    ensures var p, from, s' := Top(s.queues), s.current, Switch(s);
            var to, cur := s.queues[p][0], s.threads[from];
            && s' == s.(current := to, queues := s'.queues, threads := s'.threads) && s.threads[to].prio == p
            && s'.threads == (var left := s.threads[from := if cur.stat == Running then cur.(stat := Ready) else cur];
                              left[to := s.threads[to].(stat := Running)])
            && s'.queues == var with := if cur.stat == Running then s.queues[cur.prio := s.queues[cur.prio] + [from]]
               else s.queues;
                            with[p := with[p][1..]]
  {
    hide Inv, QueuesOk, Top, Without, Distinct, WithPrio, ThreadsOk;
    InvParts(s);
    CurrentQueue(s);
    var p, from := Top(s.queues), s.current;
    var to, cur := s.queues[p][0], s.threads[from];
    QueueOf(s.queues, s.threads, p, to);
    var with := if cur.stat == Running then s.queues[cur.prio := s.queues[cur.prio] + [from]] else s.queues;
    if cur.stat == Running {
      QueuesWith(s.queues, s.threads, from);
      QueueOf(with, s.threads[from := cur.(stat := Ready)], p, to);
    }
    assert with[p][0] == to;
    WithoutFirst(with[p]);
  }

  lemma ScheduleKeeps(s: State)
    requires Inv(s)
    ensures Inv(Schedule(s))
  {
    if s.lock == 0 && Top(s.queues) < |s.queues| {
      SpendKeeps(s);
      if !Stays(s) {
        SwitchKeeps(if s.threads[s.current].stat == Running then Spend(s) else s);
      }
    }
    hide Inv, Switch, Top;
  }

  ghost predicate RunsHighest(s: State) {
    && s.current in s.threads && s.threads[s.current].stat == Running
    && (forall t :: t in s.threads && s.threads[t].stat == Ready ==> s.threads[s.current].prio <= s.threads[t].prio)
    && (forall p :: 0 <= p < |s.queues| ==> s.current !in s.queues[p])
  }

  lemma SwitchRunsHighest(s: State)
    requires Inv(s) && Top(s.queues) < |s.queues| && Inv(Switch(s))
    requires s.threads[s.current].stat == Running ==> Top(s.queues) <= s.threads[s.current].prio
    ensures RunsHighest(Switch(s))
  {
    SwitchIs(s);
    var s' := Switch(s);
    NotQueued(s');
    forall t | t in s'.threads && s'.threads[t].stat == Ready
      ensures s'.threads[s'.current].prio <= s'.threads[t].prio {
      if t != s.current {
        assert s.queues[s.threads[t].prio] != [];
      }
    }
    hide Inv, Switch, Top;
  }

  /** Unlocked scheduling leaves a thread running that none of the ready ones precedes, unless there is none at all. */
  lemma ScheduleRunsHighest(s: State)
    requires Inv(s) && s.lock == 0
    ensures RunsHighest(Schedule(s)) <==> s.threads[s.current].stat == Running || Top(s.queues) < |s.queues|
  {
    ScheduleKeeps(s);
    if Top(s.queues) < |s.queues| {
      if Stays(s) {
        StaysHighest(Spend(s));
      } else {
        var s1 := if s.threads[s.current].stat == Running then Spend(s) else s;
        SpendKeeps(s);
        SwitchKeeps(s1);
        SwitchRunsHighest(s1);
      }
    } else {
      NoneReady(s);
      if s.threads[s.current].stat == Running {
        NotQueued(s);
      }
    }
    hide Inv, Switch;
  }

  lemma NotQueued(s: State)
    requires Inv(s) && s.threads[s.current].stat == Running
    ensures forall p :: 0 <= p < |s.queues| ==> s.current !in s.queues[p]
  {
  }

  lemma NoneReady(s: State)
    requires Inv(s) && Top(s.queues) == |s.queues|
    ensures forall t :: t in s.threads ==> s.threads[t].stat != Ready
  {
    forall t | t in s.threads ensures s.threads[t].stat != Ready {
      assert s.queues[s.threads[t].prio] == [];
    }
  }

  lemma StaysHighest(s: State)
    requires Inv(s) && s.threads[s.current].stat == Running && s.threads[s.current].prio <= Top(s.queues)
    ensures RunsHighest(s)
  {
    NotQueued(s);
    forall t | t in s.threads && s.threads[t].stat == Ready ensures s.threads[s.current].prio <= s.threads[t].prio {
      assert s.queues[s.threads[t].prio] != [];
    }
  }

  // A ready thread for which the current one gives way: a more urgent one, an equal once the slice was reloaded, and
  // any if the current thread no longer runs.
  predicate Preempts(s: State, t: Thread)
    requires s.current in s.threads && t in s.threads
  {
    var cur := s.threads[s.current];
    s.threads[t].stat == Ready
      && (cur.stat != Running || s.threads[t].prio < cur.prio || (s.threads[t].prio == cur.prio && cur.reloaded))
  }

  /** The processor changes hands exactly if the scheduler is not locked and some thread preempts the current one. It
      goes to a ready thread that no ready thread precedes, and that is the first in the queue of its priority. */
  lemma ScheduleChooses(s: State)
    requires Inv(s)
    ensures s.current in s.threads
    ensures var to := Schedule(s).current;
            && (to != s.current <==> s.lock == 0 && exists t :: t in s.threads && Preempts(s, t))
            && (to != s.current ==>
                  && to in s.threads && Preempts(s, to)
                  && (forall t :: t in s.threads && s.threads[t].stat == Ready ==>
                       s.threads[to].prio <= s.threads[t].prio)
                  && Queue(s, s.threads[to].prio) != [] && Queue(s, s.threads[to].prio)[0] == to)
  {
    CurrentQueue(s);
    ReadyBehindTop(s);
    var p := Top(s.queues);
    if s.lock == 0 && p < |s.queues| {
      var to := s.queues[p][0];
      assert to in s.queues[p];
      assert s.threads[to].prio == p && s.threads[to].stat == Ready;
      if !Stays(s) {
        SpendKeeps(s);
        SwitchIs(if s.threads[s.current].stat == Running then Spend(s) else s);
        assert Preempts(s, to);
      }
    }
    hide Inv, Switch, Top;
  }

  // No ready thread is on a queue before the top one.
  lemma ReadyBehindTop(s: State)
    requires Inv(s)
    ensures forall t :: t in s.threads && s.threads[t].stat == Ready ==> Top(s.queues) <= s.threads[t].prio < |s.queues|
  {
    forall t | t in s.threads && s.threads[t].stat == Ready ensures Top(s.queues) <= s.threads[t].prio < |s.queues| {
      assert t in s.queues[s.threads[t].prio];
    }
  }

  // rt_thread_suspend_with_flag, where `suspends` is false if a pending signal forbids it.
  function SuspendThread(s: State, t: Thread, suspends: bool): State
    requires t in s.threads
  {
    if s.threads[t].stat != Ready && s.threads[t].stat != Running then s
    else if !suspends then s
    else SetStat(RemoveThread(s, t), t, Suspended)
  }

  // rt_thread_resume
  function ResumeThread(s: State, t: Thread): State
    requires t in s.threads
  {
    if s.threads[t].stat != Suspended then s else InsertThread(s, t)
  }

  // rt_thread_control with RT_THREAD_CTRL_CHANGE_PRIORITY
  function ChangePriority(s: State, t: Thread, p: nat): State
    requires t in s.threads
  {
    var tcb := WithPrio(s.threads[t], p, s.max);
    if tcb.stat == Ready then
      var s1 := RemoveThread(s, t);
      InsertThread(s1.(threads := s1.threads[t := tcb]), t)
    else s.(threads := s.threads[t := tcb])
  }

  // The time slice is reloaded and the yield flag set.
  function Reload(s: State): State
    requires s.current in s.threads
  {
    var cur := s.threads[s.current];
    s.(threads := s.threads[s.current := cur.(remaining := cur.slice, reloaded := true)])
  }

  // rt_thread_yield
  function YieldThread(s: State): State
    requires Inv(s)
  {
    ReloadKeeps(s);
    Schedule(Reload(s))
  }

  // rt_tick_increase up to its timer check
  function Tick(s: State): State
    requires Inv(s)
  {
    var cur := s.threads[s.current];
    if cur.remaining == 1 then YieldThread(s)
    else s.(threads := s.threads[s.current := cur.(remaining := cur.remaining - 1)])
  }

  // rt_thread_startup
  function Startup(s: State, t: Thread): State
    requires Inv(s) && t in s.threads && s.threads[t].stat == Created
  {
    var tcb := WithPrio(s.threads[t], s.threads[t].initPrio, s.max).(stat := Suspended);
    StartedKeeps(s, t);
    var s1 := ResumeThread(s.(threads := s.threads[t := tcb]), t);
    Schedule(s1)
  }

  lemma ReloadKeeps(s: State)
    requires Inv(s)
    ensures Inv(Reload(s))
  {
    QueuesSame(s.queues, s.threads, s.current, Reload(s).threads[s.current]);
    ThreadsSame(s.threads, s.max, s.current, s.current, Reload(s).threads[s.current]);
    hide QueuesOk, ThreadsOk;
  }

  lemma WithPrioOk(tcb: Tcb, p: nat, max: nat)
    requires ThreadOk(tcb, max) && p < max
    ensures ThreadOk(WithPrio(tcb, p, max), max) && WithPrio(tcb, p, max).stat == tcb.stat
    ensures forall stat :: ThreadOk(WithPrio(tcb, p, max).(stat := stat), max)
  {
    hide Mask;
  }

  lemma StartedKeeps(s: State, t: Thread)
    requires Inv(s) && t in s.threads && s.threads[t].stat == Created
    ensures var s1 :=
      s.(threads := s.threads[t := WithPrio(s.threads[t], s.threads[t].initPrio, s.max).(stat := Suspended)]);
            Inv(s1) && Inv(ResumeThread(s1, t))
  {
    var tcb := WithPrio(s.threads[t], s.threads[t].initPrio, s.max).(stat := Suspended);
    WithPrioOk(s.threads[t], s.threads[t].initPrio, s.max);
    QueuesSame(s.queues, s.threads, t, tcb);
    ThreadsSame(s.threads, s.max, s.current, t, tcb);
    var s1 := s.(threads := s.threads[t := tcb]);
    hide QueuesOk, ThreadsOk, WithPrio;
    InsertKeeps(s1, t);
  }

  lemma SuspendKeeps(s: State, t: Thread, suspends: bool)
    requires Inv(s) && t in s.threads
    ensures Inv(SuspendThread(s, t, suspends))
  {
    hide Mask, WithPrio, Without;
    var stat, p := s.threads[t].stat, s.threads[t].prio;
    ThreadsHas(s.threads, s.max, s.current, t);
    StatOk(s.threads[t], s.max, Suspended);
    if stat == Ready {
      QueuesWithout(s.queues, s.threads, t, Suspended);
      ThreadsSame(s.threads, s.max, s.current, t, s.threads[t].(stat := Suspended));
    } else if stat == Running {
      QueuesSame(s.queues, s.threads, t, s.threads[t].(stat := Suspended));
      ThreadsSame(s.threads, s.max, s.current, t, s.threads[t].(stat := Suspended));
      NotQueued(s);
      WithoutAbsent(s.queues[p], t);
      assert s.queues[p := s.queues[p]] == s.queues;
    }
    hide QueuesOk, ThreadsOk;
  }

  lemma ChangePriorityKeeps(s: State, t: Thread, p: nat)
    requires Inv(s) && t in s.threads && p < s.max
    ensures Inv(ChangePriority(s, t, p))
  {
    hide WithPrio, Without;
    var tcb := WithPrio(s.threads[t], p, s.max);
    WithPrioOk(s.threads[t], p, s.max);
    if tcb.stat == Ready {
      QueuesWithout(s.queues, s.threads, t, Suspended);
      MovedKeeps(s, t, tcb);
    } else {
      QueuesSame(s.queues, s.threads, t, tcb);
      ThreadsSame(s.threads, s.max, s.current, t, tcb);
    }
    hide QueuesOk, ThreadsOk;
  }

  // A ready thread leaves its queue, and joins the one of its new priority.
  lemma MovedKeeps(s: State, t: Thread, tcb: Tcb)
    requires Inv(s) && t in s.threads && s.threads[t].stat == Ready == tcb.stat && ThreadOk(tcb, s.max)
    ensures var s1 := RemoveThread(s, t); Inv(InsertThread(s1.(threads := s1.threads[t := tcb]), t))
  {
    hide QueuesOk, ThreadsOk, Without, WithPrio;
    InvParts(s);
    ThreadsSame(s.threads, s.max, s.current, t, tcb);
    assert tcb.prio < |s.queues| && tcb.(stat := Ready) == tcb && t != s.current;
    QueuesMoved(s.queues, s.threads, t, tcb);
    var p := s.threads[t].prio;
    var s1 := RemoveThread(s, t);
    var q := s.queues[p := Without(s.queues[p], t)];
    assert s1 == s.(queues := q);
    var s' := InsertThread(s1.(threads := s1.threads[t := tcb]), t);
    assert s.threads[t := tcb][t := tcb] == s.threads[t := tcb];
    assert s' == s.(queues := q[tcb.prio := q[tcb.prio] + [t]], threads := s.threads[t := tcb]);
  }

  lemma QueuesMoved(queues: seq<seq<Thread>>, threads: map<Thread, Tcb>, t: Thread, tcb: Tcb)
    requires QueuesOk(queues, threads) && t in threads && threads[t].stat == Ready == tcb.stat && tcb.prio < |queues|
    ensures threads[t].prio < |queues|
    ensures var q := queues[threads[t].prio := Without(queues[threads[t].prio], t)];
            QueuesOk(q[tcb.prio := q[tcb.prio] + [t]], threads[t := tcb])
  {
    var off := tcb.(stat := Suspended);
    QueuesWithout(queues, threads, t, Suspended);
    hide QueuesOk;
    var q := queues[threads[t].prio := Without(queues[threads[t].prio], t)];
    QueuesSame(q, threads[t := threads[t].(stat := Suspended)], t, off);
    assert threads[t := threads[t].(stat := Suspended)][t := off] == threads[t := off];
    QueuesWith(q, threads[t := off], t);
    assert threads[t := off][t := tcb] == threads[t := tcb];
  }

  datatype Step =
    | ScheduleStep
    | StartupStep(t: Thread)
    | SuspendStep(t: Thread, suspends: bool)
    | ResumeStep(t: Thread)
    | PriorityStep(t: Thread, p: nat)
    | YieldStep
    | TickStep
    | LockStep
    | UnlockStep

  predicate Enabled(s: State, step: Step) {
    match step
    case StartupStep(t) => t in s.threads && s.threads[t].stat == Created
    case SuspendStep(t, _) => t in s.threads
    case ResumeStep(t) => t in s.threads
    case PriorityStep(t, p) => t in s.threads && p < s.max
    case _ => true
  }

  function Apply(s: State, step: Step): State
    requires Inv(s) && Enabled(s, step)
  {
    match step
    case ScheduleStep => Schedule(s)
    case StartupStep(t) => Startup(s, t)
    case SuspendStep(t, suspends) => SuspendThread(s, t, suspends)
    case ResumeStep(t) => ResumeThread(s, t)
    case PriorityStep(t, p) => ChangePriority(s, t, p)
    case YieldStep => YieldThread(s)
    case TickStep => Tick(s)
    case LockStep => s.(lock := s.lock + 1)
    case UnlockStep => if s.lock <= 1 then Schedule(s.(lock := 0)) else s.(lock := s.lock - 1)
  }

  lemma TickKeeps(s: State)
    requires Inv(s)
    ensures Inv(Tick(s)) && Inv(YieldThread(s))
  {
    hide WithPrio;
    ReloadKeeps(s);
    ScheduleKeeps(Reload(s));
    var cur := s.threads[s.current];
    ThreadsHas(s.threads, s.max, s.current, s.current);
    if cur.remaining > 1 {
      var tcb := cur.(remaining := cur.remaining - 1);
      CountedOk(cur, s.max);
      QueuesSame(s.queues, s.threads, s.current, tcb);
      ThreadsSame(s.threads, s.max, s.current, s.current, tcb);
    }
    hide QueuesOk, ThreadsOk, Schedule;
  }

  lemma TickIs(s: State)
    requires Inv(s)
    ensures s.current in s.threads && s.threads[s.current].remaining >= 1
    ensures var cur := s.threads[s.current];
            if cur.remaining == 1 then Tick(s) == YieldThread(s)
            else Tick(s) == s.(threads := s.threads[s.current := cur.(remaining := cur.remaining - 1)])
  {
    ThreadsHas(s.threads, s.max, s.current, s.current);
  }

  lemma CountedOk(tcb: Tcb, max: nat)
    requires ThreadOk(tcb, max) && tcb.remaining > 1
    ensures ThreadOk(tcb.(remaining := tcb.remaining - 1), max)
  {
    hide Mask;
  }

  lemma StepKeeps(s: State, step: Step)
    requires Inv(s) && Enabled(s, step)
    ensures Inv(Apply(s, step))
  {
    match step {
      case ScheduleStep => ScheduleKeeps(s);
      case StartupStep(t) =>
        StartedKeeps(s, t);
        var s1 := s.(threads :=
          s.threads[t := WithPrio(s.threads[t], s.threads[t].initPrio, s.max).(stat := Suspended)]);
        ScheduleKeeps(ResumeThread(s1, t));
      case SuspendStep(t, suspends) => SuspendKeeps(s, t, suspends);
      case ResumeStep(t) =>
        if s.threads[t].stat == Suspended {
          InsertKeeps(s, t);
        }
      case PriorityStep(t, p) => ChangePriorityKeeps(s, t, p);
      case YieldStep => TickKeeps(s);
      case TickStep => TickKeeps(s);
      case LockStep => LockKeeps(s, s.lock + 1);
      case UnlockStep =>
        LockKeeps(s, if s.lock <= 1 then 0 else s.lock - 1);
        ScheduleKeeps(s.(lock := 0));
    }
    hide Inv, Schedule, SuspendThread, ChangePriority, Tick, YieldThread, InsertThread;
  }

  lemma LockKeeps(s: State, lock: nat)
    requires Inv(s)
    ensures Inv(s.(lock := lock)) && Inv(s.(lock := 0))
  {
    hide QueuesOk, ThreadsOk;
  }

  ghost predicate Run(s: State, steps: seq<Step>)
    requires Inv(s)
    decreases |steps|
  {
    steps == [] || (Enabled(s, steps[0]) && (StepKeeps(s, steps[0]); Run(Apply(s, steps[0]), steps[1..])))
  }

  ghost function After(s: State, steps: seq<Step>): State
    requires Inv(s) && Run(s, steps)
    decreases |steps|
  {
    if steps == [] then s else (StepKeeps(s, steps[0]); After(Apply(s, steps[0]), steps[1..]))
  }

  /** In every run the queues hold exactly the ready threads, at the priorities they have then. */
  lemma {:induction false} RunKeeps(s: State, steps: seq<Step>)
    requires Inv(s) && Run(s, steps)
    ensures Inv(After(s, steps))
    decreases |steps|
  {
    hide Inv, Apply, Enabled;
    if steps != [] {
      StepKeeps(s, steps[0]);
      RunKeeps(Apply(s, steps[0]), steps[1..]);
    }
  }

  // Nothing changes but the thread's own control block and its places in the queues.
  ghost predicate OthersSame(s: State, s': State, t: Thread) {
    && s'.max == s.max && s'.current == s.current && s'.lock == s.lock && s'.threads.Keys == s.threads.Keys
    && (forall u :: u in s.threads && u != t ==> s'.threads[u] == s.threads[u])
    && |s'.queues| == |s.queues| && forall p :: 0 <= p < |s.queues| ==>
       Without(s'.queues[p], t) == Without(s.queues[p], t)
  }

  // The thread is in no queue, or the last in one and in no other.
  ghost predicate Unqueued(s: State, t: Thread) {
    forall p :: 0 <= p < |s.queues| ==> t !in s.queues[p]
  }

  ghost predicate LastOf(s: State, t: Thread, p: nat) {
    && p < |s.queues| && s.queues[p] != [] && s.queues[p][|s.queues[p]| - 1] == t
    && forall r :: 0 <= r < |s.queues| && r != p ==> t !in s.queues[r]
  }

  // Queues and threads that change as those of one ready thread leaving or joining.
  lemma QueueChanged(s: State, s': State, t: Thread, tcb: Tcb, p: nat, q: seq<Thread>)
    requires t in s.threads && p < |s.queues| && Without(q, t) == Without(s.queues[p], t)
    requires s' == s.(queues := s.queues[p := q], threads := s.threads[t := tcb])
    ensures OthersSame(s, s', t) && s'.threads[t] == tcb
  {
    assert s'.threads.Keys == s.threads.Keys;
  }

  lemma {:induction false} WithoutTwice(q: seq<Thread>, t: Thread)
    ensures Without(Without(q, t), t) == Without(q, t)
  {
    WithoutAbsent(Without(q, t), t);
  }

  lemma {:induction false} WithoutLast(q: seq<Thread>, t: Thread)
    ensures Without(q + [t], t) == Without(q, t)
  {
    if q == [] {
      assert [t][1..] == [];
    } else {
      assert (q + [t])[1..] == q[1..] + [t];
      WithoutLast(q[1..], t);
    }
  }

  // Where a thread is queued: at its priority if it is ready, and nowhere otherwise.
  lemma QueuedExactly(s: State, t: Thread)
    requires Inv(s) && t in s.threads
    ensures s.threads[t].prio < |s.queues|
    ensures forall p :: 0 <= p < |s.queues| ==>
      (t in s.queues[p] <==> s.threads[t].stat == Ready && p == s.threads[t].prio)
  {
    InvParts(s);
    ThreadsHas(s.threads, s.max, s.current, t);
    hide ThreadsOk, Distinct;
  }

  /** A ready or running thread that no signal keeps from it is suspended and in no queue, and nothing else changes; in
      all other cases nothing changes. */
  lemma SuspendTells(s: State, t: Thread, suspends: bool)
    requires Inv(s) && t in s.threads
    ensures var s', was := SuspendThread(s, t, suspends), s.threads[t];
            if suspends && (was.stat == Ready || was.stat == Running) then
              OthersSame(s, s', t) && s'.threads[t] == was.(stat := Suspended) && Unqueued(s', t)
            else s' == s
  {
    hide Inv, Without;
    QueuedExactly(s, t);
    var p := s.threads[t].prio;
    WithoutTwice(s.queues[p], t);
    if suspends && (s.threads[t].stat == Ready || s.threads[t].stat == Running) {
      QueueChanged(s, SuspendThread(s, t, suspends), t, s.threads[t].(stat := Suspended), p, Without(s.queues[p], t));
    }
  }

  /** A suspended thread becomes ready, as the last in the queue of its priority, or runs on if it is the current one,
      and nothing else changes; with any other thread nothing changes. */
  lemma ResumeTells(s: State, t: Thread)
    requires Inv(s) && t in s.threads
    ensures var s', was := ResumeThread(s, t), s.threads[t];
            if was.stat == Suspended then
              && OthersSame(s, s', t) && s'.threads[t] == was.(stat := if t == s.current then Running else Ready)
              && if t == s.current then Unqueued(s', t) else LastOf(s', t, was.prio)
            else s' == s
  {
    hide Inv, Without;
    QueuedExactly(s, t);
    var p := s.threads[t].prio;
    WithoutLast(s.queues[p], t);
    if s.threads[t].stat == Suspended {
      if t == s.current {
        assert s.queues[p := s.queues[p]] == s.queues;
        QueueChanged(s, ResumeThread(s, t), t, s.threads[t].(stat := Running), p, s.queues[p]);
      } else {
        QueueChanged(s, ResumeThread(s, t), t, s.threads[t].(stat := Ready), p, s.queues[p] + [t]);
      }
    }
  }

  /** A change of priority leaves all of the thread but its priority and masks, and puts it last in its new queue if it
      is ready; nothing else changes. */
  lemma PriorityTells(s: State, t: Thread, p: nat)
    requires Inv(s) && t in s.threads && p < s.max
    ensures var s', was := ChangePriority(s, t, p), s.threads[t];
            && OthersSame(s, s', t) && s'.threads[t].prio == p && AlikeButPrio(s'.threads[t], was)
            && if was.stat == Ready then LastOf(s', t, p) else Unqueued(s', t)
  {
    hide Inv, Without;
    QueuedExactly(s, t);
    InvParts(s);
    var tcb, r := WithPrio(s.threads[t], p, s.max), s.threads[t].prio;
    var s' := ChangePriority(s, t, p);
    if tcb.stat == Ready {
      NotCurrent(s, t);
      PriorityMoves(s, t, tcb);
    } else {
      assert s.queues[r := s.queues[r]] == s.queues;
      QueueChanged(s, s', t, tcb, r, s.queues[r]);
    }
  }

  // The control blocks differ at most in the priority and what is computed from it.
  predicate AlikeButPrio(a: Tcb, b: Tcb) {
    && a.stat == b.stat && a.reloaded == b.reloaded && a.initPrio == b.initPrio
    && a.remaining == b.remaining && a.slice == b.slice
  }

  lemma NotCurrent(s: State, t: Thread)
    requires Inv(s) && t in s.threads && s.threads[t].stat == Ready
    ensures t != s.current
  {
    InvParts(s);
  }

  lemma PriorityMoves(s: State, t: Thread, tcb: Tcb)
    requires Inv(s) && t in s.threads && s.threads[t].stat == Ready == tcb.stat && tcb.prio < |s.queues|
    requires t != s.current
    ensures var s1 := RemoveThread(s, t);
            var s' := InsertThread(s1.(threads := s1.threads[t := tcb]), t);
            OthersSame(s, s', t) && s'.threads[t] == tcb && LastOf(s', t, tcb.prio)
  {
    hide Inv, Without;
    QueuedExactly(s, t);
    var r, p := s.threads[t].prio, tcb.prio;
    var out := Without(s.queues[r], t);
    var s2 := s.(queues := s.queues[r := out]);
    WithoutTwice(s.queues[r], t);
    WithoutLast(s2.queues[p], t);
    var s1 := RemoveThread(s, t);
    var s' := InsertThread(s1.(threads := s1.threads[t := tcb]), t);
    assert tcb.(stat := Ready) == tcb && s.threads[t := tcb][t := tcb] == s.threads[t := tcb];
    assert s' == s.(queues := s2.queues[p := s2.queues[p] + [t]], threads := s.threads[t := tcb]);
    assert s'.threads.Keys == s.threads.Keys;
  }

  /** Starting a thread makes it ready at its initial priority, as the last in that queue, and then schedules. */
  lemma StartupTells(s: State, t: Thread) returns (s1: State)
    requires Inv(s) && t in s.threads && s.threads[t].stat == Created
    ensures Inv(s1) && Startup(s, t) == Schedule(s1) && OthersSame(s, s1, t)
    ensures var was := s.threads[t];
            && s1.threads[t].prio == was.initPrio && AlikeButPrio(s1.threads[t], was.(stat := Ready))
            && LastOf(s1, t, was.initPrio)
  {
    hide Inv, Without, Schedule;
    var tcb := WithPrio(s.threads[t], s.threads[t].initPrio, s.max).(stat := Suspended);
    StartedKeeps(s, t);
    QueuedExactly(s, t);
    InvParts(s);
    ResumeTells(s.(threads := s.threads[t := tcb]), t);
    s1 := ResumeThread(s.(threads := s.threads[t := tcb]), t);
    assert s1.threads.Keys == s.threads.Keys;
  }

  /** A yield gives the thread a whole slice and sets its yield flag, changes nothing else of it, and then schedules. */
  lemma YieldTells(s: State) returns (s1: State)
    requires Inv(s)
    ensures Inv(s1) && YieldThread(s) == Schedule(s1) && OthersSame(s, s1, s.current) && s1.queues == s.queues
    ensures s.current in s.threads && s1.threads[s.current].remaining == s.threads[s.current].slice
    ensures s1.threads[s.current].reloaded
    ensures var was := s.threads[s.current];
            s1.threads[s.current].(remaining := was.remaining, reloaded := was.reloaded) == was
  {
    hide Inv, Schedule, Without;
    InvShape(s);
    ReloadKeeps(s);
    s1 := Reload(s);
    assert s1.threads.Keys == s.threads.Keys;
  }

  /** Scheduling changes no thread but the one that gives way and the one that runs then, and of them the states, and
      the yield flag of the first. It runs the one off its queue, and puts the other last in its own if it can go on. */
  lemma ScheduleTells(s: State)
    requires Inv(s)
    ensures s.current in s.threads && s.threads[s.current].prio < |s.queues|
    ensures var s', from, to := Schedule(s), s.current, Schedule(s).current;
            var was, spends := s.threads[from], s.lock == 0 && s.threads[from].stat == Running && SomeReady(s);
            && s'.max == s.max && s'.lock == s.lock && s'.threads.Keys == s.threads.Keys && to in s.threads
            && (forall u :: u in s.threads && u != from && u != to ==> s'.threads[u] == s.threads[u])
            && (to == from ==> s'.queues == s.queues && s'.threads[from] == was.(reloaded := was.reloaded && !spends))
            && (to != from ==>
                 && s'.threads[to] == s.threads[to].(stat := Running)
                 && s'.threads[from] == was.(reloaded := was.reloaded && !spends,
                                             stat := if was.stat == Running then Ready else was.stat)
                 && |s'.queues| == |s.queues| && forall p :: 0 <= p < |s.queues| ==>
                      s'.queues[p] ==
                      Without(s.queues[p], to) + if was.stat == Running && p == was.prio then [from] else [])
  {
    hide Inv, Top, Without, Switch, Stays;
    CurrentQueue(s);
    TopIsReady(s);
    if s.lock == 0 && Top(s.queues) < |s.queues| && !Stays(s) {
      var s1 := if s.threads[s.current].stat == Running then Spend(s) else s;
      SpendKeeps(s);
      SwitchTells(s1);
      assert s1.queues == s.queues;
    } else {
      StayTells(s);
    }
  }

  lemma StayTells(s: State)
    requires Inv(s) && (s.lock != 0 || Top(s.queues) == |s.queues| || Stays(s))
    ensures s.current in s.threads
    ensures var was, spends := s.threads[s.current], s.lock == 0 && Top(s.queues) < |s.queues|;
            Schedule(s) == s.(threads := s.threads[s.current := was.(reloaded := was.reloaded && !spends)])
            && Schedule(s).threads.Keys == s.threads.Keys && (spends ==> was.stat == Running)
  {
    hide Inv, Top, Without, Switch;
    CurrentQueue(s);
    assert s.threads[s.current := s.threads[s.current]] == s.threads;
    assert Spend(s).threads.Keys == s.threads.Keys;
  }

  lemma SwitchTells(s: State)
    requires Inv(s) && Top(s.queues) < |s.queues|
    ensures s.current in s.threads && s.queues[Top(s.queues)][0] in s.threads
    ensures var s', from := Switch(s), s.current;
            var to, was := s'.current, s.threads[from];
            && s'.max == s.max && s'.lock == s.lock && s'.threads.Keys == s.threads.Keys && to in s.threads
               && to != from
            && (forall u :: u in s.threads && u != from && u != to ==> s'.threads[u] == s.threads[u])
            && s'.threads[to] == s.threads[to].(stat := Running)
            && s'.threads[from] == was.(stat := if was.stat == Running then Ready else was.stat)
            && |s'.queues| == |s.queues| && forall p :: 0 <= p < |s.queues| ==>
                 s'.queues[p] == Without(s.queues[p], to) + if was.stat == Running && p == was.prio then [from] else []
  {
    hide Inv, Top, Without, Switch;
    SwitchIs(s);
    SwitchQueues(s);
    assert Switch(s).threads.Keys == s.threads.Keys;
  }

  ghost predicate SomeReady(s: State) {
    exists t :: t in s.threads && s.threads[t].stat == Ready
  }

  lemma TopIsReady(s: State)
    requires Inv(s)
    ensures SomeReady(s) <==> Top(s.queues) < |s.queues|
  {
    hide Inv, QueuesOk, ThreadsOk, Top;
    InvParts(s);
    var p := Top(s.queues);
    if p < |s.queues| {
      QueueOf(s.queues, s.threads, p, s.queues[p][0]);
    }
    if t :| t in s.threads && s.threads[t].stat == Ready {
      QueuedExactly(s, t);
      assert t in s.queues[s.threads[t].prio];
    }
  }

  // The queues after a switch.
  lemma SwitchQueues(s: State)
    requires Inv(s) && Top(s.queues) < |s.queues|
    ensures s.current in s.threads && s.queues[Top(s.queues)][0] in s.threads
    ensures var to, cur := s.queues[Top(s.queues)][0], s.threads[s.current];
            && |Switch(s).queues| == |s.queues|
            && forall p :: 0 <= p < |s.queues| ==>
                 Switch(s).queues[p] ==
                 Without(s.queues[p], to) + if cur.stat == Running && p == cur.prio then [s.current] else []
  {
    hide Inv, Top, Without, Switch, Distinct, QueuesOk, ThreadsOk;
    CurrentQueue(s);
    InvParts(s);
    SwitchIs(s);
    var r := Top(s.queues);
    var to := s.queues[r][0];
    QueueOf(s.queues, s.threads, r, to);
    WithoutFirst(s.queues[r]);
    QueuedExactly(s, to);
    forall p | 0 <= p < |s.queues| && p != r ensures Without(s.queues[p], to) == s.queues[p] {
      WithoutAbsent(s.queues[p], to);
    }
  }

  // The scheduler is locked before and after each of the steps.
  ghost predicate Locked(s: State, steps: seq<Step>)
    requires Inv(s) && Run(s, steps)
    decreases |steps|
  {
    s.lock > 0 && (steps == [] || (StepKeeps(s, steps[0]); Locked(Apply(s, steps[0]), steps[1..])))
  }

  /** While the scheduler is locked the processor does not change hands, whatever threads become ready. */
  lemma {:induction false} LockedStays(s: State, steps: seq<Step>)
    requires Inv(s) && Run(s, steps) && Locked(s, steps)
    ensures After(s, steps).current == s.current
    decreases |steps|
  {
    hide Inv, Apply;
    if steps != [] {
      StepKeeps(s, steps[0]);
      LockedStep(s, steps[0]);
      LockedStays(Apply(s, steps[0]), steps[1..]);
    }
  }

  lemma LockedStep(s: State, step: Step)
    requires Inv(s) && Enabled(s, step) && s.lock > 0
    ensures Apply(s, step).lock > 0 ==> Apply(s, step).current == s.current
  {
    hide Inv, Without, Top, Switch, WithPrio;
    match step
    case ScheduleStep =>
    case StartupStep(t) => var s1 := StartupTells(s, t);
    case SuspendStep(t, suspends) => SuspendTells(s, t, suspends);
    case ResumeStep(t) => ResumeTells(s, t);
    case PriorityStep(t, p) => PriorityTells(s, t, p);
    case YieldStep => var s1 := YieldTells(s);
    case TickStep =>
      TickIs(s);
      var s1 := YieldTells(s);
    case LockStep =>
    case UnlockStep =>
      LockKeeps(s, 0);
      ScheduleTells(s.(lock := 0));
  }

  /** Each lock takes one unlock, and the last one schedules; one too many is as the last. */
  lemma LockTells(s: State)
    requires Inv(s)
    ensures Apply(s, LockStep) == s.(lock := s.lock + 1)
    ensures Inv(s.(lock := s.lock + 1))
    ensures Apply(s.(lock := s.lock + 1), UnlockStep) == if s.lock > 0 then s else Schedule(s)
    ensures s.lock == 0 ==> Apply(s, UnlockStep) == Schedule(s)
  {
    LockKeeps(s, s.lock + 1);
    hide Inv, Schedule;
    if s.lock == 0 {
      assert s.(lock := 0) == s;
    }
  }

  // The current thread and those of its priority, in the order in which they will run.
  function Peers(s: State): (ring: seq<Thread>)
    ensures ring != []
  {
    [s.current] + if s.current in s.threads then Queue(s, s.threads[s.current].prio) else []
  }

  // The current thread's class is the top one, and the scheduler is not locked.
  ghost predicate TopClass(s: State) {
    Inv(s) && TopRuns(s)
  }

  predicate TopRuns(s: State) {
    && s.current in s.threads && s.lock == 0 && s.threads[s.current].stat == Running
    && forall i :: 0 <= i < s.threads[s.current].prio && i < |s.queues| ==> s.queues[i] == []
  }

  lemma CurrentQueue(s: State)
    requires Inv(s)
    ensures s.current in s.threads && s.threads[s.current].prio < |s.queues|
  {
  }

  function Rotated(q: seq<Thread>): seq<Thread>
    requires q != []
  {
    q[1..] + [q[0]]
  }

  lemma YieldAlone(s: State)
    requires TopClass(s) && s.queues[s.threads[s.current].prio] == []
    ensures var s' := YieldThread(s);
            && s'.queues == s.queues && s'.current == s.current && s'.lock == 0 && Inv(s')
            && s'.threads[s.current].prio == s.threads[s.current].prio && s'.threads[s.current].stat == Running
  {
    hide Inv, Top, Switch;
    CurrentQueue(s);
    TickKeeps(s);
    ReloadKeeps(s);
    if Top(s.queues) < |s.queues| {
      assert Top(s.queues) > s.threads[s.current].prio;
      assert Stays(Reload(s));
    }
  }

  lemma YieldToPeer(s: State)
    requires TopClass(s) && s.queues[s.threads[s.current].prio] != []
    ensures var s', p := YieldThread(s), s.threads[s.current].prio;
            && s'.queues == s.queues[p := s.queues[p][1..] + [s.current]] && s'.current == s.queues[p][0]
            && s'.lock == 0 && s'.threads[s'.current].prio == p && s'.threads[s'.current].stat == Running
  {
    hide Inv, Top, Switch;
    CurrentQueue(s);
    var p, s1, s2 := s.threads[s.current].prio, Reload(s), Spend(Reload(s));
    assert Top(s.queues) == p;
    ReloadKeeps(s);
    SpendKeeps(s1);
    SwitchIs(s2);
    assert !Stays(s1);
    assert (s.queues[p] + [s.current])[1..] == s.queues[p][1..] + [s.current];
  }

  lemma YieldRotates(s: State)
    requires TopClass(s)
    ensures TopClass(YieldThread(s)) && Peers(YieldThread(s)) == Rotated(Peers(s))
  {
    hide Inv, YieldThread;
    TickKeeps(s);
    CurrentQueue(s);
    var q, s' := s.queues[s.threads[s.current].prio], YieldThread(s);
    CurrentQueue(s');
    if q == [] {
      YieldAlone(s);
      RotatedAlone(s.current);
    } else {
      YieldToPeer(s);
      RotatedPeers(s.current, q);
    }
  }

  lemma RotatedAlone(t: Thread)
    ensures Rotated([t] + []) == [t] + []
  {
  }

  lemma RotatedPeers(t: Thread, q: seq<Thread>)
    requires q != []
    ensures Rotated([t] + q) == [q[0]] + (q[1..] + [t])
  {
    assert ([t] + q)[1..] == q && q == [q[0]] + q[1..];
  }

  lemma TickCounts(s: State)
    requires TopClass(s) && s.threads[s.current].remaining > 1
    ensures TopClass(Tick(s)) && Peers(Tick(s)) == Peers(s)
    ensures Tick(s).current == s.current && Tick(s).threads[s.current].remaining == s.threads[s.current].remaining - 1
  {
    TickKeeps(s);
    CurrentQueue(s);
    hide Inv;
    assert Tick(s).queues == s.queues && Tick(s).threads[s.current].prio == s.threads[s.current].prio;
  }

  datatype Turn = Yielded | Ticked

  ghost function Turned(s: State, turn: Turn): State
    requires TopClass(s)
  {
    if turn == Yielded then YieldThread(s) else Tick(s)
  }

  // The turn ends the current thread's time on the processor.
  ghost predicate Ends(s: State, turn: Turn)
    requires TopClass(s)
  {
    turn == Yielded || s.threads[s.current].remaining == 1
  }

  lemma TurnRotates(s: State, turn: Turn)
    requires TopClass(s)
    ensures TopClass(Turned(s, turn)) && Peers(Turned(s, turn)) == if Ends(s, turn) then Rotated(Peers(s)) else Peers(s)
  {
    ThreadsHas(s.threads, s.max, s.current, s.current);
    assert s.threads[s.current].remaining >= 1;
    hide Inv, Peers, Rotated;
    if Ends(s, turn) {
      YieldRotates(s);
    } else {
      TickCounts(s);
    }
    hide YieldThread;
  }

  ghost function AfterTurns(s: State, turns: seq<Turn>): State
    requires TopClass(s)
    decreases |turns|
  {
    if turns == [] then s else (TurnRotates(s, turns[0]); AfterTurns(Turned(s, turns[0]), turns[1..]))
  }

  ghost function Switches(s: State, turns: seq<Turn>): nat
    requires TopClass(s)
    decreases |turns|
  {
    if turns == [] then 0
    else
      TurnRotates(s, turns[0]);
      (if Ends(s, turns[0]) then 1 else 0) + Switches(Turned(s, turns[0]), turns[1..])
  }

  // The thread n places on in a ring.
  function Next(ring: seq<Thread>, n: nat): Thread
    requires ring != []
  {
    if n < |ring| then ring[n] else Next(ring, n - |ring|)
  }

  lemma {:induction false} RotatedNext(ring: seq<Thread>, n: nat)
    requires ring != []
    ensures Next(Rotated(ring), n) == Next(ring, n + 1)
  {
    if n >= |ring| {
      RotatedNext(ring, n - |ring|);
    }
  }

  /** Round robin: while the threads of the top class only yield or use up their slices, they run in a fixed cyclic
      order, one step further with every switch. So each of k threads runs again within k switches. */
  lemma {:induction false} RoundRobin(s: State, turns: seq<Turn>)
    requires TopClass(s)
    ensures TopClass(AfterTurns(s, turns)) && AfterTurns(s, turns).current == Next(Peers(s), Switches(s, turns))
    ensures |Peers(AfterTurns(s, turns))| == |Peers(s)|
    decreases |turns|
  {
    hide TopClass, Turned, Ends, Peers, Rotated, Next;
    if turns != [] {
      TurnRotates(s, turns[0]);
      RoundRobin(Turned(s, turns[0]), turns[1..]);
      RotatedLength(Peers(s));
      if Ends(s, turns[0]) {
        RotatedNext(Peers(s), Switches(Turned(s, turns[0]), turns[1..]));
      }
    } else {
      PeersFirst(s);
    }
  }

  lemma PeersFirst(s: State)
    ensures Next(Peers(s), 0) == s.current
  {
  }

  lemma RotatedLength(ring: seq<Thread>)
    requires ring != []
    ensures |Rotated(ring)| == |ring|
  {
  }

  /** A thread that does not yield is switched out exactly when its remaining ticks have passed. */
  lemma {:induction false} SliceRunsOut(s: State, n: nat)
    requires TopClass(s) && n <= s.threads[s.current].remaining
    ensures Switches(s, seq(n, i => Ticked)) == if n == s.threads[s.current].remaining then 1 else 0
    decreases n
  {
    hide TopClass, Tick, Inv;
    var turns := seq(n, i => Ticked);
    RemainingTicks(s);
    if n > 0 {
      assert turns[1..] == seq(n - 1, i => Ticked);
      TurnRotates(s, Ticked);
      if s.threads[s.current].remaining > 1 {
        TickCounts(s);
        SliceRunsOut(Tick(s), n - 1);
      } else {
        assert turns[1..] == [];
      }
    }
  }

  lemma RemainingTicks(s: State)
    requires TopClass(s)
    ensures Inv(s) && s.current in s.threads && s.threads[s.current].remaining >= 1
  {
    InvParts(s);
    ThreadsHas(s.threads, s.max, s.current, s.current);
    hide QueuesOk, ThreadsOk, WithPrio;
  }

  /** Every thread of the class has its turn: the one i places behind the current thread runs after i switches. */
  lemma EachGetsTheProcessor(s: State, turns: seq<Turn>, i: nat)
    requires TopClass(s) && i < |Peers(s)| && Switches(s, turns) == i
    ensures TopClass(AfterTurns(s, turns)) && AfterTurns(s, turns).current == Peers(s)[i]
  {
    RoundRobin(s, turns);
  }

  /** The bitmaps mark exactly the queues that are not empty: `group` alone for up to 32 priorities, and else eight
      priorities in each byte of `table`, with a bit of `group` for each byte that is not zero. */
  ghost predicate Marks(queues: seq<seq<Thread>>, group: nat, table: seq<nat>) {
    && |queues| <= MAX_PRIORITIES && |table| == 32 && Within(group, 32)
    && if |queues| > 32 then
         && (forall n :: 0 <= n < 32 ==> Within(table[n], 8) && (Bit(group, n) <==> table[n] != 0))
         && (forall n, b :: 0 <= n < 32 && 0 <= b < 8 ==> (Bit(table[n], b) <==> Filled(queues, 8 * n + b)))
       else forall p :: 0 <= p < 32 ==> (Bit(group, p) <==> Filled(queues, p))
  }

  predicate Filled(queues: seq<seq<Thread>>, p: nat) {
    p < |queues| && queues[p] != []
  }

  // The changes of the two bitmaps in rt_schedule_insert_thread.
  function Marked(group: nat, table: seq<nat>, tcb: Tcb, max: nat): (nat, seq<nat>)
    requires max > 32 ==> tcb.number < |table|
  {
    (Or(group, tcb.numberMask), if max > 32 then table[tcb.number := Or(table[tcb.number], tcb.highMask)] else table)
  }

  // The changes of the two bitmaps in rt_schedule_remove_thread, when the queue is empty then.
  function Unmarked(group: nat, table: seq<nat>, tcb: Tcb, max: nat): (nat, seq<nat>)
    requires max > 32 ==> tcb.number < |table|
  {
    if max > 32 then
      var byte := AndNot(table[tcb.number], tcb.highMask);
      (if byte == 0 then AndNot(group, tcb.numberMask) else group, table[tcb.number := byte])
    else (AndNot(group, tcb.numberMask), table)
  }

  lemma ByteMarked(queues: seq<seq<Thread>>, after: seq<seq<Thread>>, n: nat, b: nat, byte: nat, byte': nat)
    requires n < 32 && b < 8 && |after| == |queues| && 8 * n + b < |queues| && Within(byte, 8)
    requires forall p :: 0 <= p < |queues| && p != 8 * n + b ==> after[p] == queues[p]
    requires forall c :: 0 <= c < 8 ==> (Bit(byte, c) <==> Filled(queues, 8 * n + c))
    requires byte' == if after[8 * n + b] != [] then Or(byte, Mask(b)) else AndNot(byte, Mask(b))
    ensures Within(byte', 8) && forall c :: 0 <= c < 8 ==> (Bit(byte', c) <==> Filled(after, 8 * n + c))
  {
    MaskWithin(b, 8);
    OrWithin(byte, Mask(b), 8);
    AndNotWithin(byte, Mask(b), 8);
    hide Or, AndNot, Mask, Bit, Bitmap.Within;
    forall c | 0 <= c < 8 ensures Bit(byte', c) <==> Filled(after, 8 * n + c) {
      MaskBit(b, c);
      OrBit(byte, Mask(b), c);
      AndNotBit(byte, Mask(b), c);
    }
  }

  lemma GroupMarked(group: nat, n: nat, set_: bool, group': nat)
    requires n < 32 && Within(group, 32) && group' == if set_ then Or(group, Mask(n)) else AndNot(group, Mask(n))
    ensures Within(group', 32)
    ensures forall m :: 0 <= m < 32 ==> (Bit(group', m) <==> if m == n then set_ else Bit(group, m))
  {
    MaskWithin(n, 32);
    OrWithin(group, Mask(n), 32);
    AndNotWithin(group, Mask(n), 32);
    hide Or, AndNot, Mask, Bit, Bitmap.Within;
    forall m | 0 <= m < 32 ensures Bit(group', m) <==> if m == n then set_ else Bit(group, m) {
      MaskBit(n, m);
      OrBit(group, Mask(n), m);
      AndNotBit(group, Mask(n), m);
    }
  }

  // A queue changes, and its marks with it.
  lemma MarksChanged(queues: seq<seq<Thread>>, group: nat, table: seq<nat>, tcb: Tcb, q: seq<Thread>)
    requires Marks(queues, group, table) && tcb.prio < |queues| && WithPrio(tcb, tcb.prio, |queues|) == tcb
    ensures |queues| > 32 ==> tcb.number < 32
    ensures var (group', table') := if q != [] then Marked(group, table, tcb, |queues|)
      else Unmarked(group, table, tcb, |queues|);
            Marks(queues[tcb.prio := q], group', table')
  {
    hide Or, AndNot, Mask, Bit, Bitmap.Within;
    var p, max := tcb.prio, |queues|;
    var n, b := p / 8, p % 8;
    var after := queues[p := q];
    assert max > 32 ==> tcb.number == n < 32 && tcb.numberMask == Mask(n) && tcb.highMask == Mask(b);
    assert max <= 32 ==> tcb.numberMask == Mask(p);
    var (group', table') := if q != [] then Marked(group, table, tcb, max) else Unmarked(group, table, tcb, max);
    if max > 32 {
      assert forall c :: 0 <= c < 8 ==> (Bit(table[n], c) <==> Filled(queues, 8 * n + c));
      assert Bitmap.Within(table[n], 8);
      hide Marks;
      ByteMarked(queues, after, n, b, table[n], table'[n]);
      TableMarked(queues, after, group, table, n, b, group', table');
    } else {
      GroupMarked(group, p, q != [], group');
    }
  }

  lemma TableMarked(queues: seq<seq<Thread>>, after: seq<seq<Thread>>, group: nat, table: seq<nat>, n: nat, b: nat,
                    group': nat, table': seq<nat>)
    requires Marks(queues, group, table) && |after| == |queues| > 32 && n < 32 && b < 8 && 8 * n + b < |queues|
    requires forall p :: 0 <= p < |queues| && p != 8 * n + b ==> after[p] == queues[p]
    requires |table'| == 32 && table' == table[n := table'[n]] && Within(table'[n], 8)
    requires forall c :: 0 <= c < 8 ==> (Bit(table'[n], c) <==> Filled(after, 8 * n + c))
    requires if after[8 * n + b] != [] then group' == Or(group, Mask(n))
             else group' == if table'[n] == 0 then AndNot(group, Mask(n)) else group
    ensures Marks(after, group', table')
  {
    hide Or, AndNot, Mask, Bitmap.Within, Bit;
    if after[8 * n + b] != [] {
      assert Filled(after, 8 * n + b);
      BitPositive(table'[n], b);
      GroupMarked(group, n, true, group');
    } else if table'[n] == 0 {
      GroupMarked(group, n, false, group');
    } else {
      var c := SomeBit(table'[n]);
      WithinBit(table'[n], 8, c);
      assert Filled(after, 8 * n + c) && Filled(queues, 8 * n + c);
      BitPositive(table[n], c);
    }
  }

  // _get_highest_priority_thread
  function Highest(max: nat, group: nat, table: seq<nat>): int
    requires |table| == 32
  {
    if max > 32 then
      var number := Ffs(group) - 1;
      8 * number + (if 0 <= number < 32 then Ffs(table[number]) else 0) - 1
    else Ffs(group) - 1
  }

  lemma LowestBit(v: nat, n: nat)
    requires 0 < v && Within(v, n) && n <= 32
    ensures 0 <= Ffs(v) - 1 < n && Bit(v, Ffs(v) - 1) && forall k :: 0 <= k < Ffs(v) - 1 ==> !Bit(v, k)
  {
    MaskMonotone(n, 32);
    MaskValues();
    FfsIsLowest(v);
    LowestIs(v, 0);
    WithinBit(v, n, Lowest(v));
    forall k: nat | k < Lowest(v) ensures !Bit(v, k) {
      LowestIs(v, k);
    }
  }

  lemma {:induction false} MaskMonotone(m: nat, n: nat)
    requires m <= n
    ensures Mask(m) <= Mask(n)
    decreases n
  {
    if m < n {
      MaskMonotone(m, n - 1);
    }
  }

  // The bits that lead to a filled queue.
  lemma FilledBits(queues: seq<seq<Thread>>, group: nat, table: seq<nat>, p: nat)
    requires Marks(queues, group, table) && Filled(queues, p)
    ensures if |queues| > 32 then p / 8 < 32 && Bit(group, p / 8) && Bit(table[p / 8], p % 8) else Bit(group, p)
  {
    hide Bitmap.Within, Bit;
    if |queues| > 32 {
      var n, b := p / 8, p % 8;
      assert Bit(table[n], b) <==> Filled(queues, 8 * n + b);
      BitPositive(table[n], b);
    }
  }

  // Find-first-set on the group, and with more than 32 priorities on the byte that it leads to.
  lemma HighestFilled(queues: seq<seq<Thread>>, group: nat, table: seq<nat>)
    requires Marks(queues, group, table) && group != 0
    ensures var p := Highest(|queues|, group, table); 0 <= p && Filled(queues, p)
    ensures var n := Ffs(group) - 1;
            && 0 <= n < 32 && (forall k :: 0 <= k < n ==> !Bit(group, k))
            && if |queues| > 32 then
                 var b := Ffs(table[n]) - 1;
                 Highest(|queues|, group, table) == 8 * n + b && 0 <= b < 8 && forall k :: 0 <= k < b ==>
                   !Bit(table[n], k)
               else Highest(|queues|, group, table) == n
  {
    hide Bitmap.Within, Bit, Ffs;
    LowestBit(group, 32);
    if |queues| > 32 {
      LowestBit(table[Ffs(group) - 1], 8);
    }
  }

  /** The bitmaps and find-first-set give the number of the first queue that is not empty. */
  lemma HighestIsTop(queues: seq<seq<Thread>>, group: nat, table: seq<nat>)
    requires Marks(queues, group, table)
    ensures group == 0 <==> Top(queues) == |queues|
    ensures group != 0 ==> Highest(|queues|, group, table) == Top(queues)
  {
    assert |table| == 32;
    hide Marks, Bit, Ffs, Highest;
    var p := Top(queues);
    if p < |queues| {
      FilledBits(queues, group, table, p);
      BitPositive(group, if |queues| > 32 then p / 8 else p);
    }
    if group != 0 {
      HighestFilled(queues, group, table);
      NoneBefore(queues, group, table, p, Highest(|queues|, group, table));
    }
  }

  lemma NoneBefore(queues: seq<seq<Thread>>, group: nat, table: seq<nat>, p: nat, h: nat)
    requires Marks(queues, group, table) && |table| == 32 && group != 0 && h == Highest(|queues|, group, table)
    requires Filled(queues, h)
    requires p < |queues| ==> Filled(queues, p)
    requires forall i :: 0 <= i < p && i < |queues| ==> queues[i] == []
    ensures p == h
  {
    hide Marks, Bit, Ffs, Highest;
    HighestFilled(queues, group, table);
    assert p <= h;
    FilledBits(queues, group, table, p);
    if |queues| > 32 {
      Split(p, h, Ffs(group) - 1, Ffs(table[Ffs(group) - 1]) - 1);
    }
  }

  lemma Split(p: nat, h: nat, n: nat, b: nat)
    requires h == 8 * n + b && b < 8 && p <= h && p / 8 >= n && (p / 8 == n ==> p % 8 >= b)
    ensures p == h
  {
  }

  // What rt_schedule_remove_thread needs of the thread: nothing is missing from its masks.
  ghost predicate Masked(s: State, t: Thread) {
    t in s.threads && s.threads[t].prio < |s.queues|
      && WithPrio(s.threads[t], s.threads[t].prio, |s.queues|) == s.threads[t]
  }

  lemma InvMasked(s: State, t: Thread)
    requires Inv(s) && t in s.threads
    ensures Masked(s, t)
  {
  }

  lemma InvShape(s: State)
    requires Inv(s)
    ensures s.current in s.threads && |s.queues| == s.max
  {
  }

  // The current thread is in no queue, so that removing it changes nothing.
  lemma RemoveNothing(s: State)
    requires Inv(s) && s.threads[s.current].stat == Running
    ensures RemoveThread(s, s.current) == s
  {
    NotQueued(s);
    var p := s.threads[s.current].prio;
    WithoutAbsent(Queue(s, p), s.current);
    hide Inv, Without;
    assert p < |s.queues| ==> s.queues[p := s.queues[p]] == s.queues;
  }

  lemma EmptyMarks(max: nat)
    requires max <= MAX_PRIORITIES
    ensures Marks(seq(max, i => []), 0, seq(32, i => 0))
  {
    forall b: nat ensures !Bit(0, b) {
      NoBit(b);
    }
    MaskValues();
  }

  class Scheduler {
    const max: nat
    var queues: seq<seq<Thread>>
    var group: nat
    var table: seq<nat>
    var threads: map<Thread, Tcb>
    var current: Thread
    var lock: nat

    ghost function View(): State
      reads this
    {
      State(max, queues, threads, current, lock)
    }

    ghost predicate Valid()
      reads this
    {
      Inv(View()) && Marks(queues, group, table)
    }

    // rt_system_scheduler_init, with the first thread running and none ready.
    constructor (max: nat, first: Thread, tcb: Tcb)
      requires 0 < max <= MAX_PRIORITIES && ThreadOk(tcb, max) && tcb.stat == Running
      ensures Valid() && View() == State(max, seq(max, i => []), map[first := tcb], first, 0)
    {
      this.max, current, lock := max, first, 0;
      queues, group, table := seq(max, i => []), 0, seq(32, i => 0);
      threads := map[first := tcb];
      EmptyMarks(max);
    }

    // rt_schedule_insert_thread
    method Insert(t: Thread)
      requires Masked(View(), t) && Marks(queues, group, table) && |queues| == max
      modifies this`queues, this`group, this`table, this`threads
      ensures Marks(queues, group, table) && View() == InsertThread(old(View()), t)
    {
      var tcb := threads[t];
      if t == current {
        threads := threads[t := tcb.(stat := Running)];
        return;
      }
      MarksChanged(queues, group, table, tcb, queues[tcb.prio] + [t]);
      hide Marks, WithPrio, Or;
      threads := threads[t := tcb.(stat := Ready)];
      queues := queues[tcb.prio := queues[tcb.prio] + [t]];
      if max > 32 {
        table := table[tcb.number := Or(table[tcb.number], tcb.highMask)];
      }
      group := Or(group, tcb.numberMask);
    }

    // rt_schedule_remove_thread
    method Remove(t: Thread)
      requires Masked(View(), t) && Marks(queues, group, table) && |queues| == max
      modifies this`queues, this`group, this`table
      ensures Marks(queues, group, table) && View() == RemoveThread(old(View()), t)
    {
      var tcb := threads[t];
      var q := Without(queues[tcb.prio], t);
      MarksChanged(queues, group, table, tcb, q);
      if q != [] {
        SameMarks(queues, group, table, tcb, q);
      }
      hide Marks, WithPrio, AndNot, Without;
      queues := queues[tcb.prio := q];
      if queues[tcb.prio] == [] {
        if max > 32 {
          table := table[tcb.number := AndNot(table[tcb.number], tcb.highMask)];
          if table[tcb.number] == 0 {
            group := AndNot(group, tcb.numberMask);
          }
        } else {
          group := AndNot(group, tcb.numberMask);
        }
      }
    }

    // rt_schedule
    method DoSchedule()
      requires Valid()
      modifies this
      ensures Valid() && View() == Schedule(old(View()))
    {
      ScheduleKeeps(View());
      HighestIsTop(queues, group, table);
      InvShape(View());
      hide Inv, Marks, Top, Switch;
      if lock == 0 && group != 0 {
        var highest := Highest(max, group, table);
        var cur := threads[current];
        if cur.stat == Running {
          SpendKeeps(View());
          threads := threads[current := cur.(reloaded := false)];
          if cur.prio < highest || (cur.prio == highest && !cur.reloaded) {
            RemoveNothing(View());
            InvMasked(View(), current);
            Remove(current);
            return;
          }
        }
        SwitchTo(queues[highest][0]);
      }
    }

    // The part of rt_schedule that switches to another thread.
    method SwitchTo(to: Thread)
      requires Valid() && Top(queues) < |queues| && to == queues[Top(queues)][0]
      modifies this
      ensures Marks(queues, group, table) && View() == Switch(old(View()))
    {
      hide Inv, Marks, Top, WithPrio, Without;
      InvShape(View());
      SwitchKeeps(View());
      InvMasked(View(), current);
      InvMasked(View(), to);
      var from, running := current, threads[current].stat == Running;
      current := to;
      if running {
        Insert(from);
      }
      Remove(to);
      threads := threads[to := threads[to].(stat := Running)];
    }

    // rt_thread_suspend_with_flag
    method SuspendWithFlag(t: Thread, suspends: bool) returns (error: Error)
      requires Valid() && t in threads
      modifies this
      ensures Valid() && View() == SuspendThread(old(View()), t, suspends)
      ensures error == EError <==> old(threads[t].stat != Ready && threads[t].stat != Running)
      ensures error == EOk <==> suspends && old(threads[t].stat == Ready || threads[t].stat == Running)
      ensures error in {EOk, EIntr, EError}
    {
      SuspendKeeps(View(), t, suspends);
      InvMasked(View(), t);
      hide Inv, Marks;
      if threads[t].stat != Ready && threads[t].stat != Running {
        return EError;
      }
      if !suspends {
        return EIntr;
      }
      Remove(t);
      threads := threads[t := threads[t].(stat := Suspended)];
      return EOk;
    }

    // rt_thread_resume
    method Resume(t: Thread) returns (error: Error)
      requires Valid() && t in threads
      modifies this
      ensures Valid() && View() == ResumeThread(old(View()), t)
      ensures error == if old(threads[t].stat == Suspended) then EOk else EError
    {
      if threads[t].stat != Suspended {
        return EError;
      }
      InsertKeeps(View(), t);
      InvMasked(View(), t);
      hide Inv, Marks;
      Insert(t);
      return EOk;
    }

    // rt_enter_critical
    method EnterCritical()
      requires Valid()
      modifies this`lock
      ensures Valid() && View() == Apply(old(View()), LockStep)
    {
      hide Inv, Marks;
      LockKeeps(View(), lock + 1);
      lock := lock + 1;
    }

    // rt_exit_critical; one without its partner takes the counter below zero, which is put right.
    method ExitCritical()
      requires Valid()
      modifies this
      ensures Valid() && View() == Apply(old(View()), UnlockStep)
    {
      hide Inv, Marks, Schedule;
      LockKeeps(View(), if lock > 0 then lock - 1 else 0);
      var nest := lock - 1;
      if nest <= 0 {
        lock := 0;
        DoSchedule();
      } else {
        lock := nest;
      }
    }

    // rt_thread_control with RT_THREAD_CTRL_CHANGE_PRIORITY
    method ControlPriority(t: Thread, p: nat)
      requires Valid() && t in threads && p < max
      modifies this
      ensures Valid() && View() == ChangePriority(old(View()), t, p)
    {
      ChangePriorityKeeps(View(), t, p);
      InvMasked(View(), t);
      WithPrioMasked(threads[t], p, max);
      hide Inv, Marks, WithPrio;
      if threads[t].stat == Ready {
        Remove(t);
        threads := threads[t := WithPrio(threads[t], p, max)];
        Insert(t);
      } else {
        threads := threads[t := WithPrio(threads[t], p, max)];
      }
    }

    // rt_thread_yield
    method Yield()
      requires Valid()
      modifies this
      ensures Valid() && View() == YieldThread(old(View()))
    {
      ReloadKeeps(View());
      InvShape(View());
      hide Inv, Marks, Schedule;
      ReloadSlice();
      DoSchedule();
    }

    // rt_tick_increase up to its timer check; when the slice ends it does what rt_thread_yield does.
    method TickIncrease()
      requires Valid()
      modifies this
      ensures Valid() && View() == Tick(old(View()))
    {
      hide Inv, Marks, Tick, YieldThread;
      InvShape(View());
      TickKeeps(View());
      TickIs(View());
      var remaining := threads[current].remaining - 1;
      if remaining == 0 {
        Yield();
      } else {
        threads := threads[current := threads[current].(remaining := remaining)];
      }
    }

    method ReloadSlice()
      requires current in threads
      modifies this`threads
      ensures View() == Reload(old(View()))
    {
      threads := threads[current := threads[current].(remaining := threads[current].slice, reloaded := true)];
    }

    // rt_thread_startup
    method StartThread(t: Thread)
      requires Valid() && t in threads && threads[t].stat == Created
      modifies this
      ensures Valid() && View() == Startup(old(View()), t)
    {
      StartedKeeps(View(), t);
      hide Inv, Marks, Schedule, WithPrio;
      threads := threads[t := WithPrio(threads[t], threads[t].initPrio, max).(stat := Suspended)];
      var _ := Resume(t);
      DoSchedule();
    }
  }

  lemma WithPrioMasked(tcb: Tcb, p: nat, max: nat)
    ensures var after := WithPrio(tcb, p, max);
            WithPrio(after, after.prio, max) == after && after.prio == p && after.stat == tcb.stat
  {
    hide Mask;
  }

  // A queue that stays filled keeps its marks.
  lemma SameMarks(queues: seq<seq<Thread>>, group: nat, table: seq<nat>, tcb: Tcb, q: seq<Thread>)
    requires Marks(queues, group, table) && tcb.prio < |queues| && queues[tcb.prio] != [] && q != []
    ensures Marks(queues[tcb.prio := q], group, table)
  {
    hide Bit, Bitmap.Within;
    var after := queues[tcb.prio := q];
    assert forall p :: Filled(after, p) <==> Filled(queues, p);
  }
}
