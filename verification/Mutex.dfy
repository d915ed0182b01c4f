/** The mutex of rt-smart/src/ipc.c with its priority inheritance, for threads that use no other mutex. */
module Mutex {
  import opened Common
  import opened IpcQueue

  const HOLD_MAX := 0xff
  const VALUE_MAX := 0xffff
  const NO_PRIORITY := 0xff

  datatype Owner = Nobody | Held(thread: Thread)

  datatype Outcome = Blocked | Done | Full | Refused(error: Error)

  // `prio` is every thread's current priority; smaller numbers are more urgent.
  datatype State = State(order: Order, value: nat, owner: Owner, hold: nat, original: nat, blocked: seq<Thread>,
    prio: Thread -> nat)

  function With(prio: Thread -> nat, t: Thread, p: nat): Thread -> nat {
    u => if u == t then p else prio(u)
  }

  function Initial(order: Order, prio: Thread -> nat): State {
    State(order, 1, Nobody, 0, NO_PRIORITY, [], prio)
  }

  // _rt_mutex_take up to its return or its suspension. A failed suspension leaves the owner boosted.
  function Take(s: State, t: Thread, time: int, suspends: bool): (State, Outcome) {
    if s.owner == Held(t) then
      if s.hold < HOLD_MAX then (s.(hold := s.hold + 1), Done) else (s, Full)
    else if s.value > 0 then
      (s.(value := s.value - 1, owner := Held(t), original := s.prio(t), hold := s.hold + 1), Done)
    else if time == 0 then (s, Refused(ETimeout))
    else
      var boosted := Boost(s, t);
      if !suspends then (boosted, Refused(EIntr))
      else (boosted.(blocked := Suspended(s.blocked, t, s.order, boosted.prio)), Blocked)
  }

  // The owner inherits the priority of a more urgent thread.
  function Boost(s: State, t: Thread): State {
    if s.owner.Held? && s.prio(t) < s.prio(s.owner.thread) then s.(prio := With(s.prio, s.owner.thread, s.prio(t)))
    else s
  }

  // rt_mutex_release
  function Release(s: State, t: Thread): (State, Outcome) {
    if s.owner != Held(t) || s.hold == 0 then (s, Refused(EError))
    else if s.hold > 1 then (s.(hold := s.hold - 1), Done)
    else
      var restored: Thread -> nat := if s.original != s.prio(t) then With(s.prio, t, s.original) else s.prio;
      if s.blocked != [] then
        (State(s.order, s.value, Held(s.blocked[0]), 1, restored(s.blocked[0]), s.blocked[1..], restored), Done)
      else
        (State(s.order, s.value + 1, Nobody, 0, NO_PRIORITY, [], restored), Done)
  }

  datatype Step =
    | TakeStep(t: Thread, time: int, suspends: bool)
    | ReleaseStep(t: Thread)
    | LeaveStep(t: Thread)

  // A blocked thread does not run.
  predicate Enabled(s: State, step: Step) {
    step.LeaveStep? || step.t !in s.blocked
  }

  function Apply(s: State, step: Step): State {
    match step
    case TakeStep(t, time, suspends) => Take(s, t, time, suspends).0
    case ReleaseStep(t) => Release(s, t).0
    case LeaveStep(t) => s.(blocked := Without(s.blocked, t))
  }

  predicate Run(s: State, steps: seq<Step>)
    decreases |steps|
  {
    steps == [] || (Enabled(s, steps[0]) && Run(Apply(s, steps[0]), steps[1..]))
  }

  function After(s: State, steps: seq<Step>): State
    decreases |steps|
  {
    if steps == [] then s else After(Apply(s, steps[0]), steps[1..])
  }

  ghost predicate Consistent(s: State) {
    && (s.owner == Nobody <==> s.hold == 0) && s.value == (if s.owner == Nobody then 1 else 0) && s.hold <= HOLD_MAX
    && (s.owner == Nobody ==> s.blocked == [] && s.original == NO_PRIORITY)
    && Distinct(s.blocked) && (s.owner.Held? ==> s.owner.thread !in s.blocked)
  }

  // Only the owner may run above its own priority, which `original` remembers.
  ghost predicate Inherits(s: State, base: Thread -> nat) {
    && (forall t :: s.owner != Held(t) ==> s.prio(t) == base(t))
    && (s.owner.Held? ==> s.original == base(s.owner.thread) && s.prio(s.owner.thread) <= base(s.owner.thread))
  }

  ghost predicate OwnerMostUrgent(s: State) {
    s.owner.Held? ==> forall w :: w in s.blocked ==> s.prio(s.owner.thread) <= s.prio(w)
  }

  ghost predicate Inv(s: State, base: Thread -> nat) {
    && Consistent(s) && Inherits(s, base)
    && (s.order == Prio ==> SortedBy(s.blocked, s.prio) && OwnerMostUrgent(s))
  }

  lemma SortedAlike(q: seq<Thread>, prio: Thread -> nat, other: Thread -> nat)
    requires SortedBy(q, prio) && forall t :: t in q ==> prio(t) == other(t)
    ensures SortedBy(q, other)
  {
  }

  lemma BoostKeeps(s: State, t: Thread, base: Thread -> nat)
    requires Inv(s, base) && s.owner != Held(t)
    ensures Inv(Boost(s, t), base)
    ensures s.owner.Held? ==> Boost(s, t).prio(s.owner.thread) <= Boost(s, t).prio(t)
  {
    if s.order == Prio && s.owner.Held? {
      SortedAlike(s.blocked, s.prio, Boost(s, t).prio);
    }
    hide SortedBy, Distinct;
  }

  lemma WaitKeeps(s: State, t: Thread, base: Thread -> nat)
    requires Inv(s, base) && s.owner.Held? && s.owner.thread != t && t !in s.blocked
    requires s.prio(s.owner.thread) <= s.prio(t)
    ensures Inv(s.(blocked := Suspended(s.blocked, t, s.order, s.prio)), base)
  {
    SuspendedDistinct(s.blocked, t, s.order, s.prio);
    if s.order == Prio {
      var _ := PlacedStably(s.blocked, t, s.prio);
    }
    hide SortedBy, Distinct, Placed;
  }

  lemma TakeKeeps(s: State, t: Thread, time: int, suspends: bool, base: Thread -> nat)
    requires Inv(s, base) && t !in s.blocked
    ensures Inv(Take(s, t, time, suspends).0, base)
  {
    if s.owner.Held? && s.owner.thread != t {
      BoostKeeps(s, t, base);
      WaitKeeps(Boost(s, t), t, base);
    }
    hide SortedBy, Distinct, Suspended;
  }

  lemma ReleaseKeeps(s: State, t: Thread, base: Thread -> nat)
    requires Inv(s, base) && t !in s.blocked
    ensures Inv(Release(s, t).0, base)
  {
    var after := Release(s, t).0;
    if s.owner == Held(t) && s.hold == 1 && s.blocked != [] {
      assert forall i :: 0 <= i < |s.blocked[1..]| ==> s.blocked[1..][i] == s.blocked[i + 1];
      if s.order == Prio {
        SortedAlike(s.blocked, s.prio, after.prio);
        assert forall w :: w in s.blocked[1..] ==> after.prio(s.blocked[0]) <= after.prio(w);
      }
    }
  }

  lemma LeaveKeeps(s: State, t: Thread, base: Thread -> nat)
    requires Inv(s, base)
    ensures Inv(s.(blocked := Without(s.blocked, t)), base)
  {
    WithoutDistinct(s.blocked, t);
    if s.order == Prio {
      WithoutSorted(s.blocked, t, s.prio);
    }
    hide SortedBy, Distinct;
  }

  lemma {:induction false} WithoutSorted(q: seq<Thread>, t: Thread, prio: Thread -> nat)
    requires SortedBy(q, prio)
    ensures SortedBy(Without(q, t), prio)
  {
    if q != [] {
      WithoutSorted(q[1..], t, prio);
      assert forall u :: u in q[1..] ==> prio(q[0]) <= prio(u);
    }
  }

  lemma StepKeeps(s: State, step: Step, base: Thread -> nat)
    requires Inv(s, base) && Enabled(s, step)
    ensures Inv(Apply(s, step), base) && Apply(s, step).order == s.order
  {
    match step
    case TakeStep(t, time, suspends) => TakeKeeps(s, t, time, suspends, base);
    case ReleaseStep(t) => ReleaseKeeps(s, t, base);
    case LeaveStep(t) => LeaveKeeps(s, t, base);
  }

  /** In every run the mutex stays consistent, and under priority order its waiters stay sorted below its owner. */
  lemma {:induction false} RunKeeps(s: State, steps: seq<Step>, base: Thread -> nat)
    requires Inv(s, base) && Run(s, steps)
    ensures Inv(After(s, steps), base) && After(s, steps).order == s.order
    decreases |steps|
  {
    if steps != [] {
      StepKeeps(s, steps[0], base);
      RunKeeps(Apply(s, steps[0]), steps[1..], base);
    }
  }

  lemma InitialInv(order: Order, base: Thread -> nat)
    ensures Inv(Initial(order, base), base)
  {
  }

  /** Whatever was inherited on the way, a thread that does not own the mutex has its own priority back. */
  lemma PriorityRestored(order: Order, base: Thread -> nat, steps: seq<Step>, t: Thread)
    requires Run(Initial(order, base), steps) && After(Initial(order, base), steps).owner != Held(t)
    ensures After(Initial(order, base), steps).prio(t) == base(t)
  {
    InitialInv(order, base);
    RunKeeps(Initial(order, base), steps, base);
  }

  /** Under priority order, no thread waits behind an owner that is less urgent than itself. */
  lemma NoInversion(base: Thread -> nat, steps: seq<Step>, w: Thread)
    requires Run(Initial(Prio, base), steps) && w in After(Initial(Prio, base), steps).blocked
    ensures var s := After(Initial(Prio, base), steps); s.owner.Held? && s.prio(s.owner.thread) <= base(w)
  {
    InitialInv(Prio, base);
    RunKeeps(Initial(Prio, base), steps, base);
  }

  // How many takes a thread has completed and not yet released, counted from the outcomes of its calls alone.
  function Depth(s: State, steps: seq<Step>, t: Thread): int
    decreases |steps|
  {
    if steps == [] then 0
    else
      (match steps[0]
       case TakeStep(u, time, suspends) => if u == t && Take(s, u, time, suspends).1 == Done then 1 else 0
       case ReleaseStep(u) =>
         (if u == t && Release(s, u).1 == Done then -1 else 0) + (if Passed(s, u, t) then 1 else 0)
       case LeaveStep(_) => 0)
      + Depth(Apply(s, steps[0]), steps[1..], t)
  }

  // A release that wakes t without an error completes t's take.
  predicate Passed(s: State, u: Thread, t: Thread) {
    s.owner == Held(u) && s.hold == 1 && s.blocked != [] && s.blocked[0] == t
  }

  function Holds(s: State, t: Thread): nat {
    if s.owner == Held(t) then s.hold else 0
  }

  /** The thread whose completed takes outnumber its releases is the owner, by `hold`, and there is no other such
      thread. */
  lemma {:induction false} HoldIsDepth(s: State, steps: seq<Step>, t: Thread, base: Thread -> nat)
    requires Inv(s, base) && Run(s, steps)
    ensures Depth(s, steps, t) == Holds(After(s, steps), t) - Holds(s, t)
    decreases |steps|
  {
    if steps != [] {
      StepKeeps(s, steps[0], base);
      HoldIsDepth(Apply(s, steps[0]), steps[1..], t, base);
      hide SortedBy, Distinct, Suspended, Inherits, OwnerMostUrgent;
    }
  }

  lemma MutualExclusion(order: Order, base: Thread -> nat, steps: seq<Step>, t: Thread, u: Thread)
    requires Run(Initial(order, base), steps) && t != u
    ensures Depth(Initial(order, base), steps, t) >= 0
    ensures Depth(Initial(order, base), steps, t) == 0 || Depth(Initial(order, base), steps, u) == 0
  {
    InitialInv(order, base);
    HoldIsDepth(Initial(order, base), steps, t, base);
    HoldIsDepth(Initial(order, base), steps, u, base);
  }

  // In the run every take that was completed has been released.
  ghost predicate Free(order: Order, base: Thread -> nat, steps: seq<Step>) {
    forall u :: Depth(Initial(order, base), steps, u) == 0
  }

  /** What a take comes to after any run, by the completed takes and releases counted from outcomes: it completes at
      once exactly if nobody has the mutex, or the thread itself has it fewer than 255 times; at 255 times it is full.
      Behind another thread it times out at time zero, waits, or is interrupted. */
  lemma TakeTells(order: Order, base: Thread -> nat, steps: seq<Step>, t: Thread, time: int, suspends: bool)
    requires Run(Initial(order, base), steps) && t !in After(Initial(order, base), steps).blocked
    ensures var d, outcome := Depth(Initial(order, base), steps, t),
      Take(After(Initial(order, base), steps), t, time, suspends).1;
            var behind := d == 0 && !Free(order, base, steps);
            && 0 <= d <= HOLD_MAX
            && (outcome == Done <==> !behind && d < HOLD_MAX) && (outcome == Full <==> d == HOLD_MAX)
            && (outcome == Refused(ETimeout) <==> behind && time == 0)
            && (outcome == Blocked <==> behind && time != 0 && suspends)
            && (outcome == Refused(EIntr) <==> behind && time != 0 && !suspends)
  {
    hide Run, After, Depth, SortedBy, Distinct, Suspended, Inherits, OwnerMostUrgent;
    DepthsTell(order, base, steps, t);
  }

  /** A take that waits, or would have, raises the owner to the thread's priority if that is more urgent. No other
      take changes a priority, and a release changes none but that of the thread, and that to what it was at its first
      take. */
  lemma PrioritiesTell(s: State, t: Thread, time: int, suspends: bool, base: Thread -> nat, u: Thread)
    requires Inv(s, base) && t !in s.blocked
    ensures var (s', outcome) := Take(s, t, time, suspends);
            var waits := outcome == Blocked || outcome == Refused(EIntr);
            s'.prio(u) == if waits && s.owner == Held(u) && s.prio(t) < s.prio(u) then s.prio(t) else s.prio(u)
    ensures var s' := Release(s, t).0;
            s'.prio(u) == if u == t && s'.owner != Held(t) then base(u) else s.prio(u)
  {
    hide SortedBy, Distinct, Suspended, OwnerMostUrgent;
  }

  /** A release completes exactly if the thread has the mutex, and is refused otherwise. */
  lemma ReleaseTells(order: Order, base: Thread -> nat, steps: seq<Step>, t: Thread)
    requires Run(Initial(order, base), steps)
    ensures var outcome := Release(After(Initial(order, base), steps), t).1;
            if Depth(Initial(order, base), steps, t) > 0 then outcome == Done else outcome == Refused(EError)
  {
    hide Run, After, Depth, SortedBy, Distinct, Inherits, OwnerMostUrgent;
    DepthsTell(order, base, steps, t);
  }

  lemma DepthsTell(order: Order, base: Thread -> nat, steps: seq<Step>, t: Thread)
    requires Run(Initial(order, base), steps)
    ensures var s := After(Initial(order, base), steps);
            && Consistent(s) && Depth(Initial(order, base), steps, t) == Holds(s, t)
            && (Free(order, base, steps) <==> s.owner == Nobody)
  {
    hide Run, After, Depth, SortedBy, Distinct, Inherits, OwnerMostUrgent;
    var s := Initial(order, base);
    InitialInv(order, base);
    RunKeeps(s, steps, base);
    forall u ensures Depth(s, steps, u) == Holds(After(s, steps), u) {
      HoldIsDepth(s, steps, u, base);
    }
    if After(s, steps).owner.Held? {
      assert Depth(s, steps, After(s, steps).owner.thread) > 0;
    }
  }

  /** A hand-off does not boost the new owner: it is as urgent as all remaining waiters only if it already was. */
  lemma HandOffUrgentExactly(s: State, t: Thread, base: Thread -> nat)
    requires Inv(s, base) && s.owner == Held(t) && s.hold == 1 && s.blocked != []
    ensures OwnerMostUrgent(Release(s, t).0) <==> forall w :: w in s.blocked ==> base(s.blocked[0]) <= base(w)
  {
    var after := Release(s, t).0;
    assert forall w :: w in s.blocked <==> w == s.blocked[0] || w in s.blocked[1..];
    assert forall w :: w in s.blocked ==> after.prio(w) == base(w);
  }

  // The step gives the mutex to the first waiter.
  predicate HandsOff(s: State, step: Step) {
    step.ReleaseStep? && s.owner == Held(step.t) && s.hold == 1 && s.blocked != []
  }

  /** In either order only a hand-off can leave the owner less urgent than a waiter. */
  lemma OnlyHandOffInverts(s: State, step: Step, base: Thread -> nat)
    requires Inv(s, base) && Enabled(s, step) && OwnerMostUrgent(s) && !HandsOff(s, step)
    ensures OwnerMostUrgent(Apply(s, step))
  {
    match step
    case TakeStep(t, time, suspends) =>
      if s.owner.Held? && s.owner.thread != t {
        BoostKeeps(s, t, base);
        assert OwnerMostUrgent(Boost(s, t));
      }
      hide SortedBy, Distinct, Suspended;
    case ReleaseStep(t) =>
    case LeaveStep(t) =>
  }

  // In the run no thread blocks behind one that is less urgent.
  ghost predicate Patient(s: State, steps: seq<Step>, base: Thread -> nat)
    decreases |steps|
  {
    steps == [] ||
    (&& (steps[0].TakeStep? && Take(s, steps[0].t, steps[0].time, steps[0].suspends).1 == Blocked ==>
           forall w :: w in s.blocked ==> base(w) <= base(steps[0].t))
     && Patient(Apply(s, steps[0]), steps[1..], base))
  }

  lemma PatientStep(s: State, step: Step, base: Thread -> nat)
    requires Inv(s, base) && Enabled(s, step) && OwnerMostUrgent(s) && SortedBy(s.blocked, base)
    requires step.TakeStep? && Take(s, step.t, step.time, step.suspends).1 == Blocked ==>
               forall w :: w in s.blocked ==> base(w) <= base(step.t)
    ensures OwnerMostUrgent(Apply(s, step)) && SortedBy(Apply(s, step).blocked, base)
  {
    StepKeeps(s, step, base);
    var after := Apply(s, step);
    if HandsOff(s, step) {
      HandOffUrgentExactly(s, step.t, base);
      assert forall i :: 0 <= i < |s.blocked[1..]| ==> s.blocked[1..][i] == s.blocked[i + 1];
    } else {
      OnlyHandOffInverts(s, step, base);
      if step.LeaveStep? {
        WithoutSorted(s.blocked, step.t, base);
      } else if step.TakeStep? && Take(s, step.t, step.time, step.suspends).1 == Blocked && s.order == Prio {
        var k := PlacedStably(s.blocked, step.t, Boost(s, step.t).prio);
        assert forall w :: w in after.blocked ==> after.prio(w) == base(w);
        SortedAlike(after.blocked, after.prio, base);
      }
    }
    hide Inv, Boost, Suspended;
  }

  /** So if no thread blocks behind a less urgent one, no waiter is ever more urgent than the owner, in either order. */
  lemma {:induction false} NoInversionIfPatient(s: State, steps: seq<Step>, base: Thread -> nat)
    requires Inv(s, base) && Run(s, steps) && OwnerMostUrgent(s) && SortedBy(s.blocked, base) && Patient(s, steps, base)
    ensures OwnerMostUrgent(After(s, steps))
    decreases |steps|
  {
    hide Inv, OwnerMostUrgent, SortedBy, Apply, Enabled, Take;
    if steps != [] {
      StepKeeps(s, steps[0], base);
      PatientStep(s, steps[0], base);
      NoInversionIfPatient(Apply(s, steps[0]), steps[1..], base);
    }
  }

  /** In first-come order an urgent thread can wait behind a less urgent owner. */
  lemma FifoInversion(base: Thread -> nat, steps: seq<Step>)
    requires base(0) == 5 && base(1) == 9 && base(2) == 3
    requires steps == [TakeStep(0, -1, true), TakeStep(1, -1, true), TakeStep(2, -1, true), ReleaseStep(0)]
    ensures Run(Initial(Fifo, base), steps) && !OwnerMostUrgent(After(Initial(Fifo, base), steps))
  {
    var s := Initial(Fifo, base);
    var s1 := Apply(s, steps[0]);
    assert s1 == State(Fifo, 0, Held(0), 1, 5, [], base);
    var last3, last2, last1 := steps[1..], steps[2..], steps[3..];
    var s2 := Apply(s1, last3[0]);
    assert s2 == State(Fifo, 0, Held(0), 1, 5, [1], base);
    var s3 := Apply(s2, last2[0]);
    assert s3 == State(Fifo, 0, Held(0), 1, 5, [1, 2], With(base, 0, 3));
    var s4 := Apply(s3, last1[0]);
    assert s4.owner == Held(1) && s4.blocked == [2] && s4.prio(1) == 9 && s4.prio(2) == 3;
    assert 2 in s4.blocked;
    hide Apply, Initial;
    assert last1[1..] == [] && Run(s3, last1) && After(s3, last1) == s4;
    assert last2[1..] == last1 && Run(s2, last2) && After(s2, last2) == s4;
    assert last3[1..] == last2 && Run(s1, last3) && After(s1, last3) == s4;
  }

  class Mutex {
    const order: Order
    var value: nat
    var owner: Owner
    var hold: nat
    var original: nat
    var blocked: seq<Thread>
    var prio: Thread -> nat

    ghost function View(): State
      reads this
    {
      State(order, value, owner, hold, original, blocked, prio)
    }

    // rt_mutex_init
    constructor (order: Order, prio: Thread -> nat)
      ensures View() == Initial(order, prio)
    {
      this.order, this.prio := order, prio;
      value, owner, hold, original, blocked := 1, Nobody, 0, NO_PRIORITY, [];
    }

    // _rt_mutex_take. The branch for a full hold counter of a free mutex is dead.
    method TakeMutex(t: Thread, time: int, suspends: bool) returns (outcome: Outcome)
      requires Consistent(View())
      modifies this
      ensures (View(), outcome) == Take(old(View()), t, time, suspends)
    {
      hide Distinct, Suspended;
      if owner == Held(t) {
        if hold < HOLD_MAX {
          hold := hold + 1;
        } else {
          return Full;
        }
      } else if value > 0 {
        value := value - 1;
        owner := Held(t);
        original := prio(t);
        if hold < HOLD_MAX {
          hold := hold + 1;
        } else {
          assert false;
        }
      } else if time == 0 {
        return Refused(ETimeout);
      } else {
        if prio(t) < prio(owner.thread) {
          prio := With(prio, owner.thread, prio(t));
        }
        if !suspends {
          return Refused(EIntr);
        }
        blocked := Suspend(blocked, t, order, prio);
        return Blocked;
      }
      return Done;
    }

    // rt_mutex_release. The branches for full counters are dead.
    method ReleaseMutex(t: Thread) returns (outcome: Outcome)
      requires Consistent(View())
      modifies this
      ensures (View(), outcome) == Release(old(View()), t)
    {
      if owner != Held(t) {
        return Refused(EError);
      }
      hold := hold - 1;
      if hold == 0 {
        if original != prio(owner.thread) {
          prio := With(prio, owner.thread, original);
        }
        if blocked != [] {
          var thread := blocked[0];
          owner := Held(thread);
          original := prio(thread);
          if hold < HOLD_MAX {
            hold := hold + 1;
          } else {
            assert false;
          }
          blocked := blocked[1..];
        } else {
          if value < VALUE_MAX {
            value := value + 1;
          } else {
            assert false;
          }
          owner, original := Nobody, NO_PRIORITY;
        }
      }
      return Done;
    }
  }
}
