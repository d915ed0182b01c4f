/** The message queue of rt-smart/src/ipc.c. Its calls copy a message outside the lock, so each of them is two
    critical sections: between them the thread alone holds a slot that is on neither list. The copy touches only
    that slot, and is modelled together with the critical section next to it. */
module MsgQueue {
  import opened Common
  import opened IpcQueue

  const MQ_ENTRY_MAX := 0xffff

  type Message = seq<int>

  // What a slot of the message pool is being used for.
  datatype Place =
    | Queued | Unused | Sending(sender: Thread) | Urgent(sender: Thread) | Receiving(receiver: Thread, message: Message)

  datatype Outcome = Blocked | Returned(error: Error) | Full | Taken(slot: nat) | Done | Received(message: Message)

  datatype State = State(
    place: seq<Place>, data: seq<Message>, queue: seq<nat>, unused: seq<nat>, receivers: Waiters, senders: Waiters)

  // The first critical section of _rt_mq_send_wait.
  function SendTake(s: State, t: Thread, timeout: int, suspends: bool, order: Order, prio: Thread -> nat)
    : (State, Outcome)
    requires s.unused != [] ==> s.unused[0] < |s.place|
  {
    var rest := s.(senders := Resume(s.senders, t));
    if Failed(s.senders, t) then (rest, Returned(s.senders.ready[t]))
    else if s.unused == [] then
      if timeout == 0 then (rest, Full)
      else if !suspends then (rest, Returned(EIntr))
      else (rest.(senders := Block(rest.senders, t, order, prio)), Blocked)
    else
      (rest.(unused := s.unused[1..], place := s.place[s.unused[0] := Sending(t)]), Taken(s.unused[0]))
  }

  // The first critical section of rt_mq_urgent.
  function UrgentTake(s: State, t: Thread): (State, Outcome)
    requires s.unused != [] ==> s.unused[0] < |s.place|
  {
    if s.unused == [] then (s, Full)
    else (s.(unused := s.unused[1..], place := s.place[s.unused[0] := Urgent(t)]), Taken(s.unused[0]))
  }

  // The copy of the message and the second critical section of _rt_mq_send_wait or rt_mq_urgent.
  function Link(s: State, slot: nat, message: Message): State
    requires slot < |s.place| == |s.data|
  {
    s.(data := s.data[slot := message],
       queue := if s.place[slot].Urgent? then [slot] + s.queue else s.queue + [slot],
       place := s.place[slot := Queued], receivers := Wake(s.receivers))
  }

  // The first critical section of _rt_mq_recv.
  function RecvTake(s: State, t: Thread, timeout: int, suspends: bool, order: Order, prio: Thread -> nat)
    : (State, Outcome)
    requires s.queue != [] ==> s.queue[0] < |s.place| == |s.data|
  {
    var rest := s.(receivers := Resume(s.receivers, t));
    if Failed(s.receivers, t) then (rest, Returned(s.receivers.ready[t]))
    else if s.queue == [] then
      if timeout == 0 then (rest, Returned(ETimeout))
      else if !suspends then (rest, Returned(EIntr))
      else (rest.(receivers := Block(rest.receivers, t, order, prio)), Blocked)
    else
      (rest.(queue := s.queue[1..], place := s.place[s.queue[0] := Receiving(t, s.data[s.queue[0]])]),
        Taken(s.queue[0]))
  }

  // The copy of the message and the second critical section of _rt_mq_recv.
  function Release(s: State, slot: nat): (State, Outcome)
    requires slot < |s.place| == |s.data|
  {
    (s.(unused := [slot] + s.unused, place := s.place[slot := Unused], senders := Wake(s.senders)),
      Received(s.data[slot]))
  }

  lemma LinkIs(s: State, slot: nat, message: Message)
    requires slot < |s.place| == |s.data|
    ensures Link(s, slot, message) ==
      State(s.place[slot := Queued], s.data[slot := message],
            if s.place[slot].Urgent? then [slot] + s.queue else s.queue + [slot],
            s.unused, Wake(s.receivers), s.senders)
  {
  }

  lemma ReleaseIs(s: State, slot: nat)
    requires slot < |s.place| == |s.data|
    ensures Release(s, slot) ==
      (State(s.place[slot := Unused], s.data, s.queue, [slot] + s.unused, s.receivers, Wake(s.senders)),
        Received(s.data[slot]))
  {
  }

  function Reversed(q: seq<nat>): seq<nat> {
    if q == [] then [] else Reversed(q[1..]) + [q[0]]
  }

  // RT_IPC_CMD_RESET
  function Reset(s: State): State {
    s.(queue := [], unused := Reversed(s.queue) + s.unused,
       place := seq(|s.place|, i requires 0 <= i < |s.place| => if s.place[i] == Queued then Unused else s.place[i]),
       receivers := WakeAll(s.receivers), senders := WakeAll(s.senders))
  }

  datatype Step =
    | SendTakeStep(t: Thread, timeout: int, suspends: bool, order: Order, prio: Thread -> nat)
    | UrgentTakeStep(t: Thread)
    | LinkStep(t: Thread, slot: nat, message: Message)
    | RecvTakeStep(t: Thread, timeout: int, suspends: bool, order: Order, prio: Thread -> nat)
    | ReleaseStep(t: Thread, slot: nat)
    | ReceiverLeaves(t: Thread, error: Error)
    | SenderLeaves(t: Thread, error: Error)
    | ResetStep

  // A blocked thread does not run; the second half of a call is for a slot that its first half took.
  predicate Enabled(s: State, step: Step) {
    match step
    case SendTakeStep(t, _, _, _, _) => t !in s.senders.blocked
    case UrgentTakeStep(t) => true
    case LinkStep(t, slot, _) => slot < |s.place| && (s.place[slot] == Sending(t) || s.place[slot] == Urgent(t))
    case RecvTakeStep(t, _, _, _, _) => t !in s.receivers.blocked
    case ReleaseStep(t, slot) => slot < |s.place| && s.place[slot].Receiving? && s.place[slot].receiver == t
    case ReceiverLeaves(_, error) => error != EOk
    case SenderLeaves(_, error) => error != EOk
    case ResetStep => true
  }

  // The list holds exactly the slots in the given place, once each.
  ghost predicate Holds(place: seq<Place>, q: seq<nat>, p: Place) {
    Distinct(q) && forall i: nat :: i in q <==> i < |place| && place[i] == p
  }

  ghost predicate Inv(s: State) {
    && |s.place| == |s.data|
    && Holds(s.place, s.queue, Queued) && Holds(s.place, s.unused, Unused)
    && (forall i :: 0 <= i < |s.place| && s.place[i].Receiving? ==> s.data[i] == s.place[i].message)
    && Covered(s.receivers, |s.queue|) && Covered(s.senders, |s.unused|)
  }

  function Apply(s: State, step: Step): State
    requires Inv(s) && Enabled(s, step)
  {
    assert s.unused != [] ==> s.unused[0] in s.unused;
    assert s.queue != [] ==> s.queue[0] in s.queue;
    match step
    case SendTakeStep(t, timeout, suspends, order, prio) => SendTake(s, t, timeout, suspends, order, prio).0
    case UrgentTakeStep(t) => UrgentTake(s, t).0
    case LinkStep(t, slot, message) => Link(s, slot, message)
    case RecvTakeStep(t, timeout, suspends, order, prio) => RecvTake(s, t, timeout, suspends, order, prio).0
    case ReleaseStep(t, slot) => Release(s, slot).0
    case ReceiverLeaves(t, error) => s.(receivers := Leave(s.receivers, t, error))
    case SenderLeaves(t, error) => s.(senders := Leave(s.senders, t, error))
    case ResetStep => Reset(s)
  }

  predicate Run(s: State, steps: seq<Step>)
    requires Inv(s)
    decreases |steps|
  {
    steps == [] || (Enabled(s, steps[0]) && (StepKeeps(s, steps[0]); Run(Apply(s, steps[0]), steps[1..])))
  }

  function After(s: State, steps: seq<Step>): (end: State)
    requires Inv(s) && Run(s, steps)
    ensures Inv(end)
    decreases |steps|
  {
    if steps == [] then s else (StepKeeps(s, steps[0]); After(Apply(s, steps[0]), steps[1..]))
  }

  lemma HoldsPop(place: seq<Place>, q: seq<nat>, p: Place, next: Place)
    requires Holds(place, q, p) && q != [] && next != p
    ensures q[0] in q && q[0] < |place| && Holds(place[q[0] := next], q[1..], p)
  {
    assert q[0] in q;
    assert forall j :: 0 <= j < |q[1..]| ==> q[1..][j] == q[j + 1];
    assert q[0] !in q[1..];
    forall i: nat ensures i in q[1..] <==> i < |place| && place[q[0] := next][i] == p {
      assert i in q <==> i == q[0] || i in q[1..];
    }
  }

  lemma HoldsAdd(place: seq<Place>, q: seq<nat>, p: Place, slot: nat)
    requires Holds(place, q, p) && slot < |place| && place[slot] != p
    ensures Holds(place[slot := p], q + [slot], p) && Holds(place[slot := p], [slot] + q, p)
  {
  }

  lemma HoldsOther(place: seq<Place>, q: seq<nat>, p: Place, slot: nat, next: Place)
    requires Holds(place, q, p) && slot < |place| && place[slot] != p && next != p
    ensures Holds(place[slot := next], q, p)
  {
  }

  lemma {:induction false} ReversedHolds(q: seq<nat>)
    ensures |Reversed(q)| == |q| && forall i :: i in Reversed(q) <==> i in q
    ensures Distinct(q) ==> Distinct(Reversed(q))
  {
    if q != [] {
      ReversedHolds(q[1..]);
      assert forall i :: i in q <==> i == q[0] || i in q[1..];
      if Distinct(q) {
        assert forall j :: 0 <= j < |q[1..]| ==> q[1..][j] == q[j + 1];
        assert q[0] !in Reversed(q[1..]);
      }
    }
  }

  lemma SendTakeKeeps(s: State, t: Thread, timeout: int, suspends: bool, order: Order, prio: Thread -> nat)
    requires Inv(s) && t !in s.senders.blocked && (s.unused != [] ==> s.unused[0] < |s.place|)
    ensures Inv(SendTake(s, t, timeout, suspends, order, prio).0)
  {
    ResumeCovers(s.senders, t, |s.unused|);
    if s.unused == [] {
      assert Covered(Resume(s.senders, t), 0);
      BlockCovers(Resume(s.senders, t), t, order, prio);
    } else {
      HoldsPop(s.place, s.unused, Unused, Sending(t));
      HoldsOther(s.place, s.queue, Queued, s.unused[0], Sending(t));
    }
    hide Covered, Block, Holds;
  }

  lemma UrgentTakeKeeps(s: State, t: Thread)
    requires Inv(s) && (s.unused != [] ==> s.unused[0] < |s.place|)
    ensures Inv(UrgentTake(s, t).0)
  {
    if s.unused != [] {
      HoldsPop(s.place, s.unused, Unused, Urgent(t));
      HoldsOther(s.place, s.queue, Queued, s.unused[0], Urgent(t));
    }
    hide Holds;
  }

  lemma LinkKeeps(s: State, slot: nat, message: Message)
    requires Inv(s) && slot < |s.place| && (s.place[slot].Sending? || s.place[slot].Urgent?)
    ensures Inv(Link(s, slot, message))
  {
    HoldsAdd(s.place, s.queue, Queued, slot);
    HoldsOther(s.place, s.unused, Unused, slot, Queued);
    WakeCovers(s.receivers, |s.queue|);
    hide Covered, Wake, Holds;
  }

  lemma RecvTakeKeeps(s: State, t: Thread, timeout: int, suspends: bool, order: Order, prio: Thread -> nat)
    requires Inv(s) && t !in s.receivers.blocked && (s.queue != [] ==> s.queue[0] < |s.place|)
    ensures Inv(RecvTake(s, t, timeout, suspends, order, prio).0)
  {
    ResumeCovers(s.receivers, t, |s.queue|);
    if s.queue == [] {
      assert Covered(Resume(s.receivers, t), 0);
      BlockCovers(Resume(s.receivers, t), t, order, prio);
    } else {
      HoldsPop(s.place, s.queue, Queued, Receiving(t, s.data[s.queue[0]]));
      HoldsOther(s.place, s.unused, Unused, s.queue[0], Receiving(t, s.data[s.queue[0]]));
    }
    hide Covered, Block, Holds;
  }

  lemma ReleaseKeeps(s: State, slot: nat)
    requires Inv(s) && slot < |s.place| && s.place[slot].Receiving?
    ensures Inv(Release(s, slot).0)
  {
    HoldsAdd(s.place, s.unused, Unused, slot);
    HoldsOther(s.place, s.queue, Queued, slot, Unused);
    WakeCovers(s.senders, |s.unused|);
    hide Covered, Wake, Holds;
  }

  lemma ResetKeeps(s: State)
    requires Inv(s)
    ensures Inv(Reset(s))
  {
    var r, place := Reversed(s.queue), Reset(s).place;
    ReversedHolds(s.queue);
    assert Distinct(r + s.unused) by {
      forall i, j | 0 <= i < |r| && 0 <= j < |s.unused| ensures r[i] != s.unused[j] {
        assert r[i] in s.queue && s.unused[j] in s.unused;
      }
    }
    forall i: nat ensures i in r + s.unused <==> i < |place| && place[i] == Unused {
      assert i in r + s.unused <==> i in s.queue || i in s.unused;
    }
    assert Holds(place, r + s.unused, Unused) && Holds(place, [], Queued);
    hide Holds, Reversed;
  }

  lemma StepKeeps(s: State, step: Step)
    requires Inv(s) && Enabled(s, step)
    ensures Inv(Apply(s, step)) && |Apply(s, step).place| == |s.place|
  {
    assert s.unused != [] ==> s.unused[0] in s.unused;
    assert s.queue != [] ==> s.queue[0] in s.queue;
    match step
    case SendTakeStep(t, timeout, suspends, order, prio) => SendTakeKeeps(s, t, timeout, suspends, order, prio);
    case UrgentTakeStep(t) => UrgentTakeKeeps(s, t);
    case LinkStep(t, slot, message) => LinkKeeps(s, slot, message);
    case RecvTakeStep(t, timeout, suspends, order, prio) => RecvTakeKeeps(s, t, timeout, suspends, order, prio);
    case ReleaseStep(t, slot) => ReleaseKeeps(s, slot);
    case ReceiverLeaves(t, error) => LeaveCovers(s.receivers, t, error, |s.queue|);
    case SenderLeaves(t, error) => LeaveCovers(s.senders, t, error, |s.unused|);
    case ResetStep => ResetKeeps(s);
  }

  /** In every run each slot stays in exactly one place - on the queue, on the free list, or in one call's hands - and
      no wakeup is lost. */
  lemma SlotsConserved(s: State, steps: seq<Step>, slot: nat)
    requires Inv(s) && Run(s, steps) && slot < |s.place|
    ensures var end := After(s, steps);
            && |end.place| == |s.place| && Distinct(end.queue) && Distinct(end.unused)
            && (slot in end.queue <==> end.place[slot] == Queued)
            && (slot in end.unused <==> end.place[slot] == Unused)
            && |end.queue| + |end.unused| <= |s.place|
            && (end.receivers.blocked != [] ==> |Woken(end.receivers)| >= |end.queue|)
            && (end.senders.blocked != [] ==> |Woken(end.senders)| >= |end.unused|)
    decreases |steps|
  {
    if steps != [] {
      StepKeeps(s, steps[0]);
      SlotsConserved(Apply(s, steps[0]), steps[1..], slot);
    } else {
      ListsFit(s);
    }
  }

  ghost function Below(n: nat): (r: set<nat>)
    ensures |r| == n && forall i: nat :: i in r <==> i < n
  {
    if n == 0 then {} else
      var rest := Below(n - 1);
      assert n - 1 !in rest;
      rest + {n - 1}
  }

  // Distinct slots below a bound are no more than the bound.
  lemma DistinctFit(q: seq<nat>, bound: nat)
    requires Distinct(q) && forall i :: i in q ==> i < bound
    ensures |q| <= bound
  {
    var elements := SizeOfDistinct(q);
    assert Below(bound) == elements + (Below(bound) - elements);
  }

  lemma {:induction false} SizeOfDistinct(q: seq<nat>) returns (elements: set<nat>)
    requires Distinct(q)
    ensures |elements| == |q| && forall i :: i in elements <==> i in q
  {
    if q == [] {
      elements := {};
    } else {
      assert forall j :: 0 <= j < |q[1..]| ==> q[1..][j] == q[j + 1];
      var rest := SizeOfDistinct(q[1..]);
      assert q[0] !in q[1..];
      elements := rest + {q[0]};
    }
  }

  lemma ListsFit(s: State)
    requires Inv(s)
    ensures |s.queue| + |s.unused| <= |s.place|
  {
    var both := s.queue + s.unused;
    assert forall i, j :: 0 <= i < |s.queue| && 0 <= j < |s.unused| ==>
      s.queue[i] in s.queue && s.unused[j] in s.unused;
    DistinctFit(both, |s.place|);
  }

  // While some slot is off the queue, `entry` can still be counted up.
  lemma EntryFits(s: State, slot: nat)
    requires Inv(s) && slot < |s.place| && s.place[slot] != Queued
    ensures |s.queue| < |s.place|
  {
    assert slot !in s.queue;
    DistinctFit(s.queue + [slot], |s.place|);
  }

  // The messages on the queue, in link order.
  ghost function Messages(s: State): seq<Message>
    requires Inv(s)
  {
    Pick(s.data, s.queue)
  }

  ghost function Pick(data: seq<Message>, q: seq<nat>): (r: seq<Message>)
    requires forall i :: i in q ==> i < |data|
    ensures |r| == |q|
  {
    seq(|q|, i requires 0 <= i < |q| => (assert q[i] in q; data[q[i]]))
  }

  lemma PickOfSum(data: seq<Message>, a: seq<nat>, b: seq<nat>)
    requires forall i :: i in a || i in b ==> i < |data|
    ensures Pick(data, a + b) == Pick(data, a) + Pick(data, b)
  {
  }

  lemma PickElsewhere(data: seq<Message>, q: seq<nat>, slot: nat, message: Message)
    requires (forall i :: i in q ==> i < |data|) && slot < |data| && slot !in q
    ensures Pick(data[slot := message], q) == Pick(data, q)
  {
    assert forall i :: 0 <= i < |q| ==> q[i] in q && q[i] != slot;
  }

  /** The queue behaves as a sequence of messages: a send appends, an urgent send prepends, a receive takes the first,
      and nothing else changes it but a reset. */
  lemma ActsAsSequence(s: State, step: Step)
    requires Inv(s) && Enabled(s, step)
    ensures Inv(Apply(s, step))
    ensures Messages(Apply(s, step)) ==
            match step
            case LinkStep(_, slot, message) =>
              if s.place[slot].Urgent? then [message] + Messages(s) else Messages(s) + [message]
            case RecvTakeStep(t, _, _, _, _) =>
              if Failed(s.receivers, t) || s.queue == [] then Messages(s) else Messages(s)[1..]
            case ResetStep => []
            case _ => Messages(s)
  {
    hide Inv, Covered, Holds, Distinct, Wake, Block, Leave, Reversed, Link;
    StepKeeps(s, step);
    QueueInData(s);
    if step.LinkStep? {
      LinkActs(s, step.slot, step.message);
    }
    match step
    case SendTakeStep(_, _, _, _, _) =>
    case UrgentTakeStep(_) =>
    case LinkStep(_, _, _) =>
    case RecvTakeStep(_, _, _, _, _) =>
    case ReleaseStep(_, _) =>
    case ReceiverLeaves(_, _) =>
    case SenderLeaves(_, _) =>
    case ResetStep =>
  }

  lemma QueueInData(s: State)
    requires Inv(s)
    ensures |s.place| == |s.data| && forall i :: 0 <= i < |s.queue| ==> s.queue[i] in s.queue && s.queue[i] < |s.data|
  {
    hide Covered, Distinct;
    assert forall i :: 0 <= i < |s.queue| ==> s.queue[i] in s.queue;
  }

  lemma LinkActs(s: State, slot: nat, message: Message)
    requires Inv(s) && slot < |s.place| && (s.place[slot].Sending? || s.place[slot].Urgent?)
    requires Inv(Link(s, slot, message))
    ensures Messages(Link(s, slot, message)) == if s.place[slot].Urgent? then [message] + Messages(s)
      else Messages(s) + [message]
  {
    assert slot !in s.queue;
    var data := s.data[slot := message];
    assert Pick(data, [slot]) == [message];
    PickElsewhere(s.data, s.queue, slot, message);
    PickOfSum(data, [slot], s.queue);
    PickOfSum(data, s.queue, [slot]);
    hide Inv, Covered, Holds, Wake, Pick;
  }

  // A receiver gets the message that was first on the queue when it took the slot, whatever happened since.
  lemma ReceivesWhatItTook(s: State, t: Thread, steps: seq<Step>, slot: nat, message: Message)
    requires Inv(s) && Run(s, steps) && slot < |s.place| && s.place[slot] == Receiving(t, message)
    requires forall i :: 0 <= i < |steps| && steps[i].ReleaseStep? ==> steps[i].slot != slot
    ensures var end := After(s, steps);
            slot < |end.place| && end.place[slot] == Receiving(t, message) && Release(end, slot).1 == Received(message)
    decreases |steps|
  {
    if steps != [] {
      StepKeeps(s, steps[0]);
      assert s.unused != [] ==> s.unused[0] in s.unused;
      assert s.queue != [] ==> s.queue[0] in s.queue;
      ReceivesWhatItTook(Apply(s, steps[0]), t, steps[1..], slot, message);
    }
  }

  /** A send takes a free slot exactly if there is one and the thread was not resumed with an error. Without one it
      returns Full exactly at timeout zero, and otherwise waits unless a signal is pending. It touches no other slot. */
  lemma SendTakeTells(s: State, t: Thread, timeout: int, suspends: bool, order: Order, prio: Thread -> nat)
    requires Inv(s) && t !in s.senders.blocked
    ensures s.unused != [] ==> s.unused[0] < |s.place|
    ensures var (s', outcome) := SendTake(s, t, timeout, suspends, order, prio);
            var runs, none := !Failed(s.senders, t), forall i :: 0 <= i < |s.place| ==> s.place[i] != Unused;
            && (outcome.Taken? <==> runs && !none)
            && (outcome.Taken? ==> outcome.slot < |s.place| && s.place[outcome.slot] == Unused)
            && (outcome.Taken? ==> s'.place == s.place[outcome.slot := Sending(t)])
            && (!outcome.Taken? ==> s'.place == s.place)
            && (outcome == Full <==> runs && none && timeout == 0)
            && (outcome == Blocked <==> runs && none && timeout != 0 && suspends)
            && (outcome == Blocked <==> t in s'.senders.blocked)
            && (!runs ==> outcome == Returned(s.senders.ready[t]))
            && (runs && none && timeout != 0 && !suspends ==> outcome == Returned(EIntr))
            && s'.data == s.data && s'.queue == s.queue && s'.receivers == s.receivers
  {
    hide Covered, Distinct, Suspended;
    assert s.unused != [] ==> s.unused[0] in s.unused;
  }

  /** An urgent send never waits: it takes a free slot exactly if there is one. */
  lemma UrgentTakeTells(s: State, t: Thread)
    requires Inv(s)
    ensures s.unused != [] ==> s.unused[0] < |s.place|
    ensures var (s', outcome) := UrgentTake(s, t);
            var none := forall i :: 0 <= i < |s.place| ==> s.place[i] != Unused;
            && (if none then outcome == Full && s' == s else outcome.Taken?)
            && (outcome.Taken? ==> outcome.slot < |s.place| && s.place[outcome.slot] == Unused)
            && (outcome.Taken? ==> s'.place == s.place[outcome.slot := Urgent(t)])
            && s'.data == s.data && s'.queue == s.queue && s'.receivers == s.receivers && s'.senders == s.senders
  {
    hide Covered, Distinct;
    assert s.unused != [] ==> s.unused[0] in s.unused;
  }

  /** A receive takes the first message exactly if there is one and the thread was not resumed with an error. Without
      one it times out exactly at timeout zero, and otherwise waits unless a signal is pending. */
  lemma RecvTakeTells(s: State, t: Thread, timeout: int, suspends: bool, order: Order, prio: Thread -> nat)
    requires Inv(s) && t !in s.receivers.blocked
    ensures |s.place| == |s.data| && (s.queue != [] ==> s.queue[0] < |s.place|)
    ensures var (s', outcome) := RecvTake(s, t, timeout, suspends, order, prio);
            var runs, empty := !Failed(s.receivers, t), Messages(s) == [];
            && (outcome.Taken? <==> runs && !empty)
            && (outcome.Taken? ==> outcome.slot < |s.place| && s.place[outcome.slot] == Queued)
            && (outcome.Taken? ==> s'.place == s.place[outcome.slot := Receiving(t, Messages(s)[0])])
            && (!outcome.Taken? ==> s'.place == s.place)
            && (runs && empty && timeout == 0 ==> outcome == Returned(ETimeout))
            && (outcome == Blocked <==> runs && empty && timeout != 0 && suspends)
            && (outcome == Blocked <==> t in s'.receivers.blocked)
            && (!runs ==> outcome == Returned(s.receivers.ready[t]))
            && (runs && empty && timeout != 0 && !suspends ==> outcome == Returned(EIntr))
            && s'.data == s.data && s'.unused == s.unused && s'.senders == s.senders
  {
    hide Covered, Distinct, Suspended;
    assert s.queue != [] ==> s.queue[0] in s.queue;
  }

  // What a step adds to the messages linked since the last reset.
  function SentBy(step: Step, before: seq<Message>): seq<Message> {
    match step
    case LinkStep(_, _, message) => before + [message]
    case ResetStep => []
    case _ => before
  }

  // What it adds to the messages that receivers have taken, by the outcome of the call.
  function TakenBy(s: State, step: Step, before: seq<Message>): seq<Message>
    requires Inv(s) && Enabled(s, step)
  {
    match step
    case RecvTakeStep(t, timeout, suspends, order, prio) =>
      RecvTakeTells(s, t, timeout, suspends, order, prio);
      var (after, outcome) := RecvTake(s, t, timeout, suspends, order, prio);
      if outcome.Taken? then before + [after.place[outcome.slot].message] else before
    case ResetStep => []
    case _ => before
  }

  function Sent(steps: seq<Step>, before: seq<Message>): seq<Message> {
    if steps == [] then before else Sent(steps[1..], SentBy(steps[0], before))
  }

  function TakenOff(s: State, steps: seq<Step>, before: seq<Message>): seq<Message>
    requires Inv(s) && Run(s, steps)
    decreases |steps|
  {
    if steps == [] then before
    else (StepKeeps(s, steps[0]); TakenOff(Apply(s, steps[0]), steps[1..], TakenBy(s, steps[0], before)))
  }

  // The step links no urgent message.
  predicate Ordinary(s: State, step: Step) {
    step.LinkStep? ==> step.slot < |s.place| && s.place[step.slot].Sending?
  }

  predicate AllOrdinary(s: State, steps: seq<Step>)
    requires Inv(s) && Run(s, steps)
    decreases |steps|
  {
    steps == [] || (Ordinary(s, steps[0]) && (StepKeeps(s, steps[0]); AllOrdinary(Apply(s, steps[0]), steps[1..])))
  }

  lemma StepTakes(s: State, step: Step, sent: seq<Message>, taken: seq<Message>)
    requires Inv(s) && Enabled(s, step) && multiset(sent) == multiset(taken + Messages(s))
    ensures Inv(Apply(s, step))
    ensures multiset(SentBy(step, sent)) == multiset(TakenBy(s, step, taken) + Messages(Apply(s, step)))
    ensures Ordinary(s, step) && sent == taken + Messages(s) ==>
              SentBy(step, sent) == TakenBy(s, step, taken) + Messages(Apply(s, step))
  {
    hide Inv, Messages, Apply, RecvTake, TakenBy, Failed;
    ActsAsSequence(s, step);
    var was, now := Messages(s), Messages(Apply(s, step));
    TakenByIs(s, step, taken);
    if step.LinkStep? {
      SentStep(sent, taken, was, now, step.message);
    }
  }

  lemma SentStep(sent: seq<Message>, taken: seq<Message>, was: seq<Message>, now: seq<Message>, message: Message)
    requires multiset(sent) == multiset(taken + was) && (now == was + [message] || now == [message] + was)
    ensures multiset(sent + [message]) == multiset(taken + now)
    ensures now == was + [message] && sent == taken + was ==> sent + [message] == taken + now
  {
    assert multiset(taken + now) == multiset(taken) + multiset(now);
  }

  lemma TakenByIs(s: State, step: Step, taken: seq<Message>)
    requires Inv(s) && Enabled(s, step)
    ensures Inv(Apply(s, step))
    ensures step.RecvTakeStep? ==> TakenBy(s, step, taken) + Messages(Apply(s, step)) == taken + Messages(s)
    ensures step.ResetStep? ==> TakenBy(s, step, taken) == []
    ensures !step.RecvTakeStep? && !step.ResetStep? ==> TakenBy(s, step, taken) == taken
  {
    hide Inv, Messages, Apply, RecvTake, Failed;
    ActsAsSequence(s, step);
    if step.RecvTakeStep? {
      RecvTakeTells(s, step.t, step.timeout, step.suspends, step.order, step.prio);
      TakesFirst(s);
      QueueInData(s);
      FirstMoves(taken, Messages(s));
      if RecvTake(s, step.t, step.timeout, step.suspends, step.order, step.prio).1.Taken? {
        assert TakenBy(s, step, taken) == taken + [Messages(s)[0]];
        assert Messages(Apply(s, step)) == Messages(s)[1..];
      } else {
        assert Messages(Apply(s, step)) == Messages(s);
      }
    }
  }

  lemma FirstMoves(taken: seq<Message>, was: seq<Message>)
    ensures was != [] ==> (taken + [was[0]]) + was[1..] == taken + was
  {
  }

  lemma TakesFirst(s: State)
    requires Inv(s)
    ensures Messages(s) == [] <==> s.queue == []
  {
  }

  /** In every run each message that was linked has been taken once or is on the queue, and without urgent messages they
      are taken in the order in which they were linked. */
  lemma {:induction false} TakenInOrder(s: State, steps: seq<Step>, sent: seq<Message>, taken: seq<Message>)
    requires Inv(s) && Run(s, steps) && multiset(sent) == multiset(taken + Messages(s))
    ensures multiset(Sent(steps, sent)) == multiset(TakenOff(s, steps, taken) + Messages(After(s, steps)))
    ensures AllOrdinary(s, steps) && sent == taken + Messages(s) ==>
              Sent(steps, sent) == TakenOff(s, steps, taken) + Messages(After(s, steps))
    decreases |steps|
  {
    hide Inv, Messages, Apply, Enabled, SentBy, TakenBy, Ordinary;
    if steps != [] {
      StepKeeps(s, steps[0]);
      StepTakes(s, steps[0], sent, taken);
      TakenInOrder(Apply(s, steps[0]), steps[1..], SentBy(steps[0], sent), TakenBy(s, steps[0], taken));
    }
  }

  const NULL := -1

  function Last(q: seq<nat>): int {
    if q == [] then NULL else q[|q| - 1]
  }

  // Following `next` from `head` runs through exactly the slots of q.
  ghost predicate Linked(next: seq<int>, head: int, q: seq<nat>)
    decreases |q|
  {
    if q == [] then head == NULL
    else head == q[0] && q[0] < |next| && Linked(next, next[q[0]], q[1..])
  }

  lemma LinkedNone(next: seq<int>)
    ensures Linked(next, NULL, [])
  {
  }

  lemma AllUnused(s: State)
    requires |s.place| == |s.data| && s.queue == [] && s.receivers == s.senders == NoWaiters
    requires Distinct(s.unused) && (forall i: nat :: i in s.unused <==> i < |s.place|)
    requires forall i :: 0 <= i < |s.place| ==> s.place[i] == Unused
    ensures Inv(s)
  {
  }

  lemma LinkedEmpty(next: seq<int>, head: int, q: seq<nat>)
    requires Linked(next, head, q)
    ensures if q == [] then head == NULL else head == q[0] && q[0] in q && Linked(next, next[q[0]], q[1..])
  {
  }

  lemma {:induction false} LinkedElsewhere(next: seq<int>, head: int, q: seq<nat>, slot: nat, v: int)
    requires Linked(next, head, q) && slot < |next| && slot !in q
    ensures Linked(next[slot := v], head, q)
    decreases |q|
  {
    if q != [] {
      LinkedElsewhere(next, next[q[0]], q[1..], slot, v);
    }
  }

  lemma LinkedPush(next: seq<int>, head: int, q: seq<nat>, slot: nat)
    requires Linked(next, head, q) && slot < |next| && slot !in q
    ensures Linked(next[slot := head], slot, [slot] + q)
  {
    LinkedElsewhere(next, head, q, slot, head);
    assert ([slot] + q)[1..] == q;
  }

  // Storing the new slot in the last one's `next`, as a send does when there is a tail.
  lemma {:induction false} LinkedAppend(next: seq<int>, head: int, q: seq<nat>, slot: nat)
    requires Linked(next, head, q) && Distinct(q) && slot < |next| && slot !in q && next[slot] == NULL
    ensures forall i :: i in q ==> i < |next|
    ensures q == [] ==> Linked(next, slot, [slot])
    ensures q != [] ==> q[|q| - 1] < |next| && Linked(next[q[|q| - 1] := slot], head, q + [slot])
    decreases |q|
  {
    if q != [] {
      var rest := q[1..];
      assert forall j :: 0 <= j < |rest| ==> rest[j] == q[j + 1];
      LinkedAppend(next, next[q[0]], rest, slot);
      assert forall i :: i in q ==> i == q[0] || i in rest;
      assert (q + [slot])[1..] == rest + [slot];
      if rest == [] {
        LinkedElsewhere(next, slot, [slot], q[0], slot);
      } else {
        assert q[0] != rest[|rest| - 1];
      }
    }
  }

  class MessageQueue {
    const maxMsgs: nat
    const next: array<int>
    const data: array<Message>
    var head: int
    var tail: int
    var free: int
    var entry: nat
    var receivers: Waiters
    var senders: Waiters
    ghost var place: seq<Place>
    ghost var queue: seq<nat>
    ghost var unused: seq<nat>

    ghost function View(): State
      reads this, data
    {
      State(place, data[..], queue, unused, receivers, senders)
    }

    ghost predicate Valid()
      reads this, next, data
    {
      && next.Length == data.Length == |place| == maxMsgs <= MQ_ENTRY_MAX && entry == |queue|
      && Inv(View())
      && Linked(next[..], head, queue) && tail == Last(queue) && Linked(next[..], free, unused)
    }

    // What Valid says, one by one.
    lemma ValidParts()
      requires Valid()
      ensures next.Length == data.Length == |place| == maxMsgs <= MQ_ENTRY_MAX && entry == |queue| && NULL == -1
      ensures Inv(View()) && View() == State(place, data[..], queue, unused, receivers, senders)
      ensures Linked(next[..], head, queue) && tail == Last(queue) && Linked(next[..], free, unused)
      ensures Distinct(queue) && (forall i :: i in queue ==> i !in unused && i < next.Length)
      ensures forall i :: i in unused ==> i < next.Length
      ensures forall i :: 0 <= i < |place| ==>
        (i in queue <==> place[i] == Queued) && (i in unused <==> place[i] == Unused)
      ensures (queue == [] <==> head == NULL) && (unused == [] <==> free == NULL)
      ensures (queue != [] ==> head == queue[0] && queue[0] in queue)
      ensures unused != [] ==> free == unused[0] && unused[0] in unused
    {
      hide Covered, Distinct;
    }

    lemma IsValid()
      requires next.Length == data.Length == |place| == maxMsgs <= MQ_ENTRY_MAX && entry == |queue|
      requires Inv(State(place, data[..], queue, unused, receivers, senders))
      requires Linked(next[..], head, queue) && tail == Last(queue) && Linked(next[..], free, unused)
      ensures Valid() && View() == State(place, data[..], queue, unused, receivers, senders)
    {
    }

    // rt_mq_init: each slot in turn is pushed on the free list.
    constructor (maxMsgs: nat)
      requires maxMsgs <= MQ_ENTRY_MAX
      ensures Valid() && this.maxMsgs == maxMsgs && queue == [] && |unused| == maxMsgs
      ensures receivers == senders == NoWaiters
    {
      hide Linked, Holds, Covered;
      this.maxMsgs := maxMsgs;
      next, data := new int[maxMsgs](i => NULL), new Message[maxMsgs](i => []);
      head, tail, free, entry := NULL, NULL, NULL, 0;
      receivers, senders := NoWaiters, NoWaiters;
      place, queue, unused := seq(maxMsgs, i => Unused), [], [];
      new;
      var temp := 0;
      LinkedNone(next[..]);
      while temp < maxMsgs
        invariant temp <= maxMsgs && next.Length == maxMsgs && data.Length == maxMsgs
        invariant head == NULL && tail == NULL && entry == 0 && receivers == senders == NoWaiters
        invariant queue == [] && place == seq(maxMsgs, i => Unused)
        invariant |unused| == temp && Distinct(unused) && forall i: nat :: i in unused <==> i < temp
        invariant Linked(next[..], free, unused) && fresh(next) && fresh(data)
      {
        ghost var was := next[..];
        LinkedPush(was, free, unused, temp);
        next[temp] := free;
        assert next[..] == was[temp := free];
        free, unused := temp, [temp] + unused;
        temp := temp + 1;
      }
      LinkedNone(next[..]);
      AllUnused(View());
    }

    // The first critical section of _rt_mq_send_wait.
    method TakeToSend(t: Thread, timeout: int, suspends: bool, order: Order, prio: Thread -> nat)
      returns (outcome: Outcome)
      requires Valid() && t !in senders.blocked
      modifies this
      ensures Valid() && old(unused != [] ==> unused[0] < |place|)
      ensures (View(), outcome) == old(SendTake(View(), t, timeout, suspends, order, prio))
    {
      hide Valid, Inv, Holds, Covered, Distinct, Suspended, Last;
      ValidParts();
      SendTakeKeeps(View(), t, timeout, suspends, order, prio);
      var failed, error := Failed(senders, t), if t in senders.ready then senders.ready[t] else EOk;
      senders := Resume(senders, t);
      if failed {
        IsValid();
        return Returned(error);
      }
      var msg := free;
      if msg == NULL {
        if timeout == 0 {
          IsValid();
          return Full;
        }
        if !suspends {
          IsValid();
          return Returned(EIntr);
        }
        var blocked := Suspend(senders.blocked, t, order, prio);
        senders := senders.(blocked := blocked);
        IsValid();
        return Blocked;
      }
      free := next[msg];
      place, unused := place[msg := Sending(t)], unused[1..];
      IsValid();
      return Taken(msg);
    }

    // The first critical section of rt_mq_urgent.
    method TakeUrgent(t: Thread) returns (outcome: Outcome)
      requires Valid()
      modifies this
      ensures Valid() && old(unused != [] ==> unused[0] < |place|)
      ensures (View(), outcome) == old(UrgentTake(View(), t))
    {
      assert unused != [] ==> unused[0] in unused;
      UrgentTakeKeeps(View(), t);
      var msg := free;
      if msg == NULL {
        return Full;
      }
      free := next[msg];
      place, unused := place[msg := Urgent(t)], unused[1..];
      return Taken(msg);
    }

    // Linking a message behind the tail.
    method Append(msg: nat)
      requires Linked(next[..], head, queue) && tail == Last(queue) && Linked(next[..], free, unused)
      requires Distinct(queue) && forall i :: i in queue ==> i !in unused
      requires msg < next.Length && msg !in queue && msg !in unused
      modifies this`head, this`tail, this`queue, next
      ensures queue == old(queue) + [msg]
      ensures Linked(next[..], head, queue) && tail == Last(queue) && Linked(next[..], free, unused)
    {
      LinkedElsewhere(next[..], head, queue, msg, NULL);
      LinkedElsewhere(next[..], free, unused, msg, NULL);
      next[msg] := NULL;
      LinkedAppend(next[..], head, queue, msg);
      if tail != NULL {
        assert queue[|queue| - 1] in queue;
        LinkedElsewhere(next[..], free, unused, tail, msg);
        next[tail] := msg;
      }
      tail := msg;
      if head == NULL {
        head := msg;
      }
      queue := queue + [msg];
      hide Linked, Distinct;
    }

    // Linking a message before the head.
    method Prepend(msg: nat)
      requires Linked(next[..], head, queue) && tail == Last(queue) && Linked(next[..], free, unused)
      requires msg < next.Length && msg !in queue && msg !in unused
      modifies this`head, this`tail, this`queue, next
      ensures queue == [msg] + old(queue)
      ensures Linked(next[..], head, queue) && tail == Last(queue) && Linked(next[..], free, unused)
    {
      hide Linked;
      LinkedPush(next[..], head, queue, msg);
      LinkedElsewhere(next[..], free, unused, msg, head);
      next[msg] := head;
      head := msg;
      if tail == NULL {
        tail := msg;
      }
      queue := [msg] + queue;
      assert next[..] == old(next[..])[msg := old(head)];
    }

    // The copy and the second critical section of _rt_mq_send_wait. The branch for a full `entry` counter is dead.
    method LinkAtTail(msg: nat, message: Message)
      requires Valid() && msg < |place| && place[msg].Sending?
      modifies this, next, data
      ensures Valid() && View() == old(Link(View(), msg, message))
    {
      hide *;
      ValidParts();
      LinkKeeps(View(), msg, message);
      EntryFits(View(), msg);
      LinkIs(View(), msg, message);
      data[msg] := message;
      Append(msg);
      if entry < MQ_ENTRY_MAX {
        entry := entry + 1;
      } else {
        assert false;
      }
      place := place[msg := Queued];
      receivers := Wake(receivers);
      assert data[..] == old(data[..])[msg := message];
      IsValid();
    }

    // The copy and the second critical section of rt_mq_urgent.
    method LinkAtHead(msg: nat, message: Message)
      requires Valid() && msg < |place| && place[msg].Urgent?
      modifies this, next, data
      ensures Valid() && View() == old(Link(View(), msg, message))
    {
      hide *;
      ValidParts();
      LinkKeeps(View(), msg, message);
      EntryFits(View(), msg);
      LinkIs(View(), msg, message);
      data[msg] := message;
      Prepend(msg);
      if entry < MQ_ENTRY_MAX {
        entry := entry + 1;
      } else {
        assert false;
      }
      place := place[msg := Queued];
      receivers := Wake(receivers);
      assert data[..] == old(data[..])[msg := message];
      IsValid();
    }

    // Moving the head of the queue on.
    method Unlink() returns (msg: nat)
      requires Linked(next[..], head, queue) && tail == Last(queue) && Distinct(queue) && head != NULL
      modifies this`head, this`tail, this`queue
      ensures queue == old(queue)[1..] && msg == old(queue)[0] < next.Length && msg !in queue
      ensures Linked(next[..], head, queue) && tail == Last(queue) && Distinct(queue)
    {
      msg := head;
      assert forall j :: 0 <= j < |queue[1..]| ==> queue[1..][j] == queue[j + 1];
      head := next[msg];
      if tail == msg {
        tail := NULL;
      }
      queue := queue[1..];
    }

    // The first critical section of _rt_mq_recv.
    method TakeToReceive(t: Thread, timeout: int, suspends: bool, order: Order, prio: Thread -> nat)
      returns (outcome: Outcome)
      requires Valid() && t !in receivers.blocked
      modifies this
      ensures Valid() && old(queue != [] ==> queue[0] < |place|)
      ensures (View(), outcome) == old(RecvTake(View(), t, timeout, suspends, order, prio))
    {
      hide Valid, Linked, Inv, Holds, Covered, Distinct, Suspended, Last;
      ValidParts();
      RecvTakeKeeps(View(), t, timeout, suspends, order, prio);
      var failed, error := Failed(receivers, t), if t in receivers.ready then receivers.ready[t] else EOk;
      receivers := Resume(receivers, t);
      if failed {
        IsValid();
        return Returned(error);
      }
      if entry == 0 {
        if timeout == 0 {
          IsValid();
          return Returned(ETimeout);
        }
        if !suspends {
          IsValid();
          return Returned(EIntr);
        }
        var blocked := Suspend(receivers.blocked, t, order, prio);
        receivers := receivers.(blocked := blocked);
        IsValid();
        return Blocked;
      }
      var msg := Unlink();
      entry := entry - 1;
      place := place[msg := Receiving(t, data[msg])];
      IsValid();
      return Taken(msg);
    }

    // The copy and the second critical section of _rt_mq_recv.
    method PutBack(msg: nat) returns (outcome: Outcome)
      requires Valid() && msg < |place| && place[msg].Receiving?
      modifies this, next
      ensures Valid() && (View(), outcome) == old(Release(View(), msg))
    {
      hide *;
      ValidParts();
      ReleaseKeeps(View(), msg);
      ReleaseIs(View(), msg);
      LinkedPush(next[..], free, unused, msg);
      LinkedElsewhere(next[..], head, queue, msg, free);
      outcome := Received(data[msg]);
      next[msg] := free;
      free := msg;
      place, unused := place[msg := Unused], [msg] + unused;
      senders := Wake(senders);
      assert next[..] == old(next[..])[msg := old(free)];
      IsValid();
    }

    // The loop of rt_mq_control that moves every queued slot to the front of the free list.
    method ReleaseAll()
      requires Valid()
      modifies this`head, this`tail, this`free, this`queue, this`unused, next
      ensures head == tail == NULL && queue == [] && unused == Reversed(old(queue)) + old(unused)
      ensures Linked(next[..], free, unused)
    {
      hide Valid, Linked, Distinct;
      ValidParts();
      while head != NULL
        invariant Linked(next[..], head, queue) && Linked(next[..], free, unused) && tail == Last(queue)
        invariant Distinct(queue) && forall i :: i in queue ==> i !in unused && i < next.Length
        invariant Reversed(queue) + unused == Reversed(old(queue)) + old(unused)
        decreases |queue|
      {
        MoveHead();
      }
      LinkedEmpty(next[..], head, queue);
    }

    // One turn of the loop.
    method MoveHead()
      requires Linked(next[..], head, queue) && Linked(next[..], free, unused) && tail == Last(queue)
      requires Distinct(queue) && (forall i :: i in queue ==> i !in unused && i < next.Length) && head != NULL
      modifies this`head, this`tail, this`free, this`queue, this`unused, next
      ensures Linked(next[..], head, queue) && Linked(next[..], free, unused) && tail == Last(queue)
      ensures Distinct(queue) && (forall i :: i in queue ==> i !in unused && i < next.Length) && |queue| < |old(queue)|
      ensures Reversed(queue) + unused == Reversed(old(queue)) + old(unused)
    {
      hide Linked, Distinct;
      LinkedEmpty(next[..], head, queue);
      assert head in queue;
      var msg := Unlink();
      LinkedPush(next[..], free, unused, msg);
      LinkedElsewhere(next[..], head, queue, msg, free);
      next[msg] := free;
      free, unused := msg, [msg] + unused;
      assert next[..] == old(next[..])[msg := old(free)];
      assert Reversed(old(queue)) + old(unused) == Reversed(queue) + unused;
    }

    // rt_mq_control with RT_IPC_CMD_RESET
    method Control()
      requires Valid()
      modifies this, next
      ensures Valid() && View() == old(Reset(View()))
    {
      ghost var end := Reset(View());
      ResetKeeps(View());
      ReleaseAll();
      hide Inv, Linked, Reversed, WakeAll;
      receivers := ResumeAll(receivers);
      senders := ResumeAll(senders);
      entry := 0;
      place := end.place;
      assert View() == end;
    }
  }
}
