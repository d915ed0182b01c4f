/** The mailbox of rt-smart/src/ipc.c, as the critical sections that its blocking calls are made of. */
module Mailbox {
  import opened IpcQueue

  const MB_ENTRY_MAX := 0xffff

  datatype Outcome = Blocked | Returned(error: Error) | Full | Received(mail: int)

  datatype State = State(size: nat, mails: seq<int>, receivers: Waiters, senders: Waiters)

  function Initial(size: nat): State {
    State(size, [], NoWaiters, NoWaiters)
  }

  // One pass of _rt_mb_send_wait from interrupt-disable to interrupt-enable, entered afresh or on resumption.
  function Send(s: State, t: Thread, mail: int, timeout: int, suspends: bool, order: Order,
                prio: Thread -> nat): (State, Outcome) {
    var rest := s.(senders := Resume(s.senders, t));
    if Failed(s.senders, t) then (rest, Returned(s.senders.ready[t]))
    else if |s.mails| == s.size then
      if timeout == 0 then (rest, Full)
      else if !suspends then (rest, Returned(EIntr))
      else (rest.(senders := Block(rest.senders, t, order, prio)), Blocked)
    else (rest.(mails := s.mails + [mail], receivers := Wake(s.receivers)), Returned(EOk))
  }

  // One pass of _rt_mb_recv.
  function Recv(s: State, t: Thread, timeout: int, suspends: bool, order: Order, prio: Thread -> nat)
    : (State, Outcome)
  {
    var rest := s.(receivers := Resume(s.receivers, t));
    if Failed(s.receivers, t) then (rest, Returned(s.receivers.ready[t]))
    else if |s.mails| == 0 then
      if timeout == 0 then (rest, Returned(ETimeout))
      else if !suspends then (rest, Returned(EIntr))
      else (rest.(receivers := Block(rest.receivers, t, order, prio)), Blocked)
    else (rest.(mails := s.mails[1..], senders := Wake(s.senders)), Received(s.mails[0]))
  }

  // RT_IPC_CMD_RESET
  function Reset(s: State): State {
    State(s.size, [], WakeAll(s.receivers), WakeAll(s.senders))
  }

  datatype Step =
    | SendStep(t: Thread, mail: int, timeout: int, suspends: bool, order: Order, prio: Thread -> nat)
    | RecvStep(t: Thread, timeout: int, suspends: bool, order: Order, prio: Thread -> nat)
    | ReceiverLeaves(t: Thread, error: Error)
    | SenderLeaves(t: Thread, error: Error)
    | ResetStep

  // A blocked thread does not run, and it leaves its wait list early only with an error.
  predicate Enabled(s: State, step: Step) {
    match step
    case SendStep(t, _, _, _, _, _) => t !in s.senders.blocked
    case RecvStep(t, _, _, _, _) => t !in s.receivers.blocked
    case ReceiverLeaves(_, error) => error != EOk
    case SenderLeaves(_, error) => error != EOk
    case ResetStep => true
  }

  function Apply(s: State, step: Step): State {
    match step
    case SendStep(t, mail, timeout, suspends, order, prio) => Send(s, t, mail, timeout, suspends, order, prio).0
    case RecvStep(t, timeout, suspends, order, prio) => Recv(s, t, timeout, suspends, order, prio).0
    case ReceiverLeaves(t, error) => s.(receivers := Leave(s.receivers, t, error))
    case SenderLeaves(t, error) => s.(senders := Leave(s.senders, t, error))
    case ResetStep => Reset(s)
  }

  predicate Run(s: State, steps: seq<Step>)
    decreases |steps|
  {
    steps == [] || (Enabled(s, steps[0]) && Run(Apply(s, steps[0]), steps[1..]))
  }

  function After(s: State, steps: seq<Step>): State
    decreases |steps|
  {
    if steps == [] then s else After(Apply(s, steps[0]), steps[1..])
  }

  ghost predicate Inv(s: State) {
    && 0 < s.size && |s.mails| <= s.size
    && Covered(s.receivers, |s.mails|)
    && Covered(s.senders, s.size - |s.mails|)
  }

  lemma SendKeeps(s: State, t: Thread, mail: int, timeout: int, suspends: bool, order: Order, prio: Thread -> nat)
    requires Inv(s) && t !in s.senders.blocked
    ensures Inv(Send(s, t, mail, timeout, suspends, order, prio).0)
  {
    ResumeCovers(s.senders, t, s.size - |s.mails|);
    WakeCovers(s.receivers, |s.mails|);
    if |s.mails| == s.size {
      assert Covered(Resume(s.senders, t), 0);
      BlockCovers(Resume(s.senders, t), t, order, prio);
    }
    hide Covered, Wake, Block;
  }

  lemma RecvKeeps(s: State, t: Thread, timeout: int, suspends: bool, order: Order, prio: Thread -> nat)
    requires Inv(s) && t !in s.receivers.blocked
    ensures Inv(Recv(s, t, timeout, suspends, order, prio).0)
  {
    ResumeCovers(s.receivers, t, |s.mails|);
    WakeCovers(s.senders, s.size - |s.mails|);
    if |s.mails| == 0 {
      assert Covered(Resume(s.receivers, t), 0);
      BlockCovers(Resume(s.receivers, t), t, order, prio);
    }
    hide Covered, Wake, Block;
  }

  lemma StepKeeps(s: State, step: Step)
    requires Inv(s) && Enabled(s, step)
    ensures Inv(Apply(s, step)) && Apply(s, step).size == s.size
  {
    match step
    case SendStep(t, mail, timeout, suspends, order, prio) => SendKeeps(s, t, mail, timeout, suspends, order, prio);
    case RecvStep(t, timeout, suspends, order, prio) => RecvKeeps(s, t, timeout, suspends, order, prio);
    case ReceiverLeaves(t, error) => LeaveCovers(s.receivers, t, error, |s.mails|);
    case SenderLeaves(t, error) => LeaveCovers(s.senders, t, error, s.size - |s.mails|);
    case ResetStep =>
  }

  lemma {:induction false} RunKeeps(s: State, steps: seq<Step>)
    requires Inv(s) && Run(s, steps)
    ensures Inv(After(s, steps)) && After(s, steps).size == s.size
    decreases |steps|
  {
    if steps != [] {
      StepKeeps(s, steps[0]);
      RunKeeps(Apply(s, steps[0]), steps[1..]);
    }
  }

  // The mails that sends have accepted since the last reset, after those before the run, by the outcomes of the calls.
  function Accepted(s: State, steps: seq<Step>, before: seq<int>): seq<int>
    decreases |steps|
  {
    if steps == [] then before
    else
      Accepted(Apply(s, steps[0]), steps[1..],
        match steps[0]
        case SendStep(t, mail, timeout, suspends, order, prio) =>
          if Send(s, t, mail, timeout, suspends, order, prio).1 == Returned(EOk) then before + [mail] else before
        case ResetStep => []
        case _ => before)
  }

  // The mails that receives have returned, likewise.
  function Delivered(s: State, steps: seq<Step>, before: seq<int>): seq<int>
    decreases |steps|
  {
    if steps == [] then before
    else
      Delivered(Apply(s, steps[0]), steps[1..],
        match steps[0]
        case RecvStep(t, timeout, suspends, order, prio) =>
          (match Recv(s, t, timeout, suspends, order, prio).1
           case Received(mail) => before + [mail]
           case _ => before)
        case ResetStep => []
        case _ => before)
  }

  /** In every run the mails accepted are those delivered, in the same order, and behind them those in the mailbox. */
  lemma {:induction false} DeliveredInOrder(s: State, steps: seq<Step>, accepted: seq<int>, delivered: seq<int>)
    requires Run(s, steps) && accepted == delivered + s.mails
    ensures Accepted(s, steps, accepted) == Delivered(s, steps, delivered) + After(s, steps).mails
    decreases |steps|
  {
    if steps != [] {
      var after := Apply(s, steps[0]);
      match steps[0]
      case SendStep(t, mail, timeout, suspends, order, prio) =>
        var sent := Send(s, t, mail, timeout, suspends, order, prio).1 == Returned(EOk);
        assert after.mails == if sent then s.mails + [mail] else s.mails;
        DeliveredInOrder(after, steps[1..], if sent then accepted + [mail] else accepted, delivered);
      case RecvStep(t, timeout, suspends, order, prio) =>
        var outcome := Recv(s, t, timeout, suspends, order, prio).1;
        assert if outcome.Received? then s.mails == [outcome.mail] + after.mails else after.mails == s.mails;
        DeliveredInOrder(after, steps[1..], accepted,
                         if outcome.Received? then delivered + [outcome.mail] else delivered);
      case ResetStep => DeliveredInOrder(after, steps[1..], [], []);
      case _ => DeliveredInOrder(after, steps[1..], accepted, delivered);
    }
  }

  /** A send is accepted exactly if there is a free slot and the thread was not resumed with an error. On a full
      mailbox it returns Full exactly at timeout zero, and otherwise waits unless a signal is pending. Only an
      accepted mail wakes a receiver. */
  lemma SendTells(s: State, t: Thread, mail: int, timeout: int, suspends: bool, order: Order, prio: Thread -> nat)
    requires |s.mails| <= s.size && t !in s.senders.blocked
    ensures var (s', outcome) := Send(s, t, mail, timeout, suspends, order, prio);
            var runs, full := !Failed(s.senders, t), |s.mails| == s.size;
            && (outcome == Returned(EOk) <==> runs && !full)
            && (outcome == Full <==> runs && full && timeout == 0)
            && (outcome == Blocked <==> runs && full && timeout != 0 && suspends)
            && (outcome == Blocked <==> t in s'.senders.blocked)
            && (!runs ==> outcome == Returned(s.senders.ready[t]))
            && (runs && full && timeout != 0 && !suspends ==> outcome == Returned(EIntr))
            && s'.mails == (if outcome == Returned(EOk) then s.mails + [mail] else s.mails)
            && s'.receivers == (if outcome == Returned(EOk) then Wake(s.receivers) else s.receivers)
            && t !in s'.senders.ready && (forall u :: u in s.senders.blocked ==> u in s'.senders.blocked)
  {
  }

  /** A receive likewise: it returns the oldest mail exactly if there is one and the thread was not resumed with an
      error. */
  lemma RecvTells(s: State, t: Thread, timeout: int, suspends: bool, order: Order, prio: Thread -> nat)
    requires t !in s.receivers.blocked
    ensures var (s', outcome) := Recv(s, t, timeout, suspends, order, prio);
            var runs, empty := !Failed(s.receivers, t), s.mails == [];
            && (outcome.Received? <==> runs && !empty) && (runs && !empty ==> [outcome.mail] + s'.mails == s.mails)
            && (runs && empty && timeout == 0 ==> outcome == Returned(ETimeout))
            && (outcome == Blocked <==> runs && empty && timeout != 0 && suspends)
            && (outcome == Blocked <==> t in s'.receivers.blocked)
            && (!runs ==> outcome == Returned(s.receivers.ready[t]))
            && (runs && empty && timeout != 0 && !suspends ==> outcome == Returned(EIntr))
            && (!outcome.Received? ==> s'.mails == s.mails)
            && s'.senders == (if outcome.Received? then Wake(s.senders) else s.senders)
            && t !in s'.receivers.ready && (forall u :: u in s.receivers.blocked ==> u in s'.receivers.blocked)
  {
  }

  /** In every run no wakeup is lost, and the mails delivered are the first of those accepted. */
  lemma NoLostWakeup(size: nat, steps: seq<Step>)
    requires 0 < size && Run(Initial(size), steps)
    ensures var s := After(Initial(size), steps);
            && (s.receivers.blocked != [] ==> |Woken(s.receivers)| >= |s.mails|)
            && (s.senders.blocked != [] ==> |Woken(s.senders)| >= size - |s.mails|)
            && Delivered(Initial(size), steps, []) <= Accepted(Initial(size), steps, []) && |s.mails| <= size
  {
    RunKeeps(Initial(size), steps);
    DeliveredInOrder(Initial(size), steps, [], []);
  }

  // The slot `i` places after `out` in a ring of `size` slots.
  function Slot(out: nat, i: nat, size: nat): nat {
    if out + i < size then out + i else out + i - size
  }

  // The mails in a ring, oldest first.
  function Ring(pool: seq<int>, out: nat, entry: nat): (mails: seq<int>)
    requires out < |pool| && entry <= |pool|
    ensures |mails| == entry
  {
    seq(entry, i requires 0 <= i < entry => pool[Slot(out, i, |pool|)])
  }

  lemma RingStore(pool: seq<int>, out: nat, entry: nat, value: int)
    requires out < |pool| && entry < |pool|
    ensures Ring(pool[Slot(out, entry, |pool|) := value], out, entry + 1) == Ring(pool, out, entry) + [value]
  {
  }

  lemma RingFetch(pool: seq<int>, out: nat, entry: nat)
    requires out < |pool| && 0 < entry <= |pool|
    ensures Ring(pool, out, entry)[0] == pool[out]
    ensures Ring(pool, Slot(out, 1, |pool|), entry - 1) == Ring(pool, out, entry)[1..]
  {
  }

  class Mailbox {
    const size: nat
    const pool: array<int>
    var entry: nat
    var inOffset: nat
    var outOffset: nat
    var receivers: Waiters
    var senders: Waiters

    ghost predicate Valid()
      reads this, pool
    {
      && 0 < size == pool.Length <= MB_ENTRY_MAX
      && entry <= size && inOffset < size && outOffset < size && inOffset == Slot(outOffset, entry, size)
    }

    ghost function View(): State
      requires Valid()
      reads this, pool
    {
      State(size, Ring(pool[..], outOffset, entry), receivers, senders)
    }

    // rt_mb_init
    constructor (size: nat)
      requires 0 < size <= MB_ENTRY_MAX
      ensures Valid() && View() == Initial(size)
    {
      this.size := size;
      pool := new int[size](i => 0);
      entry, inOffset, outOffset := 0, 0, 0;
      receivers, senders := NoWaiters, NoWaiters;
    }

    // One pass of _rt_mb_send_wait. The branch for a full `entry` counter is dead.
    method SendPass(t: Thread, value: int, timeout: int, suspends: bool, order: Order, prio: Thread -> nat)
      returns (outcome: Outcome)
      requires Valid()
      modifies this, pool
      ensures Valid() && (View(), outcome) == Send(old(View()), t, value, timeout, suspends, order, prio)
    {
      hide Suspended, Ring;
      var failed, error := Failed(senders, t), if t in senders.ready then senders.ready[t] else EOk;
      senders := Resume(senders, t);
      if failed {
        return Returned(error);
      }
      if entry == size {
        if timeout == 0 {
          return Full;
        }
        if !suspends {
          return Returned(EIntr);
        }
        var blocked := Suspend(senders.blocked, t, order, prio);
        senders := senders.(blocked := blocked);
        return Blocked;
      }
      Store(value);
      receivers := Wake(receivers);
      return Returned(EOk);
    }

    // The mail goes behind the others in the ring.
    method Store(value: int)
      requires Valid() && entry < size
      modifies this`entry, this`inOffset, pool
      ensures Valid() && Ring(pool[..], outOffset, entry) == old(Ring(pool[..], outOffset, entry)) + [value]
    {
      hide Ring;
      RingStore(pool[..], outOffset, entry, value);
      pool[inOffset] := value;
      inOffset := inOffset + 1;
      if inOffset >= size {
        inOffset := 0;
      }
      if entry < MB_ENTRY_MAX {
        entry := entry + 1;
      } else {
        assert false;
      }
      assert pool[..] == old(pool[..])[Slot(outOffset, old(entry), size) := value];
    }

    // One pass of _rt_mb_recv.
    method RecvPass(t: Thread, timeout: int, suspends: bool, order: Order, prio: Thread -> nat)
      returns (outcome: Outcome)
      requires Valid()
      modifies this
      ensures Valid() && (View(), outcome) == Recv(old(View()), t, timeout, suspends, order, prio)
    {
      hide Suspended, Ring;
      var failed, error := Failed(receivers, t), if t in receivers.ready then receivers.ready[t] else EOk;
      receivers := Resume(receivers, t);
      if failed {
        return Returned(error);
      }
      if entry == 0 {
        if timeout == 0 {
          return Returned(ETimeout);
        }
        if !suspends {
          return Returned(EIntr);
        }
        var blocked := Suspend(receivers.blocked, t, order, prio);
        receivers := receivers.(blocked := blocked);
        return Blocked;
      }
      var value := Fetch();
      senders := Wake(senders);
      return Received(value);
    }

    // The first mail is taken out of the ring.
    method Fetch() returns (value: int)
      requires Valid() && entry > 0
      modifies this`entry, this`outOffset
      ensures Valid() && [value] + Ring(pool[..], outOffset, entry) == old(Ring(pool[..], outOffset, entry))
    {
      hide Ring;
      RingFetch(pool[..], outOffset, entry);
      value := pool[outOffset];
      outOffset := outOffset + 1;
      if outOffset >= size {
        outOffset := 0;
      }
      entry := entry - 1;
    }

    // rt_mb_control with RT_IPC_CMD_RESET
    method Control()
      requires Valid()
      modifies this
      ensures Valid() && View() == Reset(old(View()))
    {
      receivers := ResumeAll(receivers);
      senders := ResumeAll(senders);
      entry, inOffset, outOffset := 0, 0, 0;
    }
  }
}
