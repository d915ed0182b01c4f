/** The event object of rt-smart/src/ipc.c: a set of 32 bits on which threads wait for all or some of their own. */
module Event {
  import opened Common
  import opened Bits32
  import opened IpcQueue

  const FLAG_AND: bv8 := 1
  const FLAG_OR: bv8 := 2
  const FLAG_CLEAR: bv8 := 4

  // A thread's event_set and event_info: the bits it waits for, and once it is woken the bits it received.
  datatype Wish = Wish(bits: bv32, info: bv8)

  datatype Outcome = Blocked | Returned(error: Error) | Received(bits: bv32)

  datatype State = State(set_: bv32, blocked: seq<Thread>, wish: map<Thread, Wish>)

  predicate Has(info: bv8, flag: bv8) {
    info & flag != 0
  }

  // The condition that ends a wait; AND goes before OR when both are given.
  predicate Met(events: bv32, w: Wish) {
    if Has(w.info, FLAG_AND) then And(events, w.bits) == w.bits
    else Has(w.info, FLAG_OR) && And(events, w.bits) != 0
  }

  // _rt_event_recv when the condition is met: all bits of interest that are set, and these cleared if asked for.
  function Take(events: bv32, w: Wish): (r: (bv32, bv32))
    requires Met(events, w)
  {
    (if Has(w.info, FLAG_CLEAR) then AndNot(events, w.bits) else events, And(events, w.bits))
  }

  // The loop of rt_event_send over the suspended threads: the final set, who still waits, and all wishes.
  function WakeLoop(events: bv32, q: seq<Thread>, wish: map<Thread, Wish>): (bv32, seq<Thread>, map<Thread, Wish>)
    requires forall t :: t in q ==> t in wish
    decreases |q|
  {
    if q == [] then (events, [], wish)
    else
      var t, w := q[0], wish[q[0]];
      if Met(events, w) then
        var saved := if Has(w.info, FLAG_AND) then w.bits else And(w.bits, events);
        WakeLoop(if Has(w.info, FLAG_CLEAR) then AndNot(events, saved) else events, q[1..],
                 wish[t := Wish(saved, w.info)])
      else
        var (end, left, after) := WakeLoop(events, q[1..], wish);
        (end, [t] + left, after)
  }

  lemma WakeEnds(events: bv32, wish: map<Thread, Wish>)
    ensures WakeLoop(events, [], wish) == (events, [], wish)
  {
  }

  lemma WakeUnfolds(events: bv32, q: seq<Thread>, wish: map<Thread, Wish>)
    requires q != [] && forall t :: t in q ==> t in wish
    ensures var t, w := q[0], wish[q[0]];
            var saved := if Has(w.info, FLAG_AND) then w.bits else And(w.bits, events);
            if Met(events, w) then
              WakeLoop(events, q, wish) ==
              WakeLoop(if Has(w.info, FLAG_CLEAR) then AndNot(events, saved) else events, q[1..],
                       wish[t := Wish(saved, w.info)])
            else
              var (end, left, after) := WakeLoop(events, q[1..], wish);
              WakeLoop(events, q, wish) == (end, [t] + left, after)
  {
  }

  // rt_event_send
  function Send(s: State, bits: bv32): (State, Outcome)
    requires forall t :: t in s.blocked ==> t in s.wish
  {
    if bits == 0 then (s, Returned(EError))
    else
      var (end, left, after) := WakeLoop(Or(s.set_, bits), s.blocked, s.wish);
      (State(end, left, after), Returned(EOk))
  }

  // _rt_event_recv up to its return or its suspension.
  function Recv(s: State, t: Thread, bits: bv32, info: bv8, timeout: int, suspends: bool, order: Order,
                prio: Thread -> nat): (State, Outcome) {
    var w := Wish(bits, info);
    if bits == 0 then (s, Returned(EError))
    else if Met(s.set_, w) then
      var (rest, got) := Take(s.set_, w);
      (s.(set_ := rest, wish := s.wish[t := Wish(got, info)]), Received(got))
    else if timeout == 0 then (s, Returned(ETimeout))
    else if !suspends then (s.(wish := s.wish[t := w]), Returned(EIntr))
    else (s.(wish := s.wish[t := w], blocked := Suspended(s.blocked, t, order, prio)), Blocked)
  }

  // What the same threads would get if each in turn called rt_event_recv again without waiting.
  function RetryLoop(events: bv32, q: seq<Thread>, wish: map<Thread, Wish>): (bv32, seq<Thread>, map<Thread, Wish>)
    requires forall t :: t in q ==> t in wish
    decreases |q|
  {
    if q == [] then (events, [], wish)
    else
      var t, w := q[0], wish[q[0]];
      var (s, outcome) := Recv(State(events, [], wish), t, w.bits, w.info, 0, true, Fifo, u => 0);
      var (end, left, after) := RetryLoop(s.set_, q[1..], s.wish);
      (end, if outcome.Received? then left else [t] + left, after)
  }

  // Each of the threads waits for some bits.
  ghost predicate Waiting(q: seq<Thread>, wish: map<Thread, Wish>) {
    Distinct(q) && forall t :: t in q ==> t in wish && wish[t].bits != 0
  }

  lemma RetryUnfolds(events: bv32, q: seq<Thread>, wish: map<Thread, Wish>)
    requires q != [] && Waiting(q, wish)
    ensures Waiting(q[1..], wish) && q[0] !in q[1..]
    ensures var t, w := q[0], wish[q[0]];
            if Met(events, w) then
              var (rest, got) := Take(events, w);
              Waiting(q[1..], wish[t := Wish(got, w.info)])
                && RetryLoop(events, q, wish) == RetryLoop(rest, q[1..], wish[t := Wish(got, w.info)])
            else
              var (end, left, after) := RetryLoop(events, q[1..], wish);
              RetryLoop(events, q, wish) == (end, [t] + left, after)
  {
    hide And, AndNot, Has;
    assert forall j :: 0 <= j < |q[1..]| ==> q[1..][j] == q[j + 1];
    assert q[0] !in q[1..];
    var w := wish[q[0]];
    assert Wish(w.bits, w.info) == w;
  }

  lemma TakeSavesTheSame(events: bv32, w: Wish)
    requires Met(events, w)
    ensures var saved := if Has(w.info, FLAG_AND) then w.bits else And(w.bits, events);
            Take(events, w) == (if Has(w.info, FLAG_CLEAR) then AndNot(events, saved) else events, saved)
  {
    hide And, AndNot, Has;
    AndCommutes(events, w.bits);
    AndNotOfAnd(events, w.bits);
  }

  /** A send wakes the waiting threads as if each had retried its receive in queue order. */
  lemma {:induction false} WakeIsRetry(events: bv32, q: seq<Thread>, wish: map<Thread, Wish>)
    requires Waiting(q, wish)
    ensures WakeLoop(events, q, wish) == RetryLoop(events, q, wish)
    decreases |q|
  {
    hide And, AndNot, Has, Recv;
    if q != [] {
      var w := wish[q[0]];
      RetryUnfolds(events, q, wish);
      if Met(events, w) {
        TakeSavesTheSame(events, w);
        var (rest, got) := Take(events, w);
        WakeIsRetry(rest, q[1..], wish[q[0] := Wish(got, w.info)]);
      } else {
        WakeIsRetry(events, q[1..], wish);
      }
    }
  }

  lemma MetMonotone(a: bv32, b: bv32, w: Wish)
    requires Subset(a, b) && Met(a, w)
    ensures Met(b, w)
  {
    hide And, Subset, Has;
    if Has(w.info, FLAG_AND) {
      AllInSuperset(a, b, w.bits);
    } else {
      SomeInSuperset(a, b, w.bits);
    }
  }

  lemma TakeShrinks(events: bv32, w: Wish)
    requires Met(events, w)
    ensures Subset(Take(events, w).0, events)
    ensures Has(w.info, FLAG_CLEAR) ==> And(Take(events, w).0, Take(events, w).1) == 0
    ensures Subset(Take(events, w).1, events)
  {
    hide And, AndNot, Subset, Has;
    AndSubset(events, w.bits);
    AndNotSubset(events, w.bits);
    SubsetReflexive(events);
    ClearedApart(events, w.bits);
  }

  lemma {:induction false} LoopShrinks(events: bv32, q: seq<Thread>, wish: map<Thread, Wish>)
    requires Waiting(q, wish)
    ensures var (end, left, after) := RetryLoop(events, q, wish);
            && Subset(end, events) && Distinct(left) && (forall t :: t in left ==> t in q)
               && (forall t :: t in wish ==> t in after)
            && (forall t :: t in wish && (t !in q || t in left) ==> after[t] == wish[t])
            && (forall t :: t in left ==> !Met(end, wish[t]))
    decreases |q|
  {
    hide And, AndNot, Has, Subset, Met, Take, Recv;
    SubsetReflexive(events);
    if q != [] {
      var t, w := q[0], wish[q[0]];
      RetryUnfolds(events, q, wish);
      if Met(events, w) {
        TakeShrinks(events, w);
        var (rest, got) := Take(events, w);
        LoopShrinks(rest, q[1..], wish[t := Wish(got, w.info)]);
        SubsetTransitive(RetryLoop(events, q, wish).0, rest, events);
      } else {
        LoopShrinks(events, q[1..], wish);
        var (end, left, after) := RetryLoop(events, q[1..], wish);
        if Met(end, w) {
          MetMonotone(end, events, w);
        }
      }
    }
  }

  lemma {:induction false} GotFromEvents(events: bv32, q: seq<Thread>, wish: map<Thread, Wish>)
    requires Waiting(q, wish)
    ensures var (end, left, after) := RetryLoop(events, q, wish);
            forall t :: t in q && t !in left ==> t in after && Subset(after[t].bits, events)
    decreases |q|
  {
    hide And, AndNot, Has, Subset, Met, Take, Recv, Distinct;
    if q != [] {
      var t, w := q[0], wish[q[0]];
      RetryUnfolds(events, q, wish);
      if Met(events, w) {
        TakeShrinks(events, w);
        var (rest, got) := Take(events, w);
        var next := wish[t := Wish(got, w.info)];
        GotFromEvents(rest, q[1..], next);
        LoopShrinks(rest, q[1..], next);
        var (end, left, after) := RetryLoop(rest, q[1..], next);
        assert after[t] == Wish(got, w.info);
        forall u | u in q && u !in left ensures u in after && Subset(after[u].bits, events) {
          if u != t {
            assert u in q[1..];
            SubsetTransitive(after[u].bits, rest, events);
          }
        }
      } else {
        GotFromEvents(events, q[1..], wish);
        var (end, left, after) := RetryLoop(events, q[1..], wish);
        assert RetryLoop(events, q, wish) == (end, [t] + left, after);
        forall u | u in q && u !in [t] + left ensures u in after && Subset(after[u].bits, events) {
          assert u != t && u in q[1..];
        }
      }
    }
  }

  // What the first thread received and cleared is not among what a later one receives.
  lemma ClearedFirst(events: bv32, q: seq<Thread>, wish: map<Thread, Wish>, u: Thread)
    requires Waiting(q, wish) && q != [] && Met(events, wish[q[0]]) && Has(wish[q[0]].info, FLAG_CLEAR) && u in q[1..]
    ensures var (end, left, after) := RetryLoop(events, q, wish);
            u !in left ==> q[0] in after && u in after && And(after[q[0]].bits, after[u].bits) == 0
  {
    hide And, AndNot, Has, Subset, Met, Take, Recv, Distinct, RetryLoop;
    RetryUnfolds(events, q, wish);
    var t, w := q[0], wish[q[0]];
    TakeShrinks(events, w);
    var (rest, got) := Take(events, w);
    var next := wish[t := Wish(got, w.info)];
    LoopShrinks(rest, q[1..], next);
    GotFromEvents(rest, q[1..], next);
    var (end, left, after) := RetryLoop(rest, q[1..], next);
    if u !in left {
      SubsetReflexive(got);
      ApartFromSuperset(after[u].bits, rest, got, got);
      AndCommutes(after[u].bits, got);
    }
  }

  /** Within one send, bits that a woken thread cleared are received by nobody behind it on the list. */
  lemma {:induction false} ClearedBitsGoToOne(events: bv32, q: seq<Thread>, wish: map<Thread, Wish>, i: nat, j: nat)
    requires Waiting(q, wish) && i < j < |q| && Has(wish[q[i]].info, FLAG_CLEAR)
    ensures var (end, left, after) := RetryLoop(events, q, wish);
            q[i] !in left && q[j] !in left ==>
              q[i] in after && q[j] in after && And(after[q[i]].bits, after[q[j]].bits) == 0
    decreases |q|
  {
    hide And, AndNot, Has, Subset, Met, Take, Recv, Distinct, RetryLoop;
    var t, w := q[0], wish[q[0]];
    assert q[1..][j - 1] == q[j] && (i > 0 ==> q[1..][i - 1] == q[i]);
    RetryUnfolds(events, q, wish);
    if i > 0 {
      var met := Met(events, w);
      ClearedBitsGoToOne(if met then Take(events, w).0 else events, q[1..],
                         if met then wish[t := Wish(Take(events, w).1, w.info)] else wish, i - 1, j - 1);
    } else if Met(events, w) {
      ClearedFirst(events, q, wish, q[j]);
    }
  }

  /** When a wait ends, bit by bit: all bits waited for are set, or one of them is. */
  lemma MetBits(events: bv32, w: Wish)
    ensures Has(w.info, FLAG_AND) ==> (Met(events, w) <==> forall k :: On(w.bits, k) ==> On(events, k))
    ensures !Has(w.info, FLAG_AND) ==>
              (Met(events, w) <==> Has(w.info, FLAG_OR) && exists k :: On(events, k) && On(w.bits, k))
  {
    hide Has, On, And;
    AllOn(events, w.bits);
    SomeOn(events, w.bits);
  }

  // What a take receives and leaves, bit by bit.
  lemma TakeBits(events: bv32, w: Wish, k: bv5)
    requires Met(events, w)
    ensures On(Take(events, w).0, k) <==> On(events, k) && !(Has(w.info, FLAG_CLEAR) && On(w.bits, k))
    ensures On(Take(events, w).1, k) <==> On(events, k) && On(w.bits, k)
  {
    hide Has, On, And, AndNot, Met;
    OnAnd(events, w.bits, k);
    OnAndNot(events, w.bits, k);
  }

  // A bit is in the final set unless a thread that was woken received it and asked for clearing.
  lemma {:induction false} LoopBits(events: bv32, q: seq<Thread>, wish: map<Thread, Wish>, k: bv5)
    requires Waiting(q, wish)
    ensures var (end, left, after) := RetryLoop(events, q, wish);
            && (On(end, k) ==> On(events, k))
            && (On(events, k) && !On(end, k) ==> exists t :: ReceivedBit(q, wish, left, after, t, k))
    decreases |q|
  {
    hide Has, On, And, AndNot, Met, Take, Recv, Distinct;
    if q != [] {
      var t, w := q[0], wish[q[0]];
      RetryUnfolds(events, q, wish);
      var met := Met(events, w);
      var rest := if met then Take(events, w).0 else events;
      var next := if met then wish[t := Wish(Take(events, w).1, w.info)] else wish;
      LoopBits(rest, q[1..], next, k);
      LoopShrinks(rest, q[1..], next);
      var (end, left, after) := RetryLoop(rest, q[1..], next);
      if met {
        TakeBits(events, w, k);
      }
      if On(rest, k) && !On(end, k) {
        var u :| ReceivedBit(q[1..], next, left, after, u, k);
        assert ReceivedBit(q, wish, RetryLoop(events, q, wish).1, after, u, k);
      } else if On(events, k) && !On(rest, k) {
        assert ReceivedBit(q, wish, left, after, t, k);
      }
    }
  }

  // The thread was woken, asked for clearing, and received the bit.
  ghost predicate ReceivedBit(q: seq<Thread>, wish: map<Thread, Wish>, left: seq<Thread>, after: map<Thread, Wish>,
                              t: Thread, k: bv5)
  {
    t in q && t !in left && t in wish && Has(wish[t].info, FLAG_CLEAR) && t in after && On(after[t].bits, k)
  }

  // Who is woken received what it waited for, of the bits there were, and those that are left kept their order.
  lemma {:induction false} WokenBits(events: bv32, q: seq<Thread>, wish: map<Thread, Wish>, t: Thread, k: bv5)
    requires Waiting(q, wish) && t in q
    ensures var (end, left, after) := RetryLoop(events, q, wish);
            t !in left ==>
              && Met(events, wish[t]) && t in after && after[t].info == wish[t].info
              && (On(after[t].bits, k) ==> On(events, k) && On(wish[t].bits, k))
              && (Has(wish[t].info, FLAG_AND) && On(wish[t].bits, k) ==> On(after[t].bits, k))
    decreases |q|
  {
    hide Has, On, And, AndNot, Met, Take, Recv, Distinct;
    var u, w := q[0], wish[q[0]];
    RetryUnfolds(events, q, wish);
    if Met(events, w) {
      var (rest, got) := Take(events, w);
      TakeBits(events, w, k);
      LoopShrinks(rest, q[1..], wish[u := Wish(got, w.info)]);
      if t != u {
        WokenBits(rest, q[1..], wish[u := Wish(got, w.info)], t, k);
        TakeShrinks(events, w);
        if Met(rest, wish[t]) {
          MetMonotone(rest, events, wish[t]);
        }
      } else {
        MetBits(events, w);
      }
    } else if t != u {
      WokenBits(events, q[1..], wish, t, k);
    }
  }

  // The first thread whose condition is met is woken, with all its bits that are set.
  lemma {:induction false} FirstMetWoken(events: bv32, q: seq<Thread>, wish: map<Thread, Wish>, i: nat, k: bv5)
    requires Waiting(q, wish) && i < |q| && Met(events, wish[q[i]])
    requires forall j :: 0 <= j < i ==> !Met(events, wish[q[j]])
    ensures var (end, left, after) := RetryLoop(events, q, wish);
            && q[i] !in left && q[i] in after
            && (On(after[q[i]].bits, k) <==> On(events, k) && On(wish[q[i]].bits, k))
    decreases |q|
  {
    hide Has, On, And, AndNot, Met, Take, Recv, Distinct;
    var u, w := q[0], wish[q[0]];
    RetryUnfolds(events, q, wish);
    if i == 0 {
      var (rest, got) := Take(events, w);
      TakeBits(events, w, k);
      LoopShrinks(rest, q[1..], wish[u := Wish(got, w.info)]);
    } else {
      assert q[1..][i - 1] == q[i];
      FirstMetWoken(events, q[1..], wish, i - 1, k);
    }
  }

  // Those left keep their order.
  lemma {:induction false} LeftInOrder(events: bv32, q: seq<Thread>, wish: map<Thread, Wish>, i: nat, j: nat)
    requires Waiting(q, wish) && i < j < |q|
    ensures var left := RetryLoop(events, q, wish).1;
            q[i] in left && q[j] in left ==> InOrder(left, q[i], q[j])
    decreases |q|
  {
    hide Has, On, And, AndNot, Met, Take, Recv, Distinct, InOrder;
    var u, w := q[0], wish[q[0]];
    RetryUnfolds(events, q, wish);
    assert q[j] != u by {
      assert q[j] == q[1..][j - 1];
    }
    var met := Met(events, w);
    var rest := if met then Take(events, w).0 else events;
    var next := if met then wish[u := Wish(Take(events, w).1, w.info)] else wish;
    LoopShrinks(rest, q[1..], next);
    var left, some := RetryLoop(events, q, wish).1, RetryLoop(rest, q[1..], next).1;
    assert q[1..][j - 1] == q[j] && (i > 0 ==> q[1..][i - 1] == q[i]);
    if i > 0 {
      LeftInOrder(rest, q[1..], next, i - 1, j - 1);
    }
    InOrderBehind(left, some, u, q[i], q[j]);
  }

  ghost predicate InOrder(q: seq<Thread>, t: Thread, u: Thread) {
    exists a, b :: 0 <= a < b < |q| && q[a] == t && q[b] == u
  }

  lemma InOrderBehind(left: seq<Thread>, some: seq<Thread>, first: Thread, t: Thread, u: Thread)
    requires left == some || left == [first] + some
    requires t == first || t !in some || u !in some || InOrder(some, t, u)
    requires u != first && (t == first ==> t !in some)
    ensures t in left && u in left ==> InOrder(left, t, u)
  {
    if t in left && u in left && left != some {
      if t == first {
        var b :| 0 <= b < |some| && some[b] == u;
        assert left[0] == t && left[b + 1] == u;
      } else {
        var a, b :| 0 <= a < b < |some| && some[a] == t && some[b] == u;
        assert left[a + 1] == t && left[b + 1] == u;
      }
    }
  }

  datatype Step =
    | SendStep(bits: bv32)
    | RecvStep(t: Thread, bits: bv32, info: bv8, timeout: int, suspends: bool, order: Order, prio: Thread -> nat)
    | LeaveStep(t: Thread)
    | ResetStep

  // A waiting thread does not run, and a receive asks for AND or for OR.
  predicate Enabled(s: State, step: Step) {
    match step
    case SendStep(_) => true
    case RecvStep(t, _, info, _, _, _, _) => t !in s.blocked && (Has(info, FLAG_AND) || Has(info, FLAG_OR))
    case LeaveStep(_) => true
    case ResetStep => true
  }

  ghost predicate Inv(s: State) {
    && Waiting(s.blocked, s.wish)
    && (forall t :: t in s.blocked ==> Has(s.wish[t].info, FLAG_AND) || Has(s.wish[t].info, FLAG_OR))
    && (forall t :: t in s.blocked ==> !Met(s.set_, s.wish[t]))
  }

  function Apply(s: State, step: Step): State
    requires forall t :: t in s.blocked ==> t in s.wish
  {
    match step
    case SendStep(bits) => Send(s, bits).0
    case RecvStep(t, bits, info, timeout, suspends, order, prio) =>
      Recv(s, t, bits, info, timeout, suspends, order, prio).0
    case LeaveStep(t) => s.(blocked := Without(s.blocked, t))
    case ResetStep => s.(blocked := [], set_ := 0)
  }

  lemma SendKeeps(s: State, bits: bv32)
    requires Inv(s)
    ensures Inv(Send(s, bits).0)
  {
    hide Met, Has, Subset, Distinct;
    WakeIsRetry(Or(s.set_, bits), s.blocked, s.wish);
    LoopShrinks(Or(s.set_, bits), s.blocked, s.wish);
  }

  /** What a send does with each bit: it is in the set afterwards exactly if it was or is sent, unless a thread that is
      woken received it and asked for clearing. */
  lemma SendBits(s: State, bits: bv32, k: bv5)
    requires Inv(s)
    ensures bits == 0 ==> Send(s, bits) == (s, Returned(EError))
    ensures bits != 0 ==>
            var (s', outcome) := Send(s, bits);
            var was := On(s.set_, k) || On(bits, k);
            && outcome == Returned(EOk) && (On(s'.set_, k) ==> was)
            && (was && !On(s'.set_, k) ==> exists t :: ReceivedBit(s.blocked, s.wish, s'.blocked, s'.wish, t, k))
            && (s.blocked == [] ==> (On(s'.set_, k) <==> was))
  {
    hide Has, On, Or, Met, RetryLoop, WakeLoop;
    var events := Or(s.set_, bits);
    OnOr(s.set_, bits, k);
    WakeIsRetry(events, s.blocked, s.wish);
    LoopBits(events, s.blocked, s.wish, k);
  }

  /** Whom a send wakes, and with what: only threads whose condition is met by the bits that were or are sent, with
      bits of theirs, with all of them for AND; the first such thread in any case, with all its bits that were or are
      sent. */
  lemma SendWakes(s: State, bits: bv32, i: nat, k: bv5)
    requires Inv(s) && bits != 0 && i < |s.blocked|
    ensures var s', w := Send(s, bits).0, s.wish[s.blocked[i]];
            var t, was := s.blocked[i], On(s.set_, k) || On(bits, k);
            && (t in s'.blocked ==> t in s'.wish && s'.wish[t] == w)
            && (t !in s'.blocked ==> Met(Or(s.set_, bits), w) && t in s'.wish)
            && (t !in s'.blocked && On(s'.wish[t].bits, k) ==> was && On(w.bits, k))
            && (t !in s'.blocked && Has(w.info, FLAG_AND) && On(w.bits, k) ==> On(s'.wish[t].bits, k))
            && (Met(Or(s.set_, bits), w)
                 && (forall j :: 0 <= j < i ==> !Met(Or(s.set_, bits), s.wish[s.blocked[j]])) ==>
                 t !in s'.blocked && (On(s'.wish[t].bits, k) <==> was && On(w.bits, k)))
  {
    hide Has, On, Or, Met, RetryLoop, WakeLoop;
    var events := Or(s.set_, bits);
    OnOr(s.set_, bits, k);
    WakeIsRetry(events, s.blocked, s.wish);
    LoopShrinks(events, s.blocked, s.wish);
    WokenBits(events, s.blocked, s.wish, s.blocked[i], k);
    if Met(events, s.wish[s.blocked[i]]) && forall j :: 0 <= j < i ==> !Met(events, s.wish[s.blocked[j]]) {
      FirstMetWoken(events, s.blocked, s.wish, i, k);
    }
  }

  /** The threads that go on waiting are in the order in which they were. */
  lemma SendOrder(s: State, bits: bv32, i: nat, j: nat)
    requires Inv(s) && bits != 0 && i < j < |s.blocked|
    ensures var left := Send(s, bits).0.blocked;
            s.blocked[i] in left && s.blocked[j] in left ==> InOrder(left, s.blocked[i], s.blocked[j])
  {
    hide RetryLoop, WakeLoop, Or, Met;
    WakeIsRetry(Or(s.set_, bits), s.blocked, s.wish);
    LeftInOrder(Or(s.set_, bits), s.blocked, s.wish, i, j);
  }

  /** What a receive comes to, bit by bit: it returns at once exactly if its condition is met, with its bits that are
      set, and clears those and no others if asked to; without, it times out at timeout zero, waits, or is
      interrupted. */
  lemma RecvTells(s: State, t: Thread, bits: bv32, info: bv8, timeout: int, suspends: bool, order: Order,
                  prio: Thread -> nat, k: bv5)
    requires Inv(s) && t !in s.blocked
    ensures var (s', outcome) := Recv(s, t, bits, info, timeout, suspends, order, prio);
            var met := bits != 0 && Met(s.set_, Wish(bits, info));
            && (bits == 0 ==> outcome == Returned(EError) && s' == s)
            && (outcome.Received? <==> met)
            && (met ==> (On(outcome.bits, k) <==> On(s.set_, k) && On(bits, k)))
            && (met ==> (On(s'.set_, k) <==> On(s.set_, k) && !(Has(info, FLAG_CLEAR) && On(bits, k))))
            && (!met ==> s'.set_ == s.set_)
            && (outcome == Blocked <==> bits != 0 && !met && timeout != 0 && suspends)
            && (outcome == Blocked <==> t in s'.blocked) && (outcome == Blocked ==> s'.wish[t] == Wish(bits, info))
            && (bits != 0 && !met && timeout == 0 ==> outcome == Returned(ETimeout) && s' == s)
            && (bits != 0 && !met && timeout != 0 && !suspends ==> outcome == Returned(EIntr))
            && (forall u :: u != t ==> (u in s'.blocked <==> u in s.blocked))
  {
    hide Has, On, Met, Take, Distinct;
    if Met(s.set_, Wish(bits, info)) {
      TakeBits(s.set_, Wish(bits, info), k);
    }
  }

  lemma RecvKeeps(s: State, t: Thread, bits: bv32, info: bv8, timeout: int, suspends: bool, order: Order,
                  prio: Thread -> nat)
    requires Inv(s) && t !in s.blocked && (Has(info, FLAG_AND) || Has(info, FLAG_OR))
    ensures Inv(Recv(s, t, bits, info, timeout, suspends, order, prio).0)
  {
    hide Met, Has, Subset, Distinct, Take, Suspended;
    SuspendedDistinct(s.blocked, t, order, prio);
    if bits != 0 && Met(s.set_, Wish(bits, info)) {
      TakeShrinks(s.set_, Wish(bits, info));
      forall u | u in s.blocked ensures !Met(Take(s.set_, Wish(bits, info)).0, s.wish[u]) {
        if Met(Take(s.set_, Wish(bits, info)).0, s.wish[u]) {
          MetMonotone(Take(s.set_, Wish(bits, info)).0, s.set_, s.wish[u]);
        }
      }
    }
  }

  lemma StepKeeps(s: State, step: Step)
    requires Inv(s) && Enabled(s, step)
    ensures Inv(Apply(s, step))
  {
    hide Met, Has, Send, Recv;
    match step
    case SendStep(bits) => SendKeeps(s, bits);
    case RecvStep(t, bits, info, timeout, suspends, order, prio) =>
      RecvKeeps(s, t, bits, info, timeout, suspends, order, prio);
    case LeaveStep(t) => WithoutDistinct(s.blocked, t);
    case ResetStep =>
  }

  predicate Run(s: State, steps: seq<Step>)
    requires Inv(s)
    decreases |steps|
  {
    steps == [] || (Enabled(s, steps[0]) && (StepKeeps(s, steps[0]); Run(Apply(s, steps[0]), steps[1..])))
  }

  function After(s: State, steps: seq<Step>): State
    requires Inv(s) && Run(s, steps)
    decreases |steps|
  {
    if steps == [] then s else (StepKeeps(s, steps[0]); After(Apply(s, steps[0]), steps[1..]))
  }

  /** In every run, no thread waits for a condition that the current set already meets. */
  lemma {:induction false} NobodyWaitsInVain(s: State, steps: seq<Step>, t: Thread)
    requires Inv(s) && Run(s, steps) && t in After(s, steps).blocked
    ensures t in After(s, steps).wish && !Met(After(s, steps).set_, After(s, steps).wish[t])
    decreases |steps|
  {
    if steps != [] {
      StepKeeps(s, steps[0]);
      NobodyWaitsInVain(Apply(s, steps[0]), steps[1..], t);
    }
  }

  class Event {
    var set_: bv32
    var blocked: seq<Thread>
    var wish: map<Thread, Wish>

    ghost function View(): State
      reads this
    {
      State(set_, blocked, wish)
    }

    // rt_event_init
    constructor ()
      ensures View() == State(0, [], map[]) && Inv(View())
    {
      set_, blocked, wish := 0, [], map[];
    }

    // One round of the loop of rt_event_send. The branch for a thread that waits with neither flag is dead.
    method WakeOne(thread: Thread) returns (received: bool)
      requires thread in wish && (Has(wish[thread].info, FLAG_AND) || Has(wish[thread].info, FLAG_OR))
      modifies this`set_, this`wish
      ensures var w := old(wish)[thread];
              var saved := if Has(w.info, FLAG_AND) then w.bits else And(w.bits, old(set_));
              && received == Met(old(set_), w)
              && wish == (if received then old(wish)[thread := Wish(saved, w.info)] else old(wish))
              && set_ == if received && Has(w.info, FLAG_CLEAR) then AndNot(old(set_), saved) else old(set_)
    {
      hide And, AndNot, Has;
      var w := wish[thread];
      received := false;
      if Has(w.info, FLAG_AND) {
        if And(set_, w.bits) == w.bits {
          received := true;
        }
      } else if Has(w.info, FLAG_OR) {
        if And(set_, w.bits) != 0 {
          wish := wish[thread := Wish(And(w.bits, set_), w.info)];
          received := true;
        }
      } else {
        assert false;
      }
      if received && Has(w.info, FLAG_CLEAR) {
        set_ := AndNot(set_, wish[thread].bits);
      }
    }

    // The loop of rt_event_send.
    method WakeMeeting()
      requires forall t :: t in blocked ==> t in wish && (Has(wish[t].info, FLAG_AND) || Has(wish[t].info, FLAG_OR))
      requires Distinct(blocked)
      modifies this
      ensures var (end, left, after) := WakeLoop(old(set_), old(blocked), old(wish));
              set_ == end && blocked == left && wish == after
    {
      var n, left := 0, [];
      assert blocked[0..] == blocked;
      hide And, AndNot, Has, WakeLoop, Met;
      while n < |blocked|
        invariant n <= |blocked| && blocked == old(blocked)
        invariant forall t :: t in blocked ==> t in wish
        invariant forall i :: n <= i < |blocked| ==> wish[blocked[i]] == old(wish)[blocked[i]]
        invariant var (end, rest, after) := WakeLoop(set_, blocked[n..], wish);
                  var all := WakeLoop(old(set_), blocked, old(wish));
                  all.0 == end && all.1 == left + rest && all.2 == after
      {
        assert blocked[n..][1..] == blocked[n + 1..];
        WakeUnfolds(set_, blocked[n..], wish);
        var received := WakeOne(blocked[n]);
        if !received {
          left := left + [blocked[n]];
        }
        n := n + 1;
      }
      WakeEnds(set_, wish);
      assert blocked[n..] == [];
      blocked := left;
    }

    // rt_event_send
    method SendEvent(bits: bv32) returns (outcome: Outcome)
      requires Inv(View())
      modifies this
      ensures Inv(View()) && (View(), outcome) == Send(old(View()), bits)
    {
      SendKeeps(View(), bits);
      hide Met, Has, Or, WakeLoop, Distinct;
      if bits == 0 {
        return Returned(EError);
      }
      set_ := Or(set_, bits);
      if blocked != [] {
        WakeMeeting();
      } else {
        WakeEnds(set_, wish);
      }
      return Returned(EOk);
    }

    // _rt_event_recv up to its return or its suspension; on resumption the thread finds what it received in its wish.
    method RecvEvent(t: Thread, bits: bv32, info: bv8, timeout: int, suspends: bool, order: Order, prio: Thread -> nat)
      returns (outcome: Outcome)
      requires Inv(View()) && Enabled(View(), RecvStep(t, bits, info, timeout, suspends, order, prio))
      modifies this
      ensures Inv(View()) && (View(), outcome) == Recv(old(View()), t, bits, info, timeout, suspends, order, prio)
    {
      StepKeeps(View(), RecvStep(t, bits, info, timeout, suspends, order, prio));
      hide Has, And, AndNot, Suspended, Distinct;
      AndCommutes(set_, bits);
      if bits == 0 {
        return Returned(EError);
      }
      var met := false;
      if Has(info, FLAG_AND) {
        met := And(set_, bits) == bits;
      } else if Has(info, FLAG_OR) {
        met := And(set_, bits) != 0;
      } else {
        assert false;
      }
      if met {
        var got := And(set_, bits);
        wish := wish[t := Wish(got, info)];
        if Has(info, FLAG_CLEAR) {
          set_ := AndNot(set_, bits);
        }
        return Received(got);
      }
      if timeout == 0 {
        return Returned(ETimeout);
      }
      wish := wish[t := Wish(bits, info)];
      if !suspends {
        return Returned(EIntr);
      }
      blocked := Suspend(blocked, t, order, prio);
      return Blocked;
    }
  }
}
