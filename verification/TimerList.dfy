/** The timer list of rt-smart/src/timer.c: a skip list ordered by deadline over a wrapping 32-bit tick.

    Each timer carries the deadline it would have if the tick never wrapped (`deadline`), and the rank of
    its latest start among all starts (`stamp`). Both are ghost: the code below decides on `timeoutTick` alone. */
module TimerList {
  const TICK_MODULUS := 0x1_0000_0000
  const TICK_MAX := TICK_MODULUS - 1
  const TICK_HALF := TICK_MAX / 2

  function Wrap(time: int): (tick: nat)
    ensures tick < TICK_MODULUS
  {
    time % TICK_MODULUS
  }

  // 32-bit unsigned subtraction.
  function Minus(a: nat, b: nat): (r: nat)
    ensures r < TICK_MODULUS
  {
    (a - b) % TICK_MODULUS
  }

  // The test that ends the scan of a row: `listed` is not equal to `added` and lies in the half after it.
  predicate ScanStops(listed: nat, added: nat) {
    Minus(listed, added) != 0 && Minus(listed, added) < TICK_HALF
  }

  // The test that lets rt_timer_check fire the first timer.
  predicate IsDue(current: nat, timeout: nat) {
    Minus(current, timeout) < TICK_HALF
  }

  lemma MinusOfWraps(x: int, y: int)
    ensures Minus(Wrap(x), Wrap(y)) == Wrap(x - y)
  {
    var qx, qy := x / TICK_MODULUS, y / TICK_MODULUS;
    var d := Wrap(x) - Wrap(y);
    assert x - y == d + (qx - qy) * TICK_MODULUS;
    WrapPeriodic(d, qx - qy);
  }

  lemma WrapPeriodic(x: int, k: int)
    ensures Wrap(x + k * TICK_MODULUS) == Wrap(x)
  {
    var q, r := x / TICK_MODULUS, x % TICK_MODULUS;
    assert x + k * TICK_MODULUS == (q + k) * TICK_MODULUS + r;
    QuotientUnique(x + k * TICK_MODULUS, q + k, r);
  }

  lemma WrapOfSum(time: int, ticks: nat)
    ensures (Wrap(time) + ticks) % TICK_MODULUS == Wrap(time + ticks)
  {
    WrapPeriodic(Wrap(time) + ticks, time / TICK_MODULUS);
  }

  lemma QuotientUnique(x: int, q: int, r: int)
    requires x == q * TICK_MODULUS + r && 0 <= r < TICK_MODULUS
    ensures x % TICK_MODULUS == r
  {
  }

  /** The wrapped comparison of two deadlines less than a full turn apart is right exactly when the listed one
      is at most 2^31 - 2 after, or 2^31 + 1 before, the new one. */
  lemma ScanStopsExactly(listed: int, added: int)
    requires -TICK_MODULUS < listed - added < TICK_MODULUS
    ensures (ScanStops(Wrap(listed), Wrap(added)) <==> listed > added)
       <==> -0x8000_0001 <= listed - added <= 0x7fff_fffe
  {
    MinusOfWraps(listed, added);
  }

  /** The wrapped due test is right exactly when the deadline is at most 2^31 - 2 late or 2^31 + 1 ahead. */
  lemma IsDueExactly(now: int, deadline: int)
    requires -TICK_MODULUS < now - deadline < TICK_MODULUS
    ensures (IsDue(Wrap(now), Wrap(deadline)) <==> deadline <= now)
       <==> -0x8000_0001 <= now - deadline <= 0x7fff_fffe
  {
    MinusOfWraps(now, deadline);
  }

  // A listed timer due no later than the added one whose deadlines, as ticks, seem to be in the other order.
  ghost predicate Misread(listed: int, added: int) {
    listed <= added && (added - listed) % TICK_MODULUS > 0x8000_0001
  }

  /** The test ends the scan at later deadlines, and at the earlier ones that are misread, however late they are. */
  lemma ScanStopsAt(listed: int, added: int)
    requires listed - added <= 0x7fff_fffe
    ensures ScanStops(Wrap(listed), Wrap(added)) <==> listed > added || Misread(listed, added)
  {
    MinusOfWraps(listed, added);
    if listed <= added {
      var late: int := Wrap(added - listed);
      WrapPeriodic(-late, -((added - listed) / TICK_MODULUS));
      assert Wrap(listed - added) == Wrap(-late) == if late == 0 then 0 else TICK_MODULUS - late;
    }
  }

  class Timer {
    var initTick: nat
    var timeoutTick: nat
    var periodic: bool
    var activated: bool

    constructor (time: nat, repeats: bool)
      ensures initTick == time && periodic == repeats && !activated
    {
      timeoutTick, initTick, periodic, activated := 0, time, repeats, false;
    }
  }

  // A timer's node on a row, with the deadline and the rank of the start that put it there.
  datatype Node = Node(timer: Timer, ghost deadline: int, ghost stamp: nat)

  type Row = seq<Node>

  ghost function TimersOf(row: Row): set<Timer> {
    set n | n in row :: n.timer
  }

  // The order of expiry: earlier deadline first, and first started first among equal deadlines.
  ghost predicate Before(a: Node, b: Node) {
    a.deadline < b.deadline || (a.deadline == b.deadline && a.stamp < b.stamp)
  }

  ghost predicate Sorted(row: Row) {
    forall i, j {:trigger Before(row[i], row[j])} :: 0 <= i < j < |row| ==> Before(row[i], row[j])
  }

  ghost predicate Lists(row: Row, t: Timer) {
    exists n :: n in row && n.timer == t
  }

  // rt_list_remove of a timer's node: nothing happens to a row the timer is not on.
  function Without(row: Row, t: Timer): (r: Row)
    ensures forall n :: n in r ==> n in row && n.timer != t
    ensures forall n :: n in row && n.timer != t ==> n in r
  {
    if row == [] then []
    else if row[0].timer == t then Without(row[1..], t)
    else [row[0]] + Without(row[1..], t)
  }

  lemma {:induction false} WithoutSorted(row: Row, t: Timer)
    requires Sorted(row)
    ensures Sorted(Without(row, t))
  {
    if row != [] {
      var rest := Without(row[1..], t);
      forall i, j | 0 <= i < j < |row[1..]| ensures Before(row[1..][i], row[1..][j]) {
        assert Before(row[i + 1], row[j + 1]);
      }
      WithoutSorted(row[1..], t);
      forall j | 0 <= j < |rest| ensures Before(row[0], rest[j]) {
        assert rest[j] in row[1..];
        var k :| 0 <= k < |row[1..]| && row[1..][k] == rest[j];
        assert Before(row[0], row[k + 1]);
      }
      forall i, j | 0 <= i < j < |Without(row, t)| ensures Before(Without(row, t)[i], Without(row, t)[j]) {
        if row[0].timer == t {
          assert Before(rest[i], rest[j]);
        } else if i > 0 {
          assert Before(rest[i - 1], rest[j - 1]);
        }
      }
    }
  }

  lemma {:induction false} WithoutAbsent(row: Row, t: Timer)
    requires !Lists(row, t)
    ensures Without(row, t) == row
  {
    if row != [] {
      assert row[0] in row && forall n :: n in row[1..] ==> n in row;
      WithoutAbsent(row[1..], t);
    }
  }

  // The plain scan of one row by true deadline: how many timers are passed before the first later one.
  ghost function PlainScan(row: Row, deadline: int): (k: nat)
    ensures k <= |row|
  {
    if row == [] || row[0].deadline > deadline then 0 else 1 + PlainScan(row[1..], deadline)
  }

  ghost predicate Splits(row: Row, deadline: int, k: int) {
    && 0 <= k <= |row|
    && (forall i :: 0 <= i < k ==> row[i].deadline <= deadline)
    && (forall i :: k <= i < |row| ==> row[i].deadline > deadline)
  }

  // In a sorted row the timers with deadline at most the given one come first.
  lemma SplitHere(row: Row, deadline: int, k: nat)
    requires Sorted(row) && k <= |row|
    requires k > 0 ==> row[k - 1].deadline <= deadline
    requires k < |row| ==> row[k].deadline > deadline
    ensures Splits(row, deadline, k)
  {
    forall i | 0 <= i < k - 1 ensures row[i].deadline <= deadline {
      assert Before(row[i], row[k - 1]);
    }
    forall i | k < i < |row| ensures row[i].deadline > deadline {
      assert Before(row[k], row[i]);
    }
  }

  lemma {:induction false} PlainScanSplits(row: Row, deadline: int, k: int)
    requires Splits(row, deadline, k)
    ensures k == PlainScan(row, deadline)
  {
    if row != [] && row[0].deadline <= deadline {
      PlainScanSplits(row[1..], deadline, k - 1);
    }
  }

  lemma {:induction false} PlainScanOfSorted(row: Row, deadline: int)
    requires Sorted(row)
    ensures Splits(row, deadline, PlainScan(row, deadline))
  {
    var k := PlainScan(row, deadline);
    PlainScanStep(row, deadline);
    SplitHere(row, deadline, k);
  }

  lemma {:induction false} PlainScanStep(row: Row, deadline: int)
    ensures var k := PlainScan(row, deadline);
            (k > 0 ==> row[k - 1].deadline <= deadline) && (k < |row| ==> row[k].deadline > deadline)
  {
    if row != [] && row[0].deadline <= deadline {
      PlainScanStep(row[1..], deadline);
    }
  }

  lemma {:induction false} PlainScanPasses(due: Row, later: Row, deadline: int)
    requires forall n :: n in due ==> n.deadline <= deadline
    ensures PlainScan(due + later, deadline) >= |due|
  {
    if due != [] {
      assert (due + later)[1..] == due[1..] + later;
      PlainScanPasses(due[1..], later, deadline);
    }
  }

  // rt_list_insert_after the node at position h, or after the head of the row when h is -1.
  function InsertAfter(row: Row, h: int, n: Node): (r: Row)
    requires -1 <= h < |row|
    ensures n in r && (forall m :: m in r ==> m == n || m in row) && (forall m :: m in row ==> m in r)
  {
    assert row == row[..h + 1] + row[h + 1..];
    row[..h + 1] + [n] + row[h + 1..]
  }

  lemma InsertAfterSorted(row: Row, h: int, n: Node)
    requires Sorted(row) && -1 <= h < |row|
    requires Splits(row, n.deadline, h + 1)
    requires forall m :: m in row ==> m.stamp < n.stamp
    ensures Sorted(InsertAfter(row, h, n))
  {
    var r := InsertAfter(row, h, n);
    forall i, j | 0 <= i < j < |r| ensures Before(r[i], r[j]) {
      if i != h + 1 && j != h + 1 {
        assert Before(row[if i <= h then i else i - 1], row[if j <= h then j else j - 1]);
      }
    }
  }

  // Where the plain scan of the row puts a node.
  ghost function Placed(row: Row, n: Node): Row {
    var k := PlainScan(row, n.deadline);
    row[..k] + [n] + row[k..]
  }

  // A node that expires after `now` is placed behind all that are due by `now`.
  lemma PlacedLater(due: Row, later: Row, n: Node, now: int) returns (next: Row)
    requires forall m :: m in due ==> m.deadline <= now < n.deadline
    ensures Placed(due + later, n) == due + next
    ensures forall m :: m in next <==> m == n || m in later
  {
    PlainScanPasses(due, later, n.deadline);
    var k := PlainScan(due + later, n.deadline) - |due|;
    assert later == later[..k] + later[k..];
    next := later[..k] + [n] + later[k..];
  }

  ghost predicate Nested(rows: seq<Row>) {
    forall l, m, n :: 0 <= l <= m < |rows| && n in rows[l] ==> n in rows[m]
  }

  ghost predicate OneNodeEach(row: Row) {
    forall j, k :: 0 <= j < k < |row| ==> row[j].timer != row[k].timer
  }

  lemma OneNode(row: Row, m: Node, n: Node)
    requires OneNodeEach(row) && m in row && n in row && m.timer == n.timer
    ensures m == n
  {
  }

  // Every row holds only nodes of the row below, and no timer is on the bottom row twice.
  ghost predicate Woven(rows: seq<Row>)
    requires 0 < |rows|
  {
    Nested(rows) && OneNodeEach(rows[|rows| - 1])
  }

  ghost predicate InOrder(rows: seq<Row>) {
    forall l :: 0 <= l < |rows| ==> Sorted(rows[l])
  }

  // Moreover every row is in order of expiry.
  ghost predicate SkipList(rows: seq<Row>)
    requires 0 < |rows|
  {
    Woven(rows) && InOrder(rows)
  }

  // Where the code's scan of a row for the node's deadline ends, starting behind position `from`.
  ghost function ScanEnd(row: Row, from: int, n: Node): (h: int)
    requires -1 <= from < |row|
    ensures from <= h < |row|
    decreases |row| - from
  {
    if from + 1 == |row| || ScanStops(Wrap(row[from + 1].deadline), Wrap(n.deadline)) then from
    else ScanEnd(row, from + 1, n)
  }

  ghost function Position(row: Row, m: Node): (k: nat)
    requires m in row
    ensures k < |row| && row[k] == m
  {
    if row[0] == m then 0 else 1 + Position(row[1..], m)
  }

  // Where the code's descent starts on row l: at the timer at which it left the row above.
  ghost function Entry(rows: seq<Row>, l: nat, n: Node): (h: int)
    requires l < |rows| && Nested(rows)
    ensures -1 <= h < |rows[l]|
    decreases l, 0
  {
    if l == 0 then -1
    else
      var h := Head(rows, l - 1, n);
      if h == -1 then -1 else Position(rows[l], rows[l - 1][h])
  }

  // And where it ends there: row_head[l], with -1 for the head of the row.
  ghost function Head(rows: seq<Row>, l: nat, n: Node): (h: int)
    requires l < |rows| && Nested(rows)
    ensures -1 <= h < |rows[l]|
    decreases l, 1
  {
    ScanEnd(rows[l], Entry(rows, l, n), n)
  }

  // No listed deadline is too far ahead of the new one for their ticks to tell.
  ghost predicate Ahead(row: Row, n: Node) {
    forall m :: m in row ==> m.deadline - n.deadline <= 0x7fff_fffe
  }

  // Some row passes the timer by: it is not there, but a later one is that is due no later than the new one.
  ghost predicate Bridged(rows: seq<Row>, b: Node, n: Node) {
    exists l, y :: 0 <= l < |rows| && b !in rows[l] && y in rows[l] && Before(b, y) && y.deadline <= n.deadline
  }

  // The descent gets past every timer that its test misreads.
  ghost predicate Reaches(rows: seq<Row>, n: Node)
    requires 0 < |rows|
  {
    forall b :: b in rows[|rows| - 1] && Misread(b.deadline, n.deadline) ==> Bridged(rows, b, n)
  }

  lemma {:induction false} ScanEndIs(row: Row, from: int, n: Node)
    requires -1 <= from < |row|
    ensures var h := ScanEnd(row, from, n);
            && (forall i :: from < i <= h ==> !ScanStops(Wrap(row[i].deadline), Wrap(n.deadline)))
            && (h + 1 < |row| ==> ScanStops(Wrap(row[h + 1].deadline), Wrap(n.deadline)))
    decreases |row| - from
  {
    if from + 1 < |row| && !ScanStops(Wrap(row[from + 1].deadline), Wrap(n.deadline)) {
      ScanEndIs(row, from + 1, n);
    }
  }

  // The code's scan is right if it starts no later than it must and meets no timer that it misreads.
  lemma ScanEndSplits(row: Row, from: int, n: Node)
    requires Sorted(row) && Ahead(row, n) && -1 <= from < |row| && (from >= 0 ==> row[from].deadline <= n.deadline)
    requires forall i :: from < i < |row| ==> !Misread(row[i].deadline, n.deadline)
    ensures Splits(row, n.deadline, ScanEnd(row, from, n) + 1)
  {
    hide ScanStops, Wrap, Misread, Sorted, Splits, ScanEnd;
    var h := ScanEnd(row, from, n);
    ScanEndIs(row, from, n);
    if h > from {
      ScanStopsAt(row[h].deadline, n.deadline);
    }
    if h + 1 < |row| {
      ScanStopsAt(row[h + 1].deadline, n.deadline);
    }
    SplitHere(row, n.deadline, h + 1);
  }

  lemma RowOf(rows: seq<Row>, l: nat, n: Node)
    requires 0 < |rows| && SkipList(rows) && Ahead(rows[|rows| - 1], n) && l < |rows|
    ensures Sorted(rows[l]) && Ahead(rows[l], n)
  {
  }

  // If every misread timer is passed by on some row, the descent is right on every row.
  lemma {:induction false} HeadSplits(rows: seq<Row>, l: nat, n: Node)
    requires 0 < |rows| && SkipList(rows) && Ahead(rows[|rows| - 1], n) && Reaches(rows, n) && l < |rows|
    ensures Splits(rows[l], n.deadline, Head(rows, l, n) + 1)
  {
    hide ScanEnd, Misread;
    var from := Entry(rows, l, n);
    if l > 0 {
      HeadSplits(rows, l - 1, n);
    }
    RowOf(rows, l, n);
    forall i | from < i < |rows[l]| ensures !Misread(rows[l][i].deadline, n.deadline) {
      if Misread(rows[l][i].deadline, n.deadline) {
        BridgeEntered(rows, l, n, i);
      }
    }
    ScanEndSplits(rows[l], from, n);
  }

  // A misread timer of row l is before the place where the descent enters that row.
  lemma BridgeEntered(rows: seq<Row>, l: nat, n: Node, i: nat)
    requires 0 < |rows| && SkipList(rows) && Reaches(rows, n) && l < |rows| && i < |rows[l]|
    requires l > 0 ==> Splits(rows[l - 1], n.deadline, Head(rows, l - 1, n) + 1)
    requires Misread(rows[l][i].deadline, n.deadline)
    ensures i < Entry(rows, l, n)
  {
    hide Head, Misread, Reaches, Bridged;
    var b := rows[l][i];
    var r, y := BridgeOver(rows, b, n);
    assert r < l;
    assert y in rows[l - 1];
    var j :| 0 <= j < |rows[l - 1]| && rows[l - 1][j] == y;
    var h := Head(rows, l - 1, n);
    assert j <= h;
    assert j < h ==> Before(rows[l - 1][j], rows[l - 1][h]);
    var e := Position(rows[l], rows[l - 1][h]);
    assert Before(b, rows[l][e]);
    assert e < i ==> Before(rows[l][e], rows[l][i]);
  }

  lemma BridgeOver(rows: seq<Row>, b: Node, n: Node) returns (l: nat, y: Node)
    requires 0 < |rows| && Reaches(rows, n) && b in rows[|rows| - 1] && Misread(b.deadline, n.deadline)
    ensures l < |rows| && b !in rows[l] && y in rows[l] && Before(b, y) && y.deadline <= n.deadline
  {
    hide Misread;
    assert Bridged(rows, b, n);
    l, y :| 0 <= l < |rows| && b !in rows[l] && y in rows[l] && Before(b, y) && y.deadline <= n.deadline;
  }

  // The descent stands only on timers that its test passes.
  lemma {:induction false} HeadPassed(rows: seq<Row>, l: nat, n: Node)
    requires 0 < |rows| && SkipList(rows) && Ahead(rows[|rows| - 1], n) && l < |rows|
    ensures var h := Head(rows, l, n);
            h >= 0 ==> rows[l][h].deadline <= n.deadline && !Misread(rows[l][h].deadline, n.deadline)
  {
    hide ScanEnd, ScanStops, Wrap, Misread;
    var h := Head(rows, l, n);
    ScanEndIs(rows[l], Entry(rows, l, n), n);
    RowOf(rows, l, n);
    if l > 0 && h == Entry(rows, l, n) {
      HeadPassed(rows, l - 1, n);
    } else if h >= 0 {
      ScanStopsAt(rows[l][h].deadline, n.deadline);
    }
  }

  // If it gets past a misread timer, then on a row that passes it by.
  lemma {:induction false} PassedIsBridged(rows: seq<Row>, l: nat, n: Node, i: nat)
    requires 0 < |rows| && SkipList(rows) && Ahead(rows[|rows| - 1], n) && l < |rows|
    requires i <= Head(rows, l, n) && Misread(rows[l][i].deadline, n.deadline)
    ensures Bridged(rows, rows[l][i], n)
    decreases l
  {
    hide ScanEnd, ScanStops, Wrap, Misread;
    var b, e := rows[l][i], Entry(rows, l, n);
    ScanEndIs(rows[l], e, n);
    RowOf(rows, l, n);
    ScanStopsAt(b.deadline, n.deadline);
    assert i <= e;
    var h := Head(rows, l - 1, n);
    var x := rows[l - 1][h];
    HeadPassed(rows, l - 1, n);
    assert i < e ==> Before(b, x);
    if b in rows[l - 1] {
      var j :| 0 <= j < |rows[l - 1]| && rows[l - 1][j] == b;
      assert h < j ==> Before(x, b);
      PassedIsBridged(rows, l - 1, n, j);
    }
  }

  /** For any number of rows, the descent by wrapped comparisons ends where the plain scan of the bottom row does
      exactly if some row passes by each listed timer that it misreads; and then it ends at the right place on every
      row. */
  lemma DescentIsRight(rows: seq<Row>, n: Node)
    requires 0 < |rows| && SkipList(rows) && Ahead(rows[|rows| - 1], n)
    ensures Reaches(rows, n) <==> Head(rows, |rows| - 1, n) + 1 == PlainScan(rows[|rows| - 1], n.deadline)
    ensures Reaches(rows, n) ==> forall l :: 0 <= l < |rows| ==> Splits(rows[l], n.deadline, Head(rows, l, n) + 1)
  {
    hide Head, Misread, Bridged, PlainScan, Sorted, OneNodeEach, Ahead, Splits;
    var bottom, h := rows[|rows| - 1], Head(rows, |rows| - 1, n);
    RowOf(rows, |rows| - 1, n);
    PlainScanOfSorted(bottom, n.deadline);
    if Reaches(rows, n) {
      forall l | 0 <= l < |rows| ensures Splits(rows[l], n.deadline, Head(rows, l, n) + 1) {
        HeadSplits(rows, l, n);
      }
      PlainScanSplits(bottom, n.deadline, h + 1);
    } else if h + 1 == PlainScan(bottom, n.deadline) {
      forall b | b in bottom && Misread(b.deadline, n.deadline) ensures Bridged(rows, b, n) {
        MisreadIsEarlier(b.deadline, n.deadline);
        var i: nat :| i < |bottom| && bottom[i] == b;
        SplitsPast(bottom, n.deadline, h + 1, i);
        PassedIsBridged(rows, |rows| - 1, n, i);
      }
    }
  }

  lemma SplitsPast(row: Row, deadline: int, k: int, i: nat)
    requires Splits(row, deadline, k) && i < |row| && row[i].deadline <= deadline
    ensures i < k
  {
  }

  lemma MisreadIsEarlier(listed: int, added: int)
    requires Misread(listed, added)
    ensures listed + 0x8000_0001 < added
  {
  }

  /** Otherwise it ends in front of a timer that it misreads. */
  lemma DescentIsWrong(rows: seq<Row>, n: Node)
    requires 0 < |rows| && SkipList(rows) && Ahead(rows[|rows| - 1], n) && !Reaches(rows, n)
    ensures var bottom, h := rows[|rows| - 1], Head(rows, |rows| - 1, n);
            h + 1 < |bottom| && Misread(bottom[h + 1].deadline, n.deadline)
  {
    hide ScanEnd, ScanStops, Wrap, Misread, Reaches, PlainScan;
    var bottom, l := rows[|rows| - 1], |rows| - 1;
    var h := Head(rows, l, n);
    DescentIsRight(rows, n);
    HeadPassed(rows, l, n);
    ScanEndIs(bottom, Entry(rows, l, n), n);
    if h + 1 == |bottom| || bottom[h + 1].deadline > n.deadline {
      SplitHere(bottom, n.deadline, h + 1);
      PlainScanSplits(bottom, n.deadline, h + 1);
    }
    ScanStopsAt(bottom[h + 1].deadline, n.deadline);
  }

  /** With one row, as both boards build it, it is right exactly if it misreads no listed timer. */
  lemma OneRowReaches(rows: seq<Row>, n: Node)
    requires |rows| == 1
    ensures Reaches(rows, n) <==> forall b :: b in rows[0] ==> !Misread(b.deadline, n.deadline)
  {
    hide Misread;
  }

  /** If no listed timer is a full turn earlier than the new one, it is right exactly if all are in a window before it,
      or the first timer of some row is. */
  lemma ReachesWithinATurn(rows: seq<Row>, n: Node)
    requires 0 < |rows| && SkipList(rows)
    requires forall m :: m in rows[|rows| - 1] ==> n.deadline - m.deadline < TICK_MODULUS
    ensures Reaches(rows, n) <==>
      || (forall m :: m in rows[|rows| - 1] ==> n.deadline - m.deadline <= 0x8000_0001)
      || exists l :: 0 <= l < |rows| && rows[l] != [] && 0 <= n.deadline - rows[l][0].deadline <= 0x8000_0001
  {
    if l :| 0 <= l < |rows| && rows[l] != [] && 0 <= n.deadline - rows[l][0].deadline <= 0x8000_0001 {
      FirstBridges(rows, l, n);
    } else if Reaches(rows, n) {
      forall m | m in rows[|rows| - 1] ensures n.deadline - m.deadline <= 0x8000_0001 {
        if n.deadline - m.deadline > 0x8000_0001 {
          var r, y := BridgeOver(rows, m, n);
          NoFirst(rows, r, y, n);
        }
      }
    }
  }

  lemma FirstIsLeast(row: Row)
    requires Sorted(row) && row != []
    ensures forall m :: m in row ==> row[0].deadline <= m.deadline
  {
    forall i | 0 < i < |row| ensures row[0].deadline <= row[i].deadline {
      assert Before(row[0], row[i]);
    }
  }

  lemma FirstBridges(rows: seq<Row>, l: nat, n: Node)
    requires 0 < |rows| && SkipList(rows)
    requires forall m :: m in rows[|rows| - 1] ==> n.deadline - m.deadline < TICK_MODULUS
    requires l < |rows| && rows[l] != [] && 0 <= n.deadline - rows[l][0].deadline <= 0x8000_0001
    ensures Reaches(rows, n)
  {
    hide Woven;
    var y := rows[l][0];
    forall b | b in rows[|rows| - 1] && Misread(b.deadline, n.deadline) ensures Bridged(rows, b, n) {
      assert forall m :: m in rows[l] ==> y.deadline <= m.deadline by {
        FirstIsLeast(rows[l]);
      }
      assert y in rows[l] && Before(b, y);
    }
  }

  // If no row starts with a timer in the window, no row has one that is due no later than the new one.
  lemma {:induction false} NoFirst(rows: seq<Row>, l: nat, y: Node, n: Node)
    requires 0 < |rows| && SkipList(rows) && Reaches(rows, n) && l < |rows| && y in rows[l] && y.deadline <= n.deadline
    requires forall m :: m in rows[|rows| - 1] ==> n.deadline - m.deadline < TICK_MODULUS
    requires forall l :: 0 <= l < |rows| && rows[l] != [] ==> !(0 <= n.deadline - rows[l][0].deadline <= 0x8000_0001)
    ensures false
    decreases l
  {
    var b := rows[l][0];
    FirstIsLeast(rows[l]);
    assert b in rows[l] && b in rows[|rows| - 1];
    var r, x := BridgeOver(rows, b, n);
    assert r < l;
    NoFirst(rows, r, x, n);
  }

  // The timers of the row carry their deadlines as ticks, and so does that of the node.
  ghost predicate Ticking(row: Row, n: Node)
    reads n.timer, TimersOf(row)
  {
    n.timer.timeoutTick == Wrap(n.deadline) && forall m :: m in row ==> m.timer.timeoutTick == Wrap(m.deadline)
  }

  // One row of rt_timer_start's search: advance row_head while the next timer does not seem to expire later than t.
  method ScanRow(row: Row, from: int, t: Timer, ghost n: Node) returns (h: int)
    requires n.timer == t && Ticking(row, n) && -1 <= from < |row|
    ensures h == ScanEnd(row, from, n)
  {
    hide Wrap, Minus;
    h := from;
    while h != |row| - 1
      invariant -1 <= h < |row| && ScanEnd(row, h, n) == ScanEnd(row, from, n)
      decreases |row| - h
    {
      var p := row[h + 1].timer;
      if Minus(p.timeoutTick, t.timeoutTick) == 0 {
        h := h + 1;
        continue;
      } else if Minus(p.timeoutTick, t.timeoutTick) < TICK_HALF {
        break;
      }
      h := h + 1;
    }
  }

  // The position in a row of the node of the timer whose node on the row above is given.
  method Down(row: Row, above: Node) returns (k: nat)
    requires above in row && forall m :: m in row && m.timer == above.timer ==> m == above
    ensures k == Position(row, above)
  {
    k := 0;
    while row[k].timer != above.timer
      invariant k < |row| && above in row[k..] && Position(row, above) == k + Position(row[k..], above)
      decreases |row| - k
    {
      assert row[k..][1..] == row[k + 1..];
      k := k + 1;
    }
  }

  // The row-by-row descent of rt_timer_start.
  method Descend(rows: seq<Row>, t: Timer, ghost n: Node) returns (heads: seq<int>)
    requires 0 < |rows| && n.timer == t && Woven(rows) && Ticking(rows[|rows| - 1], n)
    ensures |heads| == |rows| && forall l :: 0 <= l < |rows| ==> heads[l] == Head(rows, l, n)
  {
    hide Position, OneNodeEach;
    heads := [];
    var levels := |rows|;
    var h, l := -1, 0;
    while l < levels
      invariant |heads| == l <= levels
      invariant forall m :: 0 <= m < l ==> heads[m] == Head(rows, m, n)
      invariant l < levels ==> h == Entry(rows, l, n)
    {
      assert Ticking(rows[l], n) by {
        forall m | m in rows[l] ensures m in rows[levels - 1] {}
      }
      h := ScanRow(rows[l], h, t, n);
      heads := heads + [h];
      if l != levels - 1 && h != -1 {
        var above := rows[l][h];
        assert above in rows[l + 1];
        forall m | m in rows[l + 1] && m.timer == above.timer ensures m == above {
          assert m in rows[levels - 1] && above in rows[levels - 1];
          OneNode(rows[levels - 1], m, above);
        }
        h := Down(rows[l + 1], above);
      }
      l := l + 1;
    }
  }

  // How many of the lowest pairs of bits are zero, up to a limit.
  function LowPairs(bits: nat, most: nat): (k: nat)
    ensures k <= most
  {
    if most == 0 || bits % 4 != 0 then 0 else 1 + LowPairs(bits / 4, most - 1)
  }

  function Pair(bits: nat, j: nat): nat {
    if j == 0 then bits % 4 else Pair(bits / 4, j - 1)
  }

  lemma {:induction false} LowPairsAreZero(bits: nat, most: nat, j: nat)
    requires j < most
    ensures j < LowPairs(bits, most) ==> Pair(bits, j) == 0
    ensures j == LowPairs(bits, most) ==> Pair(bits, j) != 0
  {
    if j > 0 && bits % 4 == 0 {
      LowPairsAreZero(bits / 4, most - 1, j - 1);
    }
  }

  // Linking the new node after row_head in the bottom row, and in as many rows above as the counter's bits allow.
  method LinkRows(rows: seq<Row>, heads: seq<int>, n: Node, counter: nat) returns (linked: seq<Row>)
    requires 0 < |rows| == |heads|
    requires forall l :: 0 <= l < |rows| ==> -1 <= heads[l] < |rows[l]|
    ensures |linked| == |rows|
    ensures Linked(rows, heads, n, |rows| - 1 - LowPairs(counter, |rows| - 1), linked)
  {
    hide InsertAfter;
    var levels, bits := |rows|, counter;
    linked := rows[levels - 1 := InsertAfter(rows[levels - 1], heads[levels - 1], n)];
    var r := 2;
    while r <= levels
      invariant 2 <= r <= levels + 1 && |linked| == levels
      invariant LowPairs(counter, levels - 1) == r - 2 + LowPairs(bits, levels + 1 - r)
      invariant Linked(rows, heads, n, levels + 1 - r, linked)
    {
      if bits % 4 == 0 {
        linked := linked[levels - r := InsertAfter(rows[levels - r], heads[levels - r], n)];
      } else {
        break;
      }
      bits := bits / 4;
      r := r + 1;
    }
  }

  // The rows from `top` down have the node inserted after their heads, and those above are as they were.
  ghost predicate Linked(rows: seq<Row>, heads: seq<int>, n: Node, top: int, linked: seq<Row>)
    requires |linked| == |rows| == |heads|
    requires forall l :: 0 <= l < |rows| ==> -1 <= heads[l] < |rows[l]|
  {
    forall l :: 0 <= l < |rows| ==> linked[l] == if l < top then rows[l] else InsertAfter(rows[l], heads[l], n)
  }

  // Two nodes of a row are in the same order on every row below it.
  lemma RowsAgreeOnOrder(rows: seq<Row>, l: nat, m: nat, i: nat, j: nat, p: nat, q: nat)
    requires 0 < |rows| && SkipList(rows) && l <= m < |rows|
    requires i < j < |rows[l]| && p < |rows[m]| && q < |rows[m]|
    requires rows[l][i] == rows[m][p] && rows[l][j] == rows[m][q]
    ensures p < q
  {
    assert Before(rows[l][i], rows[l][j]);
    var lo, hi := if p < q then p else q, if p < q then q else p;
    assert lo < hi ==> Before(rows[m][lo], rows[m][hi]);
  }

  lemma BottomOrdered(rows: seq<Row>)
    requires 0 < |rows| && SkipList(rows)
    ensures Sorted(rows[|rows| - 1]) && OneNodeEach(rows[|rows| - 1])
  {
  }

  // The rows without a timer.
  function Cleared(rows: seq<Row>, t: Timer): (left: seq<Row>)
    ensures |left| == |rows| && forall l :: 0 <= l < |rows| ==> left[l] == Without(rows[l], t)
  {
    seq(|rows|, l requires 0 <= l < |rows| => Without(rows[l], t))
  }

  lemma {:induction false} WithoutOneNodeEach(row: Row, t: Timer)
    requires OneNodeEach(row)
    ensures OneNodeEach(Without(row, t))
  {
    if row != [] {
      var rest := Without(row[1..], t);
      assert OneNodeEach(row[1..]);
      WithoutOneNodeEach(row[1..], t);
      forall k | 0 <= k < |rest| ensures rest[k].timer != row[0].timer {
        assert rest[k] in row[1..];
      }
    }
  }

  lemma ClearedWoven(rows: seq<Row>, t: Timer)
    requires 0 < |rows| && Woven(rows)
    ensures Woven(Cleared(rows, t))
  {
    hide OneNodeEach;
    WithoutOneNodeEach(rows[|rows| - 1], t);
  }

  lemma ClearedInOrder(rows: seq<Row>, t: Timer)
    requires InOrder(rows)
    ensures InOrder(Cleared(rows, t))
  {
    hide Sorted;
    forall l | 0 <= l < |rows| ensures Sorted(Cleared(rows, t)[l]) {
      WithoutSorted(rows[l], t);
    }
  }

  lemma InsertAfterOneNodeEach(row: Row, h: int, n: Node)
    requires OneNodeEach(row) && -1 <= h < |row| && forall m :: m in row ==> m.timer != n.timer
    ensures OneNodeEach(InsertAfter(row, h, n))
  {
    var r := InsertAfter(row, h, n);
    forall i, j | 0 <= i < j < |r| ensures r[i].timer != r[j].timer {
      assert i != h + 1 ==> r[i] == row[if i <= h then i else i - 1];
      assert j != h + 1 ==> r[j] == row[if j <= h then j else j - 1];
    }
  }

  lemma ClearedTwice(rows: seq<Row>, t: Timer)
    ensures Cleared(Cleared(rows, t), t) == Cleared(rows, t)
    ensures forall l :: 0 <= l < |rows| ==> Without(Without(rows[l], t), t) == Without(rows[l], t)
  {
    forall l | 0 <= l < |rows| ensures Without(Without(rows[l], t), t) == Without(rows[l], t) {
      WithoutAbsent(Without(rows[l], t), t);
    }
  }

  // The loop over the rows in _rt_timer_remove.
  method Unlink(rows: seq<Row>, t: Timer) returns (left: seq<Row>)
    ensures left == Cleared(rows, t)
  {
    left := rows;
    for i := 0 to |rows|
      invariant |left| == |rows|
      invariant forall l :: 0 <= l < |rows| ==> left[l] == if l < i then Without(rows[l], t) else rows[l]
    {
      left := left[i := Without(left[i], t)];
    }
  }

  lemma LinkedBottom(rows: seq<Row>, heads: seq<int>, n: Node, top: int, linked: seq<Row>)
    requires 0 < |rows| == |linked| == |heads| && 0 <= top < |rows|
    requires forall l :: 0 <= l < |rows| ==> -1 <= heads[l] < |rows[l]|
    requires Linked(rows, heads, n, top, linked)
    ensures linked[|rows| - 1] == InsertAfter(rows[|rows| - 1], heads[|rows| - 1], n)
  {
  }

  // Where the descent ends, the node is placed as by a plain scan exactly if the descent is right.
  lemma PlacedExactly(rows: seq<Row>, n: Node)
    requires 0 < |rows| && SkipList(rows) && Ahead(rows[|rows| - 1], n)
    requires forall m :: m in rows[|rows| - 1] ==> m.stamp < n.stamp
    ensures InsertAfter(rows[|rows| - 1], Head(rows, |rows| - 1, n), n) == Placed(rows[|rows| - 1], n) <==>
      Reaches(rows, n)
  {
    hide Head, Reaches, PlainScan, Sorted, OneNodeEach, Ahead;
    var bottom, h, k := rows[|rows| - 1], Head(rows, |rows| - 1, n), PlainScan(rows[|rows| - 1], n.deadline);
    DescentIsRight(rows, n);
    if InsertAfter(bottom, h, n) == Placed(bottom, n) {
      InsertedOnce(bottom, h, k, n);
    }
  }

  lemma PlacedBehind(row: Row, n: Node)
    ensures |row| == 1 && row[0].deadline <= n.deadline ==> Placed(row, n) == [row[0], n]
  {
    if |row| == 1 {
      assert row[1..] == [];
    }
  }

  lemma InsertedFirst(row: Row, h: int, n: Node)
    requires |row| == 1 && -1 <= h < 0
    ensures InsertAfter(row, h, n) == [n, row[0]]
  {
  }

  lemma InsertedOnce(row: Row, h: int, k: nat, n: Node)
    requires -1 <= h < |row| && k <= |row| && n !in row && InsertAfter(row, h, n) == row[..k] + [n] + row[k..]
    ensures h + 1 == k
  {
    var r := row[..k] + [n] + row[k..];
    assert InsertAfter(row, h, n)[h + 1] == n;
    assert forall i :: 0 <= i < |r| && r[i] == n ==> i == k;
  }

  lemma LinkedWoven(rows: seq<Row>, heads: seq<int>, n: Node, top: int, linked: seq<Row>)
    requires 0 < |rows| == |linked| == |heads| && Woven(rows) && 0 <= top < |rows|
    requires forall l :: 0 <= l < |rows| ==> -1 <= heads[l] < |rows[l]|
    requires forall m :: m in rows[|rows| - 1] ==> m.timer != n.timer
    requires Linked(rows, heads, n, top, linked)
    ensures Woven(linked)
  {
    hide OneNodeEach, InsertAfter;
    InsertAfterOneNodeEach(rows[|rows| - 1], heads[|rows| - 1], n);
  }

  /** After linking where the descent ended, every row is in order of expiry exactly if the descent was right. */
  lemma LinkedInOrder(rows: seq<Row>, heads: seq<int>, n: Node, top: int, linked: seq<Row>)
    requires 0 < |rows| == |linked| == |heads| && SkipList(rows) && Ahead(rows[|rows| - 1], n) && 0 <= top < |rows|
    requires forall l :: 0 <= l < |rows| ==> -1 <= heads[l] < |rows[l]| && heads[l] == Head(rows, l, n)
    requires forall m :: m in rows[|rows| - 1] ==> m.stamp < n.stamp
    requires Linked(rows, heads, n, top, linked)
    ensures InOrder(linked) <==> Reaches(rows, n)
  {
    hide Head, Reaches, Sorted, Splits, InsertAfter, Ahead;
    var last := |rows| - 1;
    DescentIsRight(rows, n);
    if Reaches(rows, n) {
      forall l | 0 <= l < |rows| ensures Sorted(linked[l]) {
        forall m | m in rows[l] ensures m in rows[last] {}
        InsertAfterSorted(rows[l], heads[l], n);
      }
    } else {
      DescentIsWrong(rows, n);
      MisreadIsEarlier(rows[last][heads[last] + 1].deadline, n.deadline);
      InsertedOutOfOrder(rows[last], heads[last], n);
    }
  }

  lemma InsertedOutOfOrder(row: Row, h: int, n: Node)
    requires -1 <= h < |row| - 1 && row[h + 1].deadline < n.deadline
    ensures !Sorted(InsertAfter(row, h, n))
  {
    var r := InsertAfter(row, h, n);
    assert r[h + 1] == n && r[h + 2] == row[h + 1];
    assert !Before(r[h + 1], r[h + 2]);
  }

  // A deadline that has not passed stands before one that has: the check will not get behind it.
  ghost predicate Stuck(row: Row, now: int) {
    exists i, j :: 0 <= i < j < |row| && row[i].deadline > now >= row[j].deadline
  }

  // How many timers of the row are due.
  ghost function Due(row: Row, now: int): nat {
    if row == [] then 0 else (if row[0].deadline <= now then 1 else 0) + Due(row[1..], now)
  }

  lemma {:induction false} DueOfSum(a: Row, b: Row, now: int)
    ensures Due(a + b, now) == Due(a, now) + Due(b, now)
  {
    if a == [] {
      assert a + b == b;
    } else {
      assert (a + b)[1..] == a[1..] + b;
      DueOfSum(a[1..], b, now);
    }
  }

  // Putting in a later deadline leaves the number of those due, and what is stuck.
  lemma InsertedLater(row: Row, h: int, n: Node, now: int)
    requires -1 <= h < |row| && n.deadline > now
    ensures Due(InsertAfter(row, h, n), now) == Due(row, now)
    ensures Stuck(row, now) ==> Stuck(InsertAfter(row, h, n), now)
    ensures h + 1 < |row| && row[h + 1].deadline <= now ==> Stuck(InsertAfter(row, h, n), now)
  {
    hide InsertAfter, Stuck, Due;
    DueInserted(row, h, n, now);
    if Stuck(row, now) {
      StuckInserted(row, h, n, now);
    }
    if h + 1 < |row| && row[h + 1].deadline <= now {
      InsertedBefore(row, h, n, now);
    }
  }

  lemma DueInserted(row: Row, h: int, n: Node, now: int)
    requires -1 <= h < |row| && n.deadline > now
    ensures Due(InsertAfter(row, h, n), now) == Due(row, now)
  {
    var a, b := row[..h + 1], row[h + 1..];
    assert row == a + b && [n][1..] == [];
    DueOfSum(a, b, now);
    DueOfSum(a + [n], b, now);
    DueOfSum(a, [n], now);
  }

  lemma StuckInserted(row: Row, h: int, n: Node, now: int)
    requires -1 <= h < |row| && Stuck(row, now)
    ensures Stuck(InsertAfter(row, h, n), now)
  {
    var r := InsertAfter(row, h, n);
    var i, j :| 0 <= i < j < |row| && row[i].deadline > now >= row[j].deadline;
    var k, l := if i <= h then i else i + 1, if j <= h then j else j + 1;
    assert r[k] == row[i] && r[l] == row[j];
  }

  lemma InsertedBefore(row: Row, h: int, n: Node, now: int)
    requires -1 <= h && h + 1 < |row| && row[h + 1].deadline <= now < n.deadline
    ensures Stuck(InsertAfter(row, h, n), now)
  {
    var r := InsertAfter(row, h, n);
    assert r[h + 1] == n && r[h + 2] == row[h + 1];
  }

  lemma StuckBehind(row: Row, now: int)
    requires Stuck(row, now) && row[0].deadline <= now
    ensures Stuck(row[1..], now)
  {
    var i, j :| 0 <= i < j < |row| && row[i].deadline > now >= row[j].deadline;
    assert row[1..][i - 1] == row[i] && row[1..][j - 1] == row[j];
  }

  // After firing was[..i]: what expires after now was on the list then, or is a timer fired since.
  ghost predicate Remain(was: Row, i: nat, n: nat, later: Row, now: int)
    requires i <= n <= |was|
  {
    && (forall m :: m in later ==> m.deadline > now)
    && (forall m :: m in later ==> m in was[n..] || exists k :: 0 <= k < i && was[k].timer == m.timer)
    && (forall k :: n <= k < |was| ==> was[k] in later)
  }

  lemma RemainNext(was: Row, i: nat, n: nat, later: Row, now: int, node: Node, next: Row)
    requires i < n <= |was| && Remain(was, i, n, later, now) && node.timer == was[i].timer
    requires next == later || (node.deadline > now && forall m :: m in next <==> m == node || m in later)
    ensures Remain(was, i + 1, n, next, now) && forall m :: m in later ==> m in next
  {
    forall m | m in next ensures m in was[n..] || exists k :: 0 <= k < i + 1 && was[k].timer == m.timer {
      if m in later && m !in was[n..] {
        var k :| 0 <= k < i && was[k].timer == m.timer;
      }
    }
  }

  // A timer that has not fired yet is not among those that remain.
  lemma RemainNot(was: Row, i: nat, n: nat, later: Row, now: int)
    requires i < n <= |was| && Remain(was, i, n, later, now)
    requires forall j, k :: 0 <= j < k < |was| ==> was[j].timer != was[k].timer
    ensures !Lists(later, was[i].timer)
  {
    forall m | m in later ensures m.timer != was[i].timer {
      if m in was[n..] {
        var k :| n <= k < |was| && was[k] == m;
      }
    }
  }

  class TimerList {
    const levels: nat
    var rows: seq<Row>
    var tick: nat
    var randomNr: nat
    ghost var now: int
    ghost var starts: nat

    ghost function Bottom(): Row
      requires |rows| == levels && levels > 0
      reads this
    {
      rows[levels - 1]
    }

    ghost function Timers(): set<Timer>
      reads this
    {
      if 0 < levels == |rows| then TimersOf(Bottom()) else {}
    }

    // What every operation keeps, whatever the order of the rows.
    ghost predicate Kept()
      reads this, Timers()
    {
      && 0 < levels == |rows| && tick == Wrap(now) && Woven(rows)
      && (forall n :: n in Bottom() ==> n.stamp < starts && n.deadline - now < TICK_HALF)
      && (forall n :: n in Bottom() ==> n.timer.activated && n.timer.timeoutTick == Wrap(n.deadline))
    }

    // Moreover every row is in order of expiry.
    ghost predicate Valid()
      reads this, Timers()
    {
      Kept() && InOrder(rows)
    }

    constructor (levels: nat, tick: nat)
      requires levels > 0 && tick < TICK_MODULUS
      ensures Valid() && this.levels == levels && Bottom() == [] && now == tick
    {
      this.levels, this.tick, this.now := levels, tick, tick;
      rows := seq(levels, l => []);
      randomNr, starts := 0, 0;
    }

    // _rt_timer_remove
    method Remove(t: Timer)
      requires Kept()
      modifies this`rows
      ensures Kept() && (old(Valid()) ==> Valid()) && rows == Cleared(old(rows), t)
      ensures Bottom() == Without(old(Bottom()), t) && forall n :: n in Bottom() ==> n.timer != t
    {
      hide Woven, InOrder, Wrap;
      ClearedWoven(rows, t);
      if InOrder(rows) {
        ClearedInOrder(rows, t);
      }
      rows := Unlink(rows, t);
    }

    // The node that a start at this moment gives the timer.
    ghost function NewNode(t: Timer): Node
      reads this, t
    {
      Node(t, now + t.initTick, starts)
    }

    // The condition for a start at this moment to put the timer where it belongs among the others.
    ghost predicate Reachable(t: Timer)
      requires 0 < levels == |rows|
      reads this, t
    {
      Reaches(Cleared(rows, t), NewNode(t))
    }

    // Where the descent of a start at this moment ends on the bottom row.
    ghost function HeadFor(t: Timer): (h: int)
      requires Kept()
      reads this, Timers(), t
      ensures -1 <= h < |Without(Bottom(), t)|
    {
      ClearedWoven(rows, t);
      Head(Cleared(rows, t), levels - 1, NewNode(t))
    }

    lemma TimersTick(n: Node)
      requires Kept() && n.deadline >= now && n.timer.timeoutTick == Wrap(n.deadline)
      ensures Ticking(Bottom(), n) && Ahead(Bottom(), n)
    {
      hide Woven;
    }

    // The search and the linking in rt_timer_start, for a timer that is on no row.
    method Insert(t: Timer, ghost n: Node)
      requires Kept() && n == NewNode(t) && t.initTick < TICK_HALF && t.timeoutTick == Wrap(n.deadline)
      requires forall m :: m in Bottom() ==> m.timer != t
      modifies this`rows, this`starts, this`randomNr, t`activated
      ensures Kept() && t.activated
      ensures Bottom() == InsertAfter(old(Bottom()), old(Head(rows, levels - 1, n)), n)
      ensures old(Valid()) ==> (Valid() <==> Reaches(old(rows), n))
    {
      hide Wrap, Nested, OneNodeEach, Sorted, Linked, Head, Reaches, Ahead, InsertAfter;
      TimersTick(n);
      var heads := Descend(rows, t, n);
      randomNr := (randomNr + 1) % 0x1_0000_0000;
      var node := Node(t, n.deadline, n.stamp);
      var linked := LinkRows(rows, heads, node, randomNr);
      ghost var top := levels - 1 - LowPairs(randomNr, levels - 1);
      LinkedWoven(rows, heads, n, top, linked);
      if InOrder(rows) {
        LinkedInOrder(rows, heads, n, top, linked);
      }
      LinkedBottom(rows, heads, n, top, linked);
      rows, starts := linked, starts + 1;
      t.activated := true;
    }

    /** rt_timer_start: for every interval that the code accepts the timer is put where the descent ends, and that is
        where a scan by true deadline would put it, and keeps the order, exactly if the descent is not misled. */
    method Start(t: Timer)
      requires Kept() && t.initTick < TICK_HALF
      modifies this`rows, this`starts, this`randomNr, t`timeoutTick, t`activated
      ensures Kept() && t.activated && Bottom() == old(InsertAfter(Without(Bottom(), t), HeadFor(t), NewNode(t)))
      ensures old(Valid()) ==> (Valid() <==> old(Reachable(t)))
      ensures old(Valid()) ==> (Bottom() == Placed(Without(old(Bottom()), t), old(NewNode(t))) <==> old(Reachable(t)))
    {
      hide Woven, InOrder, Wrap, Placed, Cleared, Head, Reaches, InsertAfter;
      ghost var n := NewNode(t);
      Remove(t);
      t.activated := false;
      t.timeoutTick := (tick + t.initTick) % TICK_MODULUS;
      WrapOfSum(now, t.initTick);
      if InOrder(rows) {
        TimersTick(n);
        PlacedExactly(rows, n);
      }
      Insert(t, n);
    }

    // rt_timer_stop; a timer that is active is taken to be on this list.
    method Stop(t: Timer) returns (ok: bool)
      requires Kept() && (t.activated ==> Lists(Bottom(), t))
      modifies this`rows, t`activated
      ensures Kept() && (old(Valid()) ==> Valid()) && !t.activated && ok == old(t.activated)
      ensures Bottom() == if ok then Without(old(Bottom()), t) else old(Bottom())
    {
      if !t.activated {
        return false;
      }
      Remove(t);
      t.activated := false;
      return true;
    }

    // The tick count of rt_tick_increase.
    method Advance()
      requires Kept()
      modifies this`tick, this`now
      ensures Kept() && (old(Valid()) ==> Valid()) && now == old(now) + 1
    {
      tick := (tick + 1) % TICK_MODULUS;
      now := now + 1;
      WrapOfSum(old(now), 1);
    }

    lemma KeptShape()
      requires Kept()
      ensures 0 < levels == |rows|
    {
    }

    // rt_timer_list_next_timeout
    method NextTimeout() returns (timeout: nat)
      requires Valid()
      ensures timeout == TICK_MAX <==> Bottom() == [] || Wrap(Bottom()[0].deadline) == TICK_MAX
      ensures Bottom() != [] ==> timeout == Wrap(Bottom()[0].deadline) && forall n :: n in Bottom() ==>
        Bottom()[0].deadline <= n.deadline
    {
      timeout := TICK_MAX;
      var bottom := rows[levels - 1];
      if bottom != [] {
        timeout := bottom[0].timer.timeoutTick;
        forall i | 0 < i < |bottom| ensures bottom[0].deadline <= bottom[i].deadline {
          assert Before(bottom[0], bottom[i]);
        }
      }
    }

    // The first timer has no other node.
    lemma FirstAlone()
      requires Kept() && Bottom() != []
      ensures Without(Bottom(), Bottom()[0].timer) == Bottom()[1..]
    {
      hide Wrap;
      assert !Lists(Bottom()[1..], Bottom()[0].timer);
      WithoutAbsent(Bottom()[1..], Bottom()[0].timer);
    }

    // The intervals that the code accepts for a timer that it starts again, but for zero, with which it would never
    // end.
    ghost predicate Rearmable()
      reads this, Timers()
      requires 0 < levels == |rows|
    {
      forall n :: n in Bottom() && n.timer.periodic && n.deadline <= now ==> 0 < n.timer.initTick < TICK_HALF
    }

    // The bottom row after the first timer is started again.
    ghost function Rearmed(): Row
      requires Kept() && Bottom() != []
      reads this, Timers()
    {
      FirstAlone();
      var t := Bottom()[0].timer;
      InsertAfter(Bottom()[1..], HeadFor(t), NewNode(t))
    }

    // One turn of rt_timer_check's loop: unlink the first timer, call it, and start it again if it is periodic.
    method FireFirst() returns (t: Timer)
      requires Kept() && Rearmable() && Bottom() != [] && Bottom()[0].deadline <= now
      modifies this`rows, this`starts, this`randomNr, Bottom()[0].timer`timeoutTick, Bottom()[0].timer`activated
      ensures Kept() && Rearmable() && t == old(Bottom())[0].timer && t.activated == t.periodic
      ensures Bottom() == if t.periodic then old(Rearmed()) else old(Bottom())[1..]
      ensures old(Valid()) ==> (Valid() <==> t.periodic ==> old(Reachable(Bottom()[0].timer)))
    {
      hide Wrap, OneNodeEach, Nested, Sorted, Without, Cleared, Head, Reaches, InsertAfter;
      t := rows[levels - 1][0].timer;
      ghost var was := rows;
      assert Bottom()[0] in Bottom();
      FirstAlone();
      Remove(t);
      if !t.periodic {
        t.activated := false;
      }
      if t.periodic && t.activated {
        t.activated := false;
        ClearedTwice(was, t);
        Start(t);
      }
    }

    // The test of rt_timer_check finds the timer due.
    ghost predicate Seems(n: Node)
      reads this`now
    {
      (now - n.deadline) % TICK_MODULUS < TICK_HALF
    }

    // The k-th timer of the row seems due, and no timer behind it is misread when it is started again now.
    ghost predicate OnTime(row: Row, k: nat)
      requires k < |row|
      reads this`now, row[k].timer`periodic, row[k].timer`initTick
    {
      && Seems(row[k])
      && (row[k].timer.periodic ==> forall j :: k < j < |row| ==>
           !Misread(row[j].deadline, now + row[k].timer.initTick))
    }

    ghost predicate AllOnTime(row: Row, n: nat)
      requires n <= |row|
      reads this`now, TimersOf(row)`periodic, TimersOf(row)`initTick
    {
      forall k :: 0 <= k < n ==> OnTime(row, k)
    }

    // What rt_timer_check needs of the timers that are due.
    ghost predicate Punctual()
      reads this, Timers()
      requires 0 < levels == |rows|
    {
      AllOnTime(Bottom(), PlainScan(Bottom(), now))
    }

    // The timer was re-armed for one interval from now if it is periodic, and deactivated otherwise.
    ghost predicate Fired(t: Timer, later: Row)
      reads this, t
    {
      if t.periodic then exists m :: m in later && m.timer == t && m.deadline == now + t.initTick
      else !Lists(later, t) && !t.activated
    }

    // After firing was[..i]: was[i..n] is still in front, followed by what expires after now.
    ghost predicate Progress(was: Row, i: nat, n: nat, later: Row)
      reads this, Timers(), TimersOf(was)
    {
      && Valid() && i <= n <= |was| && Bottom() == was[i..n] + later
      && (forall k :: i <= k < n ==> was[k].deadline <= now)
      && Remain(was, i, n, later, now)
      && (forall k :: 0 <= k < i ==> Fired(was[k].timer, later))
    }

    // The timers fired are the first of those found.
    ghost predicate Checking(was: Row, n: nat, fired: seq<Timer>, later: Row)
      reads this, Timers(), TimersOf(was)
    {
      Progress(was, |fired|, n, later) && forall k :: 0 <= k < |fired| ==> fired[k] == was[k].timer
    }

    // The state between two turns of rt_timer_check's loop: all is well so far, or a due timer is stuck.
    ghost predicate Looping(was: Row, n: nat, fired: seq<Timer>, later: Row, stuck: bool)
      reads this, Timers(), TimersOf(was)
    {
      && Kept() && Rearmable() && Timers() <= TimersOf(was) && n <= |was|
      && if stuck then Stuck(Bottom(), now) && !AllOnTime(was, n)
         else Checking(was, n, fired, later) && (levels == 1 ==> AllOnTime(was, |fired|))
    }

    // What rt_timer_check leaves of the list it found.
    ghost predicate Checked(was: Row, fired: seq<Timer>)
      reads this, Timers(), TimersOf(was)
      requires 0 < levels == |rows|
    {
      var n := PlainScan(was, now);
      && |fired| == n && (forall k :: 0 <= k < n ==> fired[k] == was[k].timer && Fired(fired[k], Bottom()))
      && (forall m :: m in Bottom() ==> m.deadline > now && (m in was[n..] || m.timer in fired))
      && (forall k :: n <= k < |was| ==> was[k] in Bottom())
    }

    // A timer that is due is left on the list.
    ghost predicate LeavesDue()
      reads this
      requires 0 < levels == |rows|
    {
      exists m :: m in Bottom() && m.deadline <= now
    }

    // The first timer of the list is the next one.
    lemma FrontTimer(was: Row, i: nat, n: nat, later: Row)
      requires Progress(was, i, n, later) && i < n
      ensures was[i] in was && Bottom() != [] && Bottom()[0] == was[i] && Bottom()[1..] == was[i + 1..n] + later
    {
      hide Valid, Remain, Fired;
      assert was[i..n] == [was[i]] + was[i + 1..n];
    }

    // Starting the first timer again is misled only by a due timer behind it that its deadline misreads, and that is
    // stuck then.
    lemma RearmedWrong(was: Row, i: nat, n: nat, later: Row)
      requires Progress(was, i, n, later) && i < n && was[i].timer.periodic && 0 < was[i].timer.initTick < TICK_HALF
      requires !Reachable(was[i].timer)
      ensures Bottom() != [] && Bottom()[0] == was[i] && !OnTime(was, i) && Stuck(Rearmed(), now)
    {
      hide Woven, InOrder, Wrap, Misread, Reaches, Head, Cleared, InsertAfter, Fired, Stuck, Remain;
      var t, rest := was[i].timer, was[i + 1..n] + later;
      var node, left := NewNode(t), Cleared(rows, t);
      FrontTimer(was, i, n, later);
      FirstAlone();
      LeftOrder(t);
      DescentIsWrong(left, node);
      var h := HeadFor(t);
      MisreadIsEarlier(rest[h + 1].deadline, node.deadline);
      InsertedLater(rest, h, node, now);
      LaterRead(was, i, n, later, h + 1, node.deadline);
    }

    // With one row it is misled by every such timer.
    lemma RearmedRight(was: Row, i: nat, n: nat, later: Row)
      requires Progress(was, i, n, later) && i < n && was[i].timer.periodic && 0 < was[i].timer.initTick < TICK_HALF
      requires Seems(was[i]) && levels == 1 && Reachable(was[i].timer)
      ensures OnTime(was, i)
    {
      hide Woven, InOrder, Wrap, Reaches, Cleared, Fired;
      var t, rest := was[i].timer, was[i + 1..n] + later;
      FrontTimer(was, i, n, later);
      FirstAlone();
      OneRowReaches(Cleared(rows, t), NewNode(t));
      forall j | i < j < |was| ensures !Misread(was[j].deadline, now + t.initTick) {
        assert was[j] in was[i + 1..n] || was[j] in later;
      }
    }

    // What is behind the first timer and misread is a timer of was, behind was[i].
    lemma LaterRead(was: Row, i: nat, n: nat, later: Row, k: nat, added: int)
      requires i < n <= |was| && Remain(was, i, n, later, now) && k < |was[i + 1..n] + later| && added - now < TICK_HALF
      requires Misread((was[i + 1..n] + later)[k].deadline, added)
      ensures exists j :: i < j < |was| && Misread(was[j].deadline, added)
    {
      var m := (was[i + 1..n] + later)[k];
      assert m in was[i + 1..n] || m in later;
      var j :| i + 1 <= j < n && was[j] == m;
    }

    lemma LeftOrder(t: Timer)
      requires Valid() && t.initTick < TICK_HALF
      ensures SkipList(Cleared(rows, t)) && Ahead(Without(Bottom(), t), NewNode(t))
    {
      hide Sorted, OneNodeEach, Nested;
      ClearedWoven(rows, t);
      ClearedInOrder(rows, t);
    }

    // A turn with a due timer stuck, or one that leaves the order right, or that gets a due timer stuck.
    method Fire(ghost was: Row, ghost i: nat, ghost n: nat, ghost later: Row, ghost stuck: bool)
      returns (t: Timer, ghost next: Row, ghost stuck': bool)
      requires Kept() && Rearmable() && Bottom() != [] && Bottom()[0].deadline <= now
      requires if stuck then Stuck(Bottom(), now)
               else Progress(was, i, n, later) && i < n && OneNodeEach(was) && Seems(was[i])
      modifies this`rows, this`starts, this`randomNr, Bottom()[0].timer`timeoutTick, Bottom()[0].timer`activated
      ensures t == old(Bottom())[0].timer && (stuck ==> stuck')
      ensures Kept() && Rearmable() && Timers() <= old(Timers()) && Due(Bottom(), now) < old(Due(Bottom(), now))
      ensures stuck' ==> Stuck(Bottom(), now) && (stuck || !OnTime(was, i))
      ensures !stuck' ==> Progress(was, i + 1, n, next) && (levels == 1 ==> OnTime(was, i))
    {
      hide Kept, Valid, Woven, InOrder, Wrap, Remain, Reachable, Misread, Due, Stuck, InsertAfter, Rearmable;
      KeptShape();
      ghost var front, node := Bottom()[0].timer, NewNode(Bottom()[0].timer);
      FiredDue();
      next, stuck' := later, stuck;
      if stuck {
        StuckBehind(Bottom(), now);
      } else {
        next, stuck' := FireNext(was, i, n, later);
      }
      t := FireFirst();
      KeptShape();
      if !stuck' {
        forall k | 0 <= k < i ensures Fired(was[k].timer, next) {
          assert old(Fired(was[k].timer, later)) && was[k].timer != t;
        }
        assert Fired(t, next) by {
          assert t.periodic ==> node in next;
        }
      }
    }

    // What the next turn leaves, if no due timer is stuck yet.
    lemma FireNext(was: Row, i: nat, n: nat, later: Row) returns (next: Row, stuck: bool)
      requires Progress(was, i, n, later) && Rearmable() && i < n && OneNodeEach(was) && Seems(was[i])
      ensures Bottom() != [] && Bottom()[0] == was[i]
      ensures stuck ==> was[i].timer.periodic && Stuck(Rearmed(), now) && !OnTime(was, i)
      ensures !stuck ==>
        && (levels == 1 ==> OnTime(was, i)) && Remain(was, i + 1, n, next, now) && forall m :: m in later ==> m in next
      ensures !stuck && was[i].timer.periodic ==>
        && Reachable(was[i].timer) && Rearmed() == was[i + 1..n] + next
        && NewNode(was[i].timer) in next && forall m :: m in next ==> m == NewNode(was[i].timer) || m in later
      ensures !stuck && !was[i].timer.periodic ==>
        Bottom()[1..] == was[i + 1..n] + next && next == later && !Lists(later, was[i].timer)
    {
      hide Woven, InOrder, Wrap, Placed, Remain, Reachable, Misread, InsertAfter, Stuck, Without, Fired;
      var node := NewNode(was[i].timer);
      FrontTimer(was, i, n, later);
      RemainNot(was, i, n, later, now);
      next, stuck := later, was[i].timer.periodic && !Reachable(was[i].timer);
      if stuck {
        RearmedWrong(was, i, n, later);
      } else {
        if was[i].timer.periodic {
          RearmedPlaced(was, i, n, later);
          next := PlacedLater(was[i + 1..n], later, node, now);
          if levels == 1 {
            RearmedRight(was, i, n, later);
          }
        }
        RemainNext(was, i, n, later, now, node, next);
      }
    }

    // What a turn does to the due timers, whether the first timer is started again or not.
    lemma FiredDue()
      requires Kept() && Rearmable() && Bottom() != [] && Bottom()[0].deadline <= now
      ensures Due(Bottom()[1..], now) < Due(Bottom(), now) && TimersOf(Bottom()[1..]) <= Timers()
      ensures Bottom()[0].timer.periodic ==>
        && Due(Rearmed(), now) < Due(Bottom(), now) && TimersOf(Rearmed()) <= Timers()
        && (Stuck(Bottom()[1..], now) ==> Stuck(Rearmed(), now))
    {
      hide Woven, InsertAfter, Stuck;
      var t := Bottom()[0].timer;
      FirstAlone();
      if t.periodic {
        InsertedLater(Bottom()[1..], HeadFor(t), NewNode(t), now);
      }
    }

    lemma FrontDue()
      requires Kept() && Bottom() != []
      ensures Minus(tick, Bottom()[0].timer.timeoutTick) == (now - Bottom()[0].deadline) % TICK_MODULUS
      ensures IsDue(tick, Bottom()[0].timer.timeoutTick) ==> Bottom()[0].deadline <= now
    {
      hide Woven;
      MinusOfWraps(now, Bottom()[0].deadline);
    }

    // If the first timer is found due, there is one left to fire; and if it is not, there is none, or it is due.
    lemma FrontSeems(was: Row, n: nat, fired: seq<Timer>, later: Row)
      requires Checking(was, n, fired, later) && n <= |was| && Bottom() != []
      ensures |fired| < n ==> Bottom()[0] == was[|fired|] && Bottom()[0].deadline <= now
      ensures |fired| < n && !Seems(Bottom()[0]) ==> !AllOnTime(was, n) && LeavesDue()
      ensures |fired| == n ==> Bottom()[0].deadline > now
    {
      hide Wrap, Fired, Woven, InOrder;
      if |fired| < n {
        FrontTimer(was, |fired|, n, later);
        assert !Seems(Bottom()[0]) ==> !OnTime(was, |fired|);
      } else {
        assert was[n..n] + later == later;
      }
    }

    // One turn of the loop; `more` is false when the test on the first timer breaks it.
    method Turn(ghost was: Row, ghost n: nat, fired: seq<Timer>, ghost later: Row, ghost stuck: bool)
      returns (more: bool, next: seq<Timer>, ghost later': Row, ghost stuck': bool)
      requires Looping(was, n, fired, later, stuck) && OneNodeEach(was) && Bottom() != []
      modifies this`rows, this`starts, this`randomNr, TimersOf(was)`timeoutTick, TimersOf(was)`activated
      ensures Kept() && Looping(was, n, next, later', stuck') && AllOnTime(was, n) == old(AllOnTime(was, n))
      ensures if more then Due(Bottom(), now) < old(Due(Bottom(), now))
        else Due(Bottom(), now) == old(Due(Bottom(), now))
      ensures more || stuck' || |next| == n || (!AllOnTime(was, n) && LeavesDue())
    {
      hide Woven, InOrder, Wrap, Due, Stuck, Rearmable, Misread, Remain;
      var t := rows[levels - 1][0].timer;
      next, later', stuck' := fired, later, stuck;
      FrontDue();
      more := IsDue(tick, t.timeoutTick);
      assert Bottom()[0] in Bottom() && t in Timers();
      if !stuck {
        FrontSeems(was, n, fired, later);
      }
      if more {
        t, later', stuck' := Fire(was, |fired|, n, later, stuck);
        next := fired + [t];
      }
    }

    /** rt_timer_check, with timeout functions that leave the timer list and the tick alone. It ends, and either fires
        exactly the timers due by now, once each and in the order of expiry, and leaves only later deadlines in order,
        or leaves a due timer unfired. The first it does if all due timers are on time, and with one row only then. */
    method Check() returns (fired: seq<Timer>)
      requires Valid() && Rearmable()
      modifies this`rows, this`starts, this`randomNr, Timers()`timeoutTick, Timers()`activated
      ensures Kept() && if Checked(old(Bottom()), fired) then Valid() else LeavesDue()
      ensures old(Punctual()) ==> Checked(old(Bottom()), fired)
      ensures levels == 1 ==> (old(Punctual()) <==> Checked(old(Bottom()), fired))
    {
      hide Kept, InOrder, PlainScan, Looping, Checked, TimersOf, OnTime, Due, Rearmable;
      KeptShape();
      ghost var was, n := Bottom(), PlainScan(Bottom(), now);
      ghost var later, stuck := was[n..], false;
      NoneFired();
      assert Timers() == TimersOf(was);
      fired := [];
      var more := true;
      while rows[levels - 1] != [] && more
        invariant Kept() && Looping(was, n, fired, later, stuck) && 0 < levels == |rows|
        invariant AllOnTime(was, n) == old(Punctual())
        invariant !more ==> stuck || |fired| == n || (!AllOnTime(was, n) && LeavesDue())
        decreases Due(Bottom(), now), more
      {
        more, fired, later, stuck := Turn(was, n, fired, later, stuck);
        KeptShape();
      }
      AllFired(was, n, fired, later, stuck);
    }

    lemma NoneFired()
      requires Valid() && Rearmable()
      ensures Looping(Bottom(), PlainScan(Bottom(), now), [], Bottom()[PlainScan(Bottom(), now)..], false)
      ensures OneNodeEach(Bottom())
    {
      hide Sorted, PlainScan, OneNodeEach, Nested, Before, Wrap;
      var was, n := Bottom(), PlainScan(Bottom(), now);
      BottomOrdered(rows);
      PlainScanOfSorted(was, now);
      assert was == was[0..n] + was[n..];
    }

    lemma AllFired(was: Row, n: nat, fired: seq<Timer>, later: Row, stuck: bool)
      requires Looping(was, n, fired, later, stuck) && n == PlainScan(was, now)
      requires Bottom() == [] || stuck || |fired| == n || (!AllOnTime(was, n) && LeavesDue())
      ensures if Checked(was, fired) then Valid() && (levels == 1 ==> AllOnTime(was, n))
              else LeavesDue() && !AllOnTime(was, n)
    {
      hide PlainScan, Woven, InOrder, Wrap, Fired, OnTime, Rearmable;
      if !stuck {
        assert |Bottom()| == n - |fired| + |later|;
        assert was[n..n] + later == later;
      }
    }

    // A start on an empty list.
    lemma FirstStart(t: Timer)
      requires Kept() && Bottom() == []
      ensures Without(Bottom(), t) == [] && Reachable(t) && Placed([], NewNode(t)) == [NewNode(t)]
    {
      hide Woven, Wrap, Misread, Bridged;
    }

    method StartFirst(t: Timer)
      requires Valid() && t.initTick < TICK_HALF && Bottom() == []
      modifies this`rows, this`starts, this`randomNr, t`timeoutTick, t`activated
      ensures Valid() && Bottom() == [old(NewNode(t))]
    {
      hide Woven, InOrder, Wrap, Misread, Reachable, Without, Placed, InsertAfter;
      FirstStart(t);
      Start(t);
    }

    // A start with one timer on one row.
    lemma SecondStart(t: Timer)
      requires Valid() && levels == 1 && t.initTick < TICK_HALF && |Bottom()| == 1 && Bottom()[0].timer != t
      ensures Without(Bottom(), t) == Bottom() && (Reachable(t) <==> !Misread(Bottom()[0].deadline, now + t.initTick))
      ensures !Reachable(t) ==> InsertAfter(Bottom(), HeadFor(t), NewNode(t)) == [NewNode(t), Bottom()[0]]
      ensures Bottom()[0].deadline <= now + t.initTick ==> Placed(Bottom(), NewNode(t)) == [Bottom()[0], NewNode(t)]
    {
      hide Woven, InOrder, Wrap, Misread, Reaches, Head, Without, Cleared, InsertAfter, Placed;
      var row, node := Bottom(), NewNode(t);
      assert !Lists(row, t);
      WithoutAbsent(row, t);
      LeftOrder(t);
      OneRowReaches(Cleared(rows, t), node);
      assert row[0] in row && forall b :: b in row ==> b == row[0];
      if !Reachable(t) {
        DescentIsWrong(Cleared(rows, t), node);
        InsertedFirst(row, HeadFor(t), node);
      }
      PlacedBehind(row, node);
    }

    method StartSecond(t: Timer)
      requires Valid() && levels == 1 && t.initTick < TICK_HALF && |Bottom()| == 1 && Bottom()[0].timer != t
      requires Bottom()[0].deadline <= now + t.initTick
      modifies this`rows, this`starts, this`randomNr, t`timeoutTick, t`activated
      ensures Kept() && (Valid() <==> !Misread(old(Bottom())[0].deadline, now + t.initTick))
      ensures Bottom() == if Valid() then [old(Bottom())[0], old(NewNode(t))] else [old(NewNode(t)), old(Bottom())[0]]
    {
      hide Woven, InOrder, Wrap, Misread, Reachable, Without, Placed, InsertAfter;
      SecondStart(t);
      Start(t);
    }

    lemma DueExactly(k: nat)
      requires Kept() && k < |Bottom()| && now - Bottom()[k].deadline < TICK_HALF
      ensures IsDue(tick, Bottom()[k].timer.timeoutTick) <==> Bottom()[k].deadline <= now
    {
      hide Woven;
      assert Bottom()[k] in Bottom();
      IsDueExactly(now, Bottom()[k].deadline);
    }

    // Of two due timers the second is misread when the first is started again.
    lemma SecondMisread()
      requires Valid() && |Bottom()| == 2 && Bottom()[0].deadline <= now && Bottom()[1].deadline <= now
      requires Bottom()[0].timer.periodic && Misread(Bottom()[1].deadline, now + Bottom()[0].timer.initTick)
      ensures !Punctual()
    {
      hide Woven, InOrder, Misread, Wrap;
      var row := Bottom();
      assert PlainScan(row, now) == 1 + PlainScan(row[1..], now);
      assert !OnTime(row, 0);
    }

    // If the first timer is started again where it belongs, it goes behind all that are still due.
    lemma RearmedPlaced(was: Row, i: nat, n: nat, later: Row)
      requires Progress(was, i, n, later) && i < n && was[i].timer.periodic && 0 < was[i].timer.initTick < TICK_HALF
      ensures Bottom() != []
      ensures Reachable(was[i].timer) ==> Rearmed() == Placed(was[i + 1..n] + later, NewNode(was[i].timer))
    {
      var t := was[i].timer;
      FrontTimer(was, i, n, later);
      FirstAlone();
      LeftOrder(t);
      hide Wrap, InOrder, Woven, Remain, Fired, InsertAfter, Placed, Head, Cleared;
      PlacedExactly(Cleared(rows, t), NewNode(t));
    }
  }

  // A list with a timer that is due when the tick is at its largest: it looks empty to the caller of `NextTimeout`.
  method LooksEmpty() returns (list: TimerList, timeout: nat)
    ensures fresh(list) && list.Valid() && |list.Bottom()| == 1 && timeout == TICK_MAX
  {
    hide Woven, InOrder;
    list := new TimerList(1, TICK_MAX - 5);
    var t := new Timer(5, false);
    list.StartFirst(t);
    timeout := list.NextTimeout();
  }

  // A list with one row and one timer.
  method FirstTimer(interval: nat, periodic: bool) returns (list: TimerList, t: Timer)
    requires interval < TICK_HALF
    ensures fresh(list) && fresh(t) && list.Valid() && list.levels == 1 && list.now == 0 && t.initTick == interval
    ensures t.periodic == periodic
    ensures |list.Bottom()| == 1 && list.Bottom()[0].timer == t && list.Bottom()[0].deadline == interval
  {
    hide Woven, InOrder, Wrap;
    list := new TimerList(1, 0);
    t := new Timer(interval, periodic);
    list.StartFirst(t);
  }

  // The clock goes on without a check, as it does for soft timers while their thread has to wait.
  method LateBy(list: TimerList, ticks: nat)
    requires list.Valid()
    modifies list`tick, list`now
    ensures list.Valid() && list.now == old(list.now) + ticks
  {
    for i := 0 to ticks
      invariant list.Valid() && list.now == old(list.now) + i
    {
      list.Advance();
    }
  }

  // A start that goes wrong: with a timer four ticks late, the longest interval that is accepted puts the new timer in
  // front of it, where it is not due and keeps the check from the one that is.
  method MisplacedStart() returns (list: TimerList)
    ensures fresh(list) && list.Kept() && !list.Valid() && |list.Bottom()| == 2
    ensures list.Bottom()[0].deadline > list.now && !IsDue(list.tick, list.Bottom()[0].timer.timeoutTick)
    ensures list.Bottom()[1].deadline <= list.now && IsDue(list.tick, list.Bottom()[1].timer.timeoutTick)
  {
    hide Woven, InOrder, Wrap, IsDue;
    var late;
    list, late := FirstTimer(0, false);
    LateBy(list, 4);
    var t := new Timer(0x7fff_fffe, false);
    list.StartSecond(t);
    list.DueExactly(0);
    list.DueExactly(1);
  }

  // A periodic timer and one that is due a tick later, when both are late.
  method LatePair() returns (list: TimerList)
    ensures fresh(list) && fresh(list.Timers()) && list.Valid() && list.Rearmable() && list.levels == 1
    ensures !list.Punctual()
  {
    hide Woven, InOrder, Wrap;
    var p;
    list, p := FirstTimer(0x7fff_fffe, true);
    LateBy(list, 0x7fff_fffe);
    var q := new Timer(1, false);
    list.StartSecond(q);
    LateBy(list, 5);
    list.SecondMisread();
  }

  // And a check that goes wrong in the same way, when it starts a periodic timer again in front of one that is due.
  method DueTimerLeft() returns (list: TimerList, fired: seq<Timer>)
    ensures fresh(list) && list.Kept() && list.LeavesDue()
  {
    hide Woven, InOrder, Wrap;
    list := LatePair();
    fired := list.Check();
  }
}
