/** The memory heap of rt-smart/src/memheap.c: a ring of blocks that tile the pool, and a ring of the free ones.

    Addresses are offsets from the start of the pool. The blocks are kept in address order without the tailer, an
    empty used block at `end` that closes the ring. The free list is kept in its own order, its header left out. */
module MemHeap {
  import opened Common
  import opened Ring

  // RT_MEMHEAP_SIZE on the 64-bit boards, and the least size of a block.
  const HEADER := 48
  const MINIALLOC := 12

  datatype Block = Block(start: nat, used: bool)

  type Blocks = seq<Block>

  // Where the first of some blocks starts; `end` closes the pool.
  function Start(bs: Blocks, end: nat): nat {
    if bs == [] then end else bs[0].start
  }

  function NextStart(bs: Blocks, end: nat, i: nat): nat
    requires i < |bs|
  {
    if i + 1 < |bs| then bs[i + 1].start else end
  }

  // MEMITEM_SIZE
  function Room(bs: Blocks, end: nat, i: nat): int
    requires i < |bs|
  {
    NextStart(bs, end, i) - bs[i].start - HEADER
  }

  // Each block has room for its header, up to the next block.
  ghost predicate Tiles(bs: Blocks, end: nat) {
    forall i :: 0 <= i < |bs| ==> Room(bs, end, i) >= 0
  }

  ghost predicate Coalesced(bs: Blocks) {
    forall i :: 0 <= i < |bs| - 1 ==> bs[i].used || bs[i + 1].used
  }

  function FreeStarts(bs: Blocks): set<int> {
    if bs == [] then {} else (if bs[0].used then {} else {bs[0].start}) + FreeStarts(bs[1..])
  }

  // The user bytes of the free blocks.
  function FreeRoom(bs: Blocks, end: nat): int {
    if bs == [] then 0 else (if bs[0].used then 0 else Room(bs, end, 0)) + FreeRoom(bs[1..], end)
  }

  ghost predicate ListsFree(free: seq<int>, bs: Blocks) {
    Distinct(free) && forall x :: x in free <==> x in FreeStarts(bs)
  }

  /** The blocks tile the pool, no two neighbours are free, the free list has each free block once, and `available`
      is the room of the free blocks. */
  ghost predicate Inv(bs: Blocks, end: nat, free: seq<int>, available: int) {
    && bs != [] && bs[0].start == 0 && Tiles(bs, end) && Coalesced(bs)
    && ListsFree(free, bs) && available == FreeRoom(bs, end)
  }

  // n blocks from the i-th on are replaced by others.
  function Replaced(bs: Blocks, i: nat, n: nat, mid: Blocks): Blocks
    requires i + n <= |bs|
  {
    bs[..i] + mid + bs[i + n..]
  }

  lemma {:induction false} FreeRoomOfSum(a: Blocks, b: Blocks, end: nat)
    ensures FreeRoom(a + b, end) == FreeRoom(a, Start(b, end)) + FreeRoom(b, end)
  {
    if a == [] {
      assert a + b == b;
    } else {
      assert (a + b)[1..] == a[1..] + b;
      FreeRoomOfSum(a[1..], b, end);
    }
  }

  lemma {:induction false} FreeStartsOfSum(a: Blocks, b: Blocks)
    ensures FreeStarts(a + b) == FreeStarts(a) + FreeStarts(b)
  {
    if a == [] {
      assert a + b == b;
    } else {
      assert (a + b)[1..] == a[1..] + b;
      FreeStartsOfSum(a[1..], b);
    }
  }

  // Replacing blocks changes the free room by that of the blocks exchanged, if they cover the same addresses.
  lemma FreeRoomReplaced(bs: Blocks, end: nat, i: nat, n: nat, mid: Blocks)
    requires i + n <= |bs| && n > 0 && mid != [] && mid[0].start == bs[i].start
    ensures var last := Start(bs[i + n..], end);
            FreeRoom(Replaced(bs, i, n, mid), end) - FreeRoom(mid, last)
              == FreeRoom(bs, end) - FreeRoom(bs[i..i + n], last)
  {
    var a, b, c := bs[..i], bs[i..i + n], bs[i + n..];
    assert bs == a + (b + c) && Replaced(bs, i, n, mid) == a + (mid + c);
    FreeRoomOfSum(a, b + c, end);
    FreeRoomOfSum(b, c, end);
    FreeRoomOfSum(a, mid + c, end);
    FreeRoomOfSum(mid, c, end);
  }

  lemma FreeStartsReplaced(bs: Blocks, i: nat, n: nat, mid: Blocks)
    requires i + n <= |bs|
    ensures FreeStarts(bs) == FreeStarts(bs[..i]) + FreeStarts(bs[i..i + n]) + FreeStarts(bs[i + n..])
    ensures FreeStarts(Replaced(bs, i, n, mid)) == FreeStarts(bs[..i]) + FreeStarts(mid) + FreeStarts(bs[i + n..])
  {
    var a, b, c := bs[..i], bs[i..i + n], bs[i + n..];
    assert bs == a + b + c;
    FreeStartsOfSum(a + b, c);
    FreeStartsOfSum(a, b);
    FreeStartsOfSum(a + mid, c);
    FreeStartsOfSum(a, mid);
  }

  lemma TilesReplaced(bs: Blocks, end: nat, i: nat, n: nat, mid: Blocks)
    requires Tiles(bs, end) && i + n <= |bs| && n > 0 && mid != [] && mid[0].start == bs[i].start
    requires Tiles(mid, Start(bs[i + n..], end))
    ensures Tiles(Replaced(bs, i, n, mid), end)
  {
    var r, last := Replaced(bs, i, n, mid), Start(bs[i + n..], end);
    forall k | 0 <= k < |r| ensures Room(r, end, k) >= 0 {
      if k < i {
        assert Room(r, end, k) == Room(bs, end, k);
      } else if k < i + |mid| {
        assert Room(r, end, k) == Room(mid, last, k - i);
      } else {
        assert Room(r, end, k) == Room(bs, end, k - |mid| + n);
      }
    }
  }

  // Blocks start in address order, a header apart.
  lemma {:induction false} StartsIncrease(bs: Blocks, end: nat, i: nat, j: nat)
    requires Tiles(bs, end) && i < j < |bs|
    ensures bs[i].start + HEADER <= bs[j].start && bs[j].start + HEADER <= end
    decreases |bs| - i
  {
    assert Room(bs, end, i) >= 0;
    if i + 1 < j {
      StartsIncrease(bs, end, i + 1, j);
    } else {
      BeforeEnd(bs, end, j);
    }
  }

  lemma {:induction false} BeforeEnd(bs: Blocks, end: nat, i: nat)
    requires Tiles(bs, end) && i < |bs|
    ensures bs[i].start + HEADER <= end
    decreases |bs| - i
  {
    assert Room(bs, end, i) >= 0;
    if i + 1 < |bs| {
      BeforeEnd(bs, end, i + 1);
    }
  }

  lemma {:induction false} FreeStartIs(bs: Blocks, x: int) returns (k: nat)
    requires x in FreeStarts(bs)
    ensures k < |bs| && bs[k].start == x && !bs[k].used
  {
    if !bs[0].used && bs[0].start == x {
      k := 0;
    } else {
      var j := FreeStartIs(bs[1..], x);
      k := j + 1;
    }
  }

  lemma {:induction false} FreeBlockStarts(bs: Blocks, k: nat)
    requires k < |bs| && !bs[k].used
    ensures bs[k].start in FreeStarts(bs)
  {
    if k > 0 {
      FreeBlockStarts(bs[1..], k - 1);
    }
  }

  // A block start is free only as its own block is.
  lemma OwnStart(bs: Blocks, end: nat, k: nat)
    requires Tiles(bs, end) && k < |bs|
    ensures bs[k].start in FreeStarts(bs) <==> !bs[k].used
  {
    if !bs[k].used {
      FreeBlockStarts(bs, k);
    } else if bs[k].start in FreeStarts(bs) {
      var j := FreeStartIs(bs, bs[k].start);
      if j < k {
        StartsIncrease(bs, end, j, k);
      } else {
        StartsIncrease(bs, end, k, j);
      }
    }
  }

  // Addresses inside a block, behind its start, are not where a block starts.
  lemma InsideIsNoStart(bs: Blocks, end: nat, k: nat, x: int)
    requires Tiles(bs, end) && k < |bs| && bs[k].start < x < NextStart(bs, end, k)
    ensures x !in FreeStarts(bs) && x != end && forall j :: 0 <= j < |bs| ==> bs[j].start != x
  {
    forall j | 0 <= j < |bs| ensures bs[j].start != x {
      if j < k {
        StartsIncrease(bs, end, j, k);
      } else if j > k + 1 {
        StartsIncrease(bs, end, k + 1, j);
      }
    }
    if x in FreeStarts(bs) {
      var j := FreeStartIs(bs, x);
    }
    if k + 1 < |bs| {
      BeforeEnd(bs, end, k + 1);
    }
  }

  function Rounded(size: nat): (r: nat)
    ensures r >= size && r >= MINIALLOC
  {
    if AlignUp(size) < MINIALLOC then MINIALLOC else AlignUp(size)
  }

  // A size that rt_memheap_alloc can look for and that is enough for the request.
  predicate Enough(n: int, size: nat) {
    (n % 8 == 0 || n == MINIALLOC) && size <= n && MINIALLOC <= n
  }

  /** The size looked for is the least that is aligned or minimal and enough for the request, but that it is aligned for
      requests of more than eight bytes. Rounding twice, as rt_memheap_realloc does, makes the minimal size sixteen. */
  lemma RoundedIsLeast(size: nat, n: int)
    ensures Enough(Rounded(size), size) && (Enough(n, size) && (n % 8 == 0 || size <= 8) ==> Rounded(size) <= n)
    ensures Rounded(size) % 8 == 0 <==> size > 8
    ensures Rounded(Rounded(size)) == if size <= 8 then 16 else Rounded(size)
  {
  }

  // What rt_memheap_alloc turns down: a request for all that is available or more, and one that no free block has room
  // for.
  ghost predicate NoRoom(bs: Blocks, end: nat, available: int, n: nat) {
    available <= n || forall i :: 0 <= i < |bs| && !bs[i].used ==> Room(bs, end, i) < n
  }

  // The block that starts at x, or the number of blocks.
  function IndexOf(bs: Blocks, x: int): (k: nat)
    ensures k <= |bs| && (k < |bs| ==> bs[k].start == x)
  {
    if bs == [] || bs[0].start == x then 0 else 1 + IndexOf(bs[1..], x)
  }

  lemma {:induction false} IndexOfStart(bs: Blocks, end: nat, k: nat)
    requires Tiles(bs, end) && k < |bs|
    ensures IndexOf(bs, bs[k].start) == k
  {
    if k > 0 {
      StartsIncrease(bs, end, 0, k);
      TilesTail(bs, end);
      IndexOfStart(bs[1..], end, k - 1);
    }
  }

  function RoomAt(bs: Blocks, end: nat, x: int): int {
    var k := IndexOf(bs, x);
    if k < |bs| then Room(bs, end, k) else -1
  }

  // The position on the free list of the first block with room for `size`, or the length of the list.
  function FirstFit(free: seq<int>, bs: Blocks, end: nat, size: nat): (k: nat)
    ensures k <= |free| && (k < |free| ==> RoomAt(bs, end, free[k]) >= size)
    ensures forall i :: 0 <= i < k ==> RoomAt(bs, end, free[i]) < size
  {
    if free == [] || RoomAt(bs, end, free[0]) >= size then 0 else 1 + FirstFit(free[1..], bs, end, size)
  }

  // A free block is put to use, and split if enough is left for another.
  function Taken(bs: Blocks, end: nat, i: nat, size: nat): Blocks
    requires i < |bs|
  {
    var s := bs[i].start;
    if Room(bs, end, i) >= size + HEADER + MINIALLOC
      then Replaced(bs, i, 1, [Block(s, true), Block(s + HEADER + size, false)])
    else Replaced(bs, i, 1, [Block(s, true)])
  }

  function TakenFree(bs: Blocks, end: nat, i: nat, size: nat, free: seq<int>): seq<int>
    requires i < |bs|
  {
    var s := bs[i].start;
    (if Room(bs, end, i) >= size + HEADER + MINIALLOC then [s + HEADER + size] else []) + Without(free, s)
  }

  function TakenAvailable(bs: Blocks, end: nat, i: nat, size: nat, available: int): int
    requires i < |bs|
  {
    if Room(bs, end, i) >= size + HEADER + MINIALLOC then available - size - HEADER else available - Room(bs, end, i)
  }

  // What the addresses of free blocks outside a stretch of blocks cannot be.
  lemma FreeElsewhere(bs: Blocks, end: nat, i: nat, n: nat, x: int)
    requires Tiles(bs, end) && i + n <= |bs| && x in FreeStarts(bs[i..i + n])
    ensures x !in FreeStarts(bs[..i]) && x !in FreeStarts(bs[i + n..])
  {
    var k := FreeStartIs(bs[i..i + n], x);
    if x in FreeStarts(bs[..i]) {
      var j := FreeStartIs(bs[..i], x);
      StartsIncrease(bs, end, j, i + k);
    }
    if x in FreeStarts(bs[i + n..]) {
      var j := FreeStartIs(bs[i + n..], x);
      StartsIncrease(bs, end, i + k, i + n + j);
    }
  }

  // Blocks are exchanged for others on the same addresses, and the free list and the counter follow.
  lemma ExchangeKeeps(bs: Blocks, end: nat, free: seq<int>, available: int, i: nat, n: nat, mid: Blocks,
                      free': seq<int>, available': int)
    requires Inv(bs, end, free, available) && i + n <= |bs| && n > 0 && mid != [] && mid[0].start == bs[i].start
    requires Tiles(mid, Start(bs[i + n..], end)) && Coalesced(Replaced(bs, i, n, mid))
    requires Distinct(free')
    requires forall x :: x in free' <==> x in FreeStarts(mid) || (x in free && x !in FreeStarts(bs[i..i + n]))
    requires var last := Start(bs[i + n..], end);
      available' - FreeRoom(mid, last) == available - FreeRoom(bs[i..i + n], last)
    ensures Inv(Replaced(bs, i, n, mid), end, free', available')
  {
    TilesReplaced(bs, end, i, n, mid);
    FreeRoomReplaced(bs, end, i, n, mid);
    FreeStartsReplaced(bs, i, n, mid);
    forall x | x in FreeStarts(bs[i..i + n]) ensures x !in FreeStarts(bs[..i]) && x !in FreeStarts(bs[i + n..]) {
      FreeElsewhere(bs, end, i, n, x);
    }
    hide Tiles, Coalesced, FreeRoom, FreeStarts, Distinct;
  }

  lemma OneBlock(b: Block, last: nat)
    ensures FreeStarts([b]) == (if b.used then {} else {b.start})
    ensures FreeRoom([b], last) == if b.used then 0 else last - b.start - HEADER
    ensures Room([b], last, 0) == last - b.start - HEADER
    ensures b.start + HEADER <= last ==> Tiles([b], last)
  {
    assert [b][1..] == [];
  }

  lemma TwoBlocks(a: Block, b: Block, last: nat)
    ensures FreeStarts([a, b]) == FreeStarts([a]) + FreeStarts([b])
    ensures FreeRoom([a, b], last) == FreeRoom([a], b.start) + FreeRoom([b], last)
    ensures a.start + HEADER <= b.start && b.start + HEADER <= last ==> Tiles([a, b], last)
  {
    assert [a, b] == [a] + [b];
    FreeStartsOfSum([a], [b]);
    FreeRoomOfSum([a], [b], last);
  }

  lemma SliceOne(bs: Blocks, end: nat, i: nat)
    requires i < |bs|
    ensures bs[i..i + 1] == [bs[i]] && Start(bs[i + 1..], end) == NextStart(bs, end, i)
  {
  }

  lemma SliceTwo(bs: Blocks, end: nat, i: nat)
    requires i + 1 < |bs|
    ensures bs[i..i + 2] == [bs[i], bs[i + 1]] && Start(bs[i + 2..], end) == NextStart(bs, end, i + 1)
  {
  }

  lemma TakenKeeps(bs: Blocks, end: nat, free: seq<int>, available: int, i: nat, size: nat)
    requires Inv(bs, end, free, available) && i < |bs| && !bs[i].used && Room(bs, end, i) >= size
    ensures Inv(Taken(bs, end, i, size), end, TakenFree(bs, end, i, size, free),
      TakenAvailable(bs, end, i, size, available))
  {
    var s, last, split := bs[i].start, NextStart(bs, end, i), Room(bs, end, i) >= size + HEADER + MINIALLOC;
    var rest := Block(s + HEADER + size, false);
    var mid := if split then [Block(s, true), rest] else [Block(s, true)];
    SliceOne(bs, end, i);
    OneBlock(bs[i], last);
    OneBlock(Block(s, true), last);
    WithoutDistinct(free, s);
    var free' := TakenFree(bs, end, i, size, free);
    if split {
      OneBlock(Block(s, true), rest.start);
      OneBlock(rest, last);
      TwoBlocks(Block(s, true), rest, last);
      InsideIsNoStart(bs, end, i, rest.start);
      assert Distinct(free');
    }
    hide FreeStarts, FreeRoom, Tiles, Distinct;
    assert Coalesced(Replaced(bs, i, 1, mid));
    ExchangeKeeps(bs, end, free, available, i, 1, mid, free', TakenAvailable(bs, end, i, size, available));
  }

  predicate LeftFree(bs: Blocks, i: nat)
    requires i < |bs|
  {
    i > 0 && !bs[i - 1].used
  }

  predicate RightFree(bs: Blocks, i: nat)
    requires i < |bs|
  {
    i + 1 < |bs| && !bs[i + 1].used
  }

  // A block is freed, together with its free neighbours.
  function Freed(bs: Blocks, i: nat): Blocks
    requires i < |bs|
  {
    var lo := if LeftFree(bs, i) then i - 1 else i;
    var n := i + 1 - lo + if RightFree(bs, i) then 1 else 0;
    Replaced(bs, lo, n, [Block(bs[lo].start, false)])
  }

  function FreedFree(bs: Blocks, i: nat, free: seq<int>): seq<int>
    requires i < |bs|
  {
    var others := if RightFree(bs, i) then Without(free, bs[i + 1].start) else free;
    if LeftFree(bs, i) then others else [bs[i].start] + others
  }

  function FreedAvailable(bs: Blocks, end: nat, i: nat, available: int): int
    requires i < |bs|
  {
    available + Room(bs, end, i) + (if LeftFree(bs, i) then HEADER else 0) + if RightFree(bs, i) then HEADER else 0
  }

  lemma SliceStarts(bs: Blocks, lo: nat, hi: nat)
    requires lo < hi <= |bs|
    ensures bs[lo..hi] == [bs[lo]] + bs[lo + 1..hi]
  {
  }

  // A block with its free neighbours.
  lemma SliceAround(bs: Blocks, i: nat)
    requires i < |bs|
    ensures var lo, hi := if LeftFree(bs, i) then i - 1 else i, if RightFree(bs, i) then i + 2 else i + 1;
            bs[lo..hi] == (if LeftFree(bs, i) then [bs[i - 1]] else [])
              + ([bs[i]] + if RightFree(bs, i) then [bs[i + 1]] else [])
  {
    var hi := if RightFree(bs, i) then i + 2 else i + 1;
    SliceStarts(bs, i, hi);
    if RightFree(bs, i) {
      SliceStarts(bs, i + 1, hi);
    }
    if LeftFree(bs, i) {
      SliceStarts(bs, i - 1, hi);
    }
  }

  // The blocks that a free joins: what they are, and what they add up to.
  lemma FreedSlice(bs: Blocks, end: nat, i: nat)
    requires Tiles(bs, end) && i < |bs| && bs[i].used
    ensures var lo := if LeftFree(bs, i) then i - 1 else i;
            var n := i + 1 - lo + if RightFree(bs, i) then 1 else 0;
            var last := Start(bs[lo + n..], end);
            && lo + n <= |bs| && bs[lo].start + HEADER <= last
            && FreeStarts(bs[lo..lo + n]) ==
                 (if LeftFree(bs, i) then {bs[i - 1].start} else {})
                   + (if RightFree(bs, i) then {bs[i + 1].start} else {})
            && last - bs[lo].start - HEADER - FreeRoom(bs[lo..lo + n], last) == FreedAvailable(bs, end, i, 0)
  {
    var lo := if LeftFree(bs, i) then i - 1 else i;
    var hi := if RightFree(bs, i) then i + 2 else i + 1;
    var last := Start(bs[hi..], end);
    assert Room(bs, end, i) >= 0 && Room(bs, end, hi - 1) >= 0 && Room(bs, end, lo) >= 0;
    OneBlock(bs[i], NextStart(bs, end, i));
    var right := if RightFree(bs, i) then [bs[i + 1]] else [];
    var left := if LeftFree(bs, i) then [bs[i - 1]] else [];
    if RightFree(bs, i) {
      OneBlock(bs[i + 1], last);
    }
    if LeftFree(bs, i) {
      OneBlock(bs[i - 1], bs[i].start);
    }
    SliceAround(bs, i);
    FreeRoomOfSum(left, [bs[i]] + right, last);
    FreeRoomOfSum([bs[i]], right, last);
    FreeStartsOfSum(left, [bs[i]] + right);
    FreeStartsOfSum([bs[i]], right);
    hide Tiles;
  }

  lemma FreedLists(bs: Blocks, end: nat, i: nat, free: seq<int>)
    requires Tiles(bs, end) && ListsFree(free, bs) && i < |bs| && bs[i].used
    ensures var free', lo := FreedFree(bs, i, free), if LeftFree(bs, i) then i - 1 else i;
            && Distinct(free')
            && forall x :: x in free' <==>
                 x == bs[lo].start
                   || (x in free && !(LeftFree(bs, i) && x == bs[i - 1].start)
                     && !(RightFree(bs, i) && x == bs[i + 1].start))
  {
    OwnStart(bs, end, i);
    if LeftFree(bs, i) {
      OwnStart(bs, end, i - 1);
    }
    if RightFree(bs, i) {
      WithoutDistinct(free, bs[i + 1].start);
      StartsIncrease(bs, end, i, i + 1);
      if LeftFree(bs, i) {
        StartsIncrease(bs, end, i - 1, i + 1);
      }
    }
    hide FreeStarts, Tiles;
  }

  lemma FreedCoalesced(bs: Blocks, i: nat)
    requires Coalesced(bs) && i < |bs| && bs[i].used
    ensures Coalesced(Freed(bs, i))
  {
  }

  lemma FreedKeeps(bs: Blocks, end: nat, free: seq<int>, available: int, i: nat)
    requires Inv(bs, end, free, available) && i < |bs| && bs[i].used
    ensures Inv(Freed(bs, i), end, FreedFree(bs, i, free), FreedAvailable(bs, end, i, available))
  {
    hide FreeStarts, FreeRoom, Tiles, Distinct, Coalesced, Room, Without, FreedFree;
    var lo := if LeftFree(bs, i) then i - 1 else i;
    var n := i + 1 - lo + if RightFree(bs, i) then 1 else 0;
    FreedSlice(bs, end, i);
    OneBlock(Block(bs[lo].start, false), Start(bs[lo + n..], end));
    FreedLists(bs, end, i, free);
    FreedCoalesced(bs, i);
    ExchangeKeeps(bs, end, free, available, lo, n, [Block(bs[lo].start, false)], FreedFree(bs, i, free),
      FreedAvailable(bs, end, i, available));
  }

  // A used block ends after `size` bytes: what is behind them, with the next block if that is free, is a free block.
  function Cut(bs: Blocks, i: nat, size: nat): Blocks
    requires i < |bs|
  {
    var s := bs[i].start;
    Replaced(bs, i, if RightFree(bs, i) then 2 else 1, [Block(s, true), Block(s + HEADER + size, false)])
  }

  function CutFree(bs: Blocks, i: nat, size: nat, free: seq<int>): seq<int>
    requires i < |bs|
  {
    [bs[i].start + HEADER + size] + if RightFree(bs, i) then Without(free, bs[i + 1].start) else free
  }

  function CutAvailable(bs: Blocks, end: nat, i: nat, size: nat, available: int): int
    requires i < |bs|
  {
    available + Room(bs, end, i) - size - if RightFree(bs, i) then 0 else HEADER
  }

  // Where the block behind the cut ends.
  function CutEnd(bs: Blocks, end: nat, i: nat): nat
    requires i < |bs|
  {
    if RightFree(bs, i) then NextStart(bs, end, i + 1) else NextStart(bs, end, i)
  }

  lemma CutKeeps(bs: Blocks, end: nat, free: seq<int>, available: int, i: nat, size: nat)
    requires Inv(bs, end, free, available) && i < |bs| && bs[i].used
    requires bs[i].start + 2 * HEADER + size <= CutEnd(bs, end, i)
    requires RightFree(bs, i) ==> bs[i].start + HEADER + size != bs[i + 1].start
    ensures Inv(Cut(bs, i, size), end, CutFree(bs, i, size, free), CutAvailable(bs, end, i, size, available))
  {
    hide FreeStarts, FreeRoom, Tiles, Coalesced, Without, Distinct, CutFree;
    var s, last, n := bs[i].start, CutEnd(bs, end, i), if RightFree(bs, i) then 2 else 1;
    var kept, rest := Block(s, true), Block(s + HEADER + size, false);
    OneBlock(bs[i], NextStart(bs, end, i));
    OneBlock(kept, rest.start);
    OneBlock(rest, last);
    TwoBlocks(kept, rest, last);
    CutLists(bs, end, i, size, free);
    CutCoalesced(bs, i, size);
    if RightFree(bs, i) {
      SliceTwo(bs, end, i);
      OneBlock(bs[i + 1], last);
      TwoBlocks(bs[i], bs[i + 1], last);
    } else {
      SliceOne(bs, end, i);
    }
    ExchangeKeeps(bs, end, free, available, i, n, [kept, rest], CutFree(bs, i, size, free),
      CutAvailable(bs, end, i, size, available));
  }

  lemma CutCoalesced(bs: Blocks, i: nat, size: nat)
    requires Coalesced(bs) && i < |bs| && bs[i].used
    ensures Coalesced(Cut(bs, i, size))
  {
  }

  lemma CutLists(bs: Blocks, end: nat, i: nat, size: nat, free: seq<int>)
    requires Tiles(bs, end) && ListsFree(free, bs) && i < |bs| && bs[i].used
    requires bs[i].start + 2 * HEADER + size <= CutEnd(bs, end, i)
    requires RightFree(bs, i) ==> bs[i].start + HEADER + size != bs[i + 1].start
    ensures var free', rest := CutFree(bs, i, size, free), bs[i].start + HEADER + size;
            Distinct(free') && forall x :: x in free' <==>
              x == rest || (x in free && !(RightFree(bs, i) && x == bs[i + 1].start))
  {
    hide Distinct, Tiles, FreeStarts, Without;
    CutLinks(bs, end, i, size, free);
    if RightFree(bs, i) {
      WithoutDistinct(free, bs[i + 1].start);
      DistinctWith(Without(free, bs[i + 1].start), bs[i].start + HEADER + size);
    } else {
      DistinctWith(free, bs[i].start + HEADER + size);
    }
  }

  lemma DistinctWith(free: seq<int>, x: int)
    requires Distinct(free) && x !in free
    ensures Distinct([x] + free)
  {
  }

  /** Freeing the block just allocated restores the blocks and the counter. */
  lemma FreeUndoesAlloc(bs: Blocks, end: nat, free: seq<int>, available: int, i: nat, size: nat)
    requires Inv(bs, end, free, available) && i < |bs| && !bs[i].used && Room(bs, end, i) >= size
    ensures var taken := Taken(bs, end, i, size);
            && i < |taken| && Freed(taken, i) == bs
            && FreedAvailable(taken, end, i, TakenAvailable(bs, end, i, size, available)) == available
  {
  }

  lemma {:induction false} RoomWithin(bs: Blocks, end: nat, i: nat)
    requires Tiles(bs, end) && i < |bs| && !bs[i].used
    ensures 0 <= Room(bs, end, i) <= FreeRoom(bs, end)
  {
    assert Room(bs, end, 0) >= 0;
    TilesTail(bs, end);
    FreeRoomPositive(bs[1..], end);
    if i > 0 {
      RoomWithin(bs[1..], end, i - 1);
      assert Room(bs, end, i) == Room(bs[1..], end, i - 1);
    }
  }

  lemma TilesTail(bs: Blocks, end: nat)
    requires Tiles(bs, end) && bs != []
    ensures Tiles(bs[1..], end)
  {
    forall k | 0 <= k < |bs[1..]| ensures Room(bs[1..], end, k) >= 0 {
      assert Room(bs[1..], end, k) == Room(bs, end, k + 1);
    }
  }

  lemma {:induction false} FreeRoomPositive(bs: Blocks, end: nat)
    requires Tiles(bs, end)
    ensures FreeRoom(bs, end) >= 0
  {
    if bs != [] {
      assert Room(bs, end, 0) >= 0;
      TilesTail(bs, end);
      FreeRoomPositive(bs[1..], end);
    }
  }

  /** The first test of rt_memheap_alloc is strict: of requests that a block has room for, it turns down exactly those
      for all that is available, which then is one block. */
  lemma TurnedDownExactly(bs: Blocks, end: nat, free: seq<int>, available: int, i: nat, size: nat)
    requires Inv(bs, end, free, available) && i < |bs| && !bs[i].used && Room(bs, end, i) >= size
    ensures !(size < available) <==> size == available == Room(bs, end, i)
  {
    RoomWithin(bs, end, i);
  }

  // The used blocks, with their room: what the callers hold.
  function Areas(bs: Blocks, end: nat): set<(int, int)> {
    if bs == [] then {} else (if bs[0].used then {(bs[0].start, Room(bs, end, 0))} else {}) + Areas(bs[1..], end)
  }

  lemma {:induction false} AreasOfSum(a: Blocks, b: Blocks, end: nat)
    ensures Areas(a + b, end) == Areas(a, Start(b, end)) + Areas(b, end)
  {
    if a == [] {
      assert a + b == b;
    } else {
      assert (a + b)[1..] == a[1..] + b;
      AreasOfSum(a[1..], b, end);
    }
  }

  lemma AreasReplaced(bs: Blocks, end: nat, i: nat, n: nat, mid: Blocks)
    requires i + n <= |bs| && n > 0 && mid != [] && mid[0].start == bs[i].start
    ensures var last, others := Start(bs[i + n..], end), Areas(bs[..i], bs[i].start) + Areas(bs[i + n..], end);
            && Areas(bs, end) == others + Areas(bs[i..i + n], last)
            && Areas(Replaced(bs, i, n, mid), end) == others + Areas(mid, last)
  {
    var a, b, c := bs[..i], bs[i..i + n], bs[i + n..];
    assert bs == a + (b + c) && Replaced(bs, i, n, mid) == a + (mid + c);
    AreasOfSum(a, b + c, end);
    AreasOfSum(b, c, end);
    AreasOfSum(a, mid + c, end);
    AreasOfSum(mid, c, end);
  }

  lemma AreasOne(b: Block, last: nat)
    ensures Areas([b], last) == if b.used then {(b.start, last - b.start - HEADER)} else {}
  {
    assert [b][1..] == [];
  }

  lemma AreasTwo(a: Block, b: Block, last: nat)
    ensures Areas([a, b], last) == Areas([a], b.start) + Areas([b], last)
  {
    assert [a, b] == [a] + [b];
    AreasOfSum([a], [b], last);
  }

  lemma {:induction false} AreaIs(bs: Blocks, end: nat, p: (int, int)) returns (k: nat)
    requires p in Areas(bs, end)
    ensures k < |bs| && bs[k].used && p == (bs[k].start, Room(bs, end, k))
  {
    if bs[0].used && p == (bs[0].start, Room(bs, end, 0)) {
      k := 0;
    } else {
      var j := AreaIs(bs[1..], end, p);
      k := j + 1;
      assert Room(bs, end, k) == Room(bs[1..], end, j);
    }
  }

  lemma {:induction false} UsedIsArea(bs: Blocks, end: nat, k: nat)
    requires k < |bs| && bs[k].used
    ensures (bs[k].start, Room(bs, end, k)) in Areas(bs, end)
  {
    if k > 0 {
      UsedIsArea(bs[1..], end, k - 1);
      assert Room(bs, end, k) == Room(bs[1..], end, k - 1);
    }
  }

  // No other used block has the same area as block i.
  lemma AreaElsewhere(bs: Blocks, end: nat, i: nat)
    requires Tiles(bs, end) && i < |bs|
    ensures (bs[i].start, Room(bs, end, i)) !in Areas(bs[..i], bs[i].start)
    ensures forall j :: i < j <= |bs| ==> (bs[i].start, Room(bs, end, i)) !in Areas(bs[j..], end)
  {
    var p := (bs[i].start, Room(bs, end, i));
    if p in Areas(bs[..i], bs[i].start) {
      var k := AreaIs(bs[..i], bs[i].start, p);
      StartsIncrease(bs, end, k, i);
    }
    forall j | i < j <= |bs| ensures p !in Areas(bs[j..], end) {
      if p in Areas(bs[j..], end) {
        var k := AreaIs(bs[j..], end, p);
        StartsIncrease(bs, end, i, j + k);
      }
    }
  }

  /** An allocation adds one used block, of at least the requested size, and changes no other. */
  lemma TakenAreas(bs: Blocks, end: nat, i: nat, size: nat)
    requires Tiles(bs, end) && i < |bs| && !bs[i].used && Room(bs, end, i) >= size
    ensures var room := if Room(bs, end, i) >= size + HEADER + MINIALLOC then size else Room(bs, end, i);
            room >= size && Areas(Taken(bs, end, i, size), end) == Areas(bs, end) + {(bs[i].start, room)}
  {
    var s, last, split := bs[i].start, NextStart(bs, end, i), Room(bs, end, i) >= size + HEADER + MINIALLOC;
    var kept, rest := Block(s, true), Block(s + HEADER + size, false);
    SliceOne(bs, end, i);
    AreasOne(bs[i], last);
    AreasReplaced(bs, end, i, 1, if split then [kept, rest] else [kept]);
    AreasOne(kept, if split then rest.start else last);
    AreasOne(rest, last);
    AreasTwo(kept, rest, last);
    hide Areas, Tiles;
  }

  /** A free removes the one block, and changes no other. */
  lemma FreedAreas(bs: Blocks, end: nat, i: nat)
    requires Tiles(bs, end) && i < |bs| && bs[i].used
    ensures Areas(Freed(bs, i), end) == Areas(bs, end) - {(bs[i].start, Room(bs, end, i))}
  {
    hide Areas, Tiles, Freed;
    var lo := if LeftFree(bs, i) then i - 1 else i;
    var hi := if RightFree(bs, i) then i + 2 else i + 1;
    var last, p := Start(bs[hi..], end), (bs[i].start, Room(bs, end, i));
    AroundAreas(bs, end, i);
    AreasReplaced(bs, end, lo, hi - lo, [Block(bs[lo].start, false)]);
    AreasOne(Block(bs[lo].start, false), last);
    AreaElsewhere(bs, end, i);
    BeforeAreas(bs, i);
    var others := Areas(bs[..lo], bs[lo].start) + Areas(bs[hi..], end);
    assert Areas(bs, end) == others + {p};
    FreedIs(bs, i);
  }

  lemma AreasNone(last: nat)
    ensures Areas([], last) == {}
  {
  }

  lemma AroundAreas(bs: Blocks, end: nat, i: nat)
    requires i < |bs| && bs[i].used
    ensures var lo, hi := if LeftFree(bs, i) then i - 1 else i, if RightFree(bs, i) then i + 2 else i + 1;
            Areas(bs[lo..hi], Start(bs[hi..], end)) == {(bs[i].start, Room(bs, end, i))}
  {
    hide Areas;
    var hi := if RightFree(bs, i) then i + 2 else i + 1;
    var last := Start(bs[hi..], end);
    var right := if RightFree(bs, i) then [bs[i + 1]] else [];
    var left := if LeftFree(bs, i) then [bs[i - 1]] else [];
    AreasNone(last);
    AreasNone(bs[i].start);
    AreasOne(bs[i], NextStart(bs, end, i));
    if RightFree(bs, i) {
      AreasOne(bs[i + 1], last);
    }
    if LeftFree(bs, i) {
      AreasOne(bs[i - 1], bs[i].start);
    }
    SliceAround(bs, i);
    AreasOfSum(left, [bs[i]] + right, last);
    AreasOfSum([bs[i]], right, last);
  }

  // The used blocks before block i are those before its free neighbour.
  lemma BeforeAreas(bs: Blocks, i: nat)
    requires i < |bs|
    ensures LeftFree(bs, i) ==> Areas(bs[..i], bs[i].start) == Areas(bs[..i - 1], bs[i - 1].start)
  {
    hide Areas;
    if LeftFree(bs, i) {
      AreasOne(bs[i - 1], bs[i].start);
      assert bs[..i] == bs[..i - 1] + [bs[i - 1]];
      AreasOfSum(bs[..i - 1], [bs[i - 1]], bs[i].start);
    }
  }

  lemma FreedIs(bs: Blocks, i: nat)
    requires i < |bs|
    ensures var lo, hi := if LeftFree(bs, i) then i - 1 else i, if RightFree(bs, i) then i + 2 else i + 1;
            Freed(bs, i) == Replaced(bs, lo, hi - lo, [Block(bs[lo].start, false)])
  {
  }

  /** A resize in place changes the room of the one block, and no other block. */
  lemma CutAreas(bs: Blocks, end: nat, i: nat, size: nat)
    requires Tiles(bs, end) && i < |bs| && bs[i].used && bs[i].start + 2 * HEADER + size <= CutEnd(bs, end, i)
    ensures Areas(Cut(bs, i, size), end) == Areas(bs, end) - {(bs[i].start, Room(bs, end, i))} + {(bs[i].start, size)}
  {
    var s, last, n := bs[i].start, CutEnd(bs, end, i), if RightFree(bs, i) then 2 else 1;
    var kept, rest := Block(s, true), Block(s + HEADER + size, false);
    AreasReplaced(bs, end, i, n, [kept, rest]);
    AreasOne(kept, rest.start);
    AreasOne(rest, last);
    AreasTwo(kept, rest, last);
    AreasOne(bs[i], NextStart(bs, end, i));
    if RightFree(bs, i) {
      SliceTwo(bs, end, i);
      AreasOne(bs[i + 1], last);
      AreasTwo(bs[i], bs[i + 1], last);
    } else {
      SliceOne(bs, end, i);
    }
    AreaElsewhere(bs, end, i);
    hide Areas, Tiles;
  }

  // Only bytes from lo to hi differ.
  ghost predicate Confined(was: seq<int>, now: seq<int>, lo: int, hi: int) {
    |was| == |now| && forall b :: 0 <= b < |was| && !(lo <= b < hi) ==> now[b] == was[b]
  }

  // The bytes of these blocks are the same.
  ghost predicate Untouched(areas: set<(int, int)>, was: seq<int>, now: seq<int>) {
    && |was| == |now|
    && forall p, b :: p in areas && p.0 + HEADER <= b < p.0 + HEADER + p.1 && 0 <= b < |was| ==> now[b] == was[b]
  }

  // The first n bytes at src are at dst now.
  ghost predicate SameBytes(was: seq<int>, now: seq<int>, src: int, dst: int, n: int) {
    && 0 <= src && 0 <= dst && 0 <= n && src + n <= |was| && dst + n <= |now|
    && now[dst..dst + n] == was[src..src + n]
  }

  // What is stored between the start of block i and the end of what is free behind it touches no other used block.
  lemma ConfinedUntouched(bs: Blocks, end: nat, i: nat, lo: int, hi: int, was: seq<int>, now: seq<int>)
    requires Tiles(bs, end) && i < |bs| && bs[i].start <= lo && hi <= CutEnd(bs, end, i) && Confined(was, now, lo, hi)
    ensures Untouched(Areas(bs, end) - {(bs[i].start, Room(bs, end, i))}, was, now)
  {
    var p := (bs[i].start, Room(bs, end, i));
    forall a, b | a in Areas(bs, end) - {p} && a.0 + HEADER <= b < a.0 + HEADER + a.1 && 0 <= b < |was|
      ensures now[b] == was[b] {
      var k := AreaIs(bs, end, a);
      if k < i {
        StartsIncrease(bs, end, k, i);
        NextBefore(bs, end, k, i);
      } else {
        assert k != i;
        BehindCut(bs, end, i, k);
      }
    }
  }

  lemma NextBefore(bs: Blocks, end: nat, k: nat, i: nat)
    requires Tiles(bs, end) && k < i < |bs|
    ensures NextStart(bs, end, k) <= bs[i].start
  {
    if k + 1 < i {
      StartsIncrease(bs, end, k + 1, i);
    }
  }

  lemma BehindCut(bs: Blocks, end: nat, i: nat, k: nat)
    requires Tiles(bs, end) && i < k < |bs| && bs[k].used
    ensures CutEnd(bs, end, i) <= bs[k].start
  {
    NextBefore(bs, end, i, k);
    if RightFree(bs, i) {
      NextBefore(bs, end, i + 1, k);
    }
  }

  // The header of the free list, and a null pointer.
  const HEAD := -1
  const NULL := 0

  // The ring of all blocks, closed by the tailer, and the ring of the free ones.
  function AllRing(bs: Blocks, end: nat): (q: seq<int>)
    ensures |q| == |bs| + 1
  {
    seq(|bs|, i requires 0 <= i < |bs| => bs[i].start) + [end]
  }

  function FreeRing(free: seq<int>): seq<int> {
    [HEAD] + free
  }

  ghost predicate Marked(used: map<int, bool>, bs: Blocks, end: nat) {
    && (forall i :: 0 <= i < |bs| ==> bs[i].start in used && used[bs[i].start] == bs[i].used) && end in used
       && used[end]
  }

  // A block is split or made behind block i.
  lemma RingWith(all: Links, bs: Blocks, end: nat, i: nat, mid: Blocks, n: int)
    requires IsRing(all, AllRing(bs, end)) && i < |bs| && Tiles(bs, end) && bs[i].start < n < NextStart(bs, end, i)
    requires |mid| == 2 && mid[0].start == bs[i].start && mid[1].start == n
    ensures bs[i].start in all.next && IsRing(InsertedAfter(all, bs[i].start, n), AllRing(Replaced(bs, i, 1, mid), end))
  {
    var q := AllRing(bs, end);
    InsideIsNoStart(bs, end, i, n);
    InsertKeepsRing(all, q, i, n);
    var r := Replaced(bs, i, 1, mid);
    var w := Inserted(q, i + 1, n);
    forall k | 0 <= k < |r| + 1 ensures AllRing(r, end)[k] == w[k] {
      if k < i {
        assert r[k] == bs[k] && w[k] == q[k];
      } else if k < i + 2 {
        assert r[k] == mid[k - i] && w[k] == if k == i then q[i] else n;
      } else {
        assert w[k] == q[k - 1] && (k < |r| ==> r[k] == bs[k - 1]);
      }
    }
    assert AllRing(r, end) == w;
  }

  // Block i + 1 is merged into block i.
  lemma RingWithout(all: Links, bs: Blocks, end: nat, i: nat, mid: Blocks)
    requires IsRing(all, AllRing(bs, end)) && i + 1 < |bs|
    requires |mid| == 1 && mid[0].start == bs[i].start
    ensures bs[i + 1].start in all.next && bs[i + 1].start in all.prev
    ensures IsRing(Removed(all, bs[i + 1].start), AllRing(Replaced(bs, i, 2, mid), end))
  {
    var q := AllRing(bs, end);
    RemoveKeepsRing(all, q, i + 1);
    var r := Replaced(bs, i, 2, mid);
    var w := Dropped(q, i + 1);
    forall k | 0 <= k < |r| + 1 ensures AllRing(r, end)[k] == w[k] {
      if k < i {
        assert r[k] == bs[k] && w[k] == q[k];
      } else if k == i {
        assert r[k] == mid[0] && w[k] == q[k];
      } else {
        assert w[k] == q[k + 1] && (k < |r| ==> r[k] == bs[k + 1]);
      }
    }
    assert AllRing(r, end) == w;
  }

  lemma RingAt(all: Links, bs: Blocks, end: nat, i: nat)
    requires IsRing(all, AllRing(bs, end)) && i < |bs|
    ensures bs[i].start in all.next && all.next[bs[i].start] == NextStart(bs, end, i)
    ensures bs[i].start in all.prev && all.prev[bs[i].start] == if i > 0 then bs[i - 1].start else end
  {
    var q := AllRing(bs, end);
    assert Linked(all, q[i], q[NextAround(i, |q|)]);
    var b := if i > 0 then i - 1 else |bs|;
    assert Linked(all, q[b], q[NextAround(b, |q|)]);
  }

  lemma FreeRingWith(frees: Links, free: seq<int>, n: int)
    requires IsRing(frees, FreeRing(free)) && n !in free && n != HEAD
    ensures HEAD in frees.next && IsRing(InsertedAfter(frees, HEAD, n), FreeRing([n] + free))
  {
    InsertKeepsRing(frees, FreeRing(free), 0, n);
    assert Inserted(FreeRing(free), 1, n) == FreeRing([n] + free);
  }

  lemma FreeRingWithout(frees: Links, free: seq<int>, x: int)
    requires IsRing(frees, FreeRing(free)) && Distinct(free) && x in free
    ensures x in frees.next && x in frees.prev && IsRing(Removed(frees, x), FreeRing(Without(free, x)))
  {
    hide IsRing, Distinct, Without;
    var k: nat :| k < |free| && free[k] == x;
    RemoveKeepsRing(frees, FreeRing(free), k + 1);
    WithoutAt(free, x, k);
    assert FreeRing(free)[..k + 1] == FreeRing(free[..k]);
    assert Dropped(FreeRing(free), k + 1) == FreeRing(Without(free, x));
  }

  lemma FreeRingAt(frees: Links, free: seq<int>, k: nat)
    requires IsRing(frees, FreeRing(free)) && k <= |free|
    ensures var x := FreeRing(free)[k]; x in frees.next && frees.next[x] == if k < |free| then free[k] else HEAD
  {
    var q := FreeRing(free);
    assert Linked(frees, q[k], q[NextAround(k, |q|)]);
  }

  lemma MarkedReplaced(used: map<int, bool>, bs: Blocks, end: nat, i: nat, n: nat, mid: Blocks, used': map<int, bool>)
    requires Marked(used, bs, end) && i + n <= |bs|
    requires forall x :: x in used ==> x in used'
    requires forall k :: 0 <= k < |bs| && !(i <= k < i + n) ==> used'[bs[k].start] == bs[k].used
    requires forall k :: 0 <= k < |mid| ==> mid[k].start in used' && used'[mid[k].start] == mid[k].used
    requires end in used' && used'[end]
    ensures Marked(used', Replaced(bs, i, n, mid), end)
  {
  }

  lemma FreeOffsets(bs: Blocks, free: seq<int>)
    requires ListsFree(free, bs)
    ensures HEAD !in free && forall x :: x in free ==> x >= 0
  {
    forall x | x in free ensures x >= 0 {
      var k := FreeStartIs(bs, x);
    }
  }

  lemma FreeListed(bs: Blocks, end: nat, free: seq<int>, i: nat)
    requires Tiles(bs, end) && ListsFree(free, bs) && i < |bs| && !bs[i].used
    ensures bs[i].start in free && NextStart(bs, end, i) <= end && bs[i].start + HEADER <= end
  {
    OwnStart(bs, end, i);
    NextWithin(bs, end, i);
    BeforeEnd(bs, end, i);
  }

  // The rings and the free list when the block taken is split.
  lemma SplitTaken(all: Links, used: map<int, bool>, bs: Blocks, end: nat, free: seq<int>, available: int, i: nat,
                   n: nat)
    requires Inv(bs, end, free, available) && IsRing(all, AllRing(bs, end)) && Marked(used, bs, end)
    requires i < |bs| && !bs[i].used && Room(bs, end, i) >= n + HEADER + MINIALLOC
    ensures var s, rest := bs[i].start, bs[i].start + HEADER + n;
            && rest + HEADER <= NextStart(bs, end, i) && rest !in Without(free, s) && s in all.next
            && IsRing(InsertedAfter(all, s, rest), AllRing(Taken(bs, end, i, n), end))
            && Marked(used[rest := false][s := true], Taken(bs, end, i, n), end)
            && TakenFree(bs, end, i, n, free) == [rest] + Without(free, s)
            && TakenAvailable(bs, end, i, n, available) == available - n - HEADER
  {
    hide IsRing, Marked, Tiles, FreeStarts, FreeRoom, Coalesced, Without, Distinct;
    var s, rest := bs[i].start, bs[i].start + HEADER + n;
    var mid := [Block(s, true), Block(rest, false)];
    InsideIsNoStart(bs, end, i, rest);
    OtherStarts(bs, end, i);
    RingWith(all, bs, end, i, mid, rest);
    MarkedSplit(used, bs, end, i, rest);
    WithoutDistinct(free, s);
  }

  lemma MarkedSplit(used: map<int, bool>, bs: Blocks, end: nat, i: nat, rest: nat)
    requires Marked(used, bs, end) && i < |bs| && bs[i].start != end && rest != end
    requires forall k :: 0 <= k < |bs| ==> bs[k].start != rest && (k != i ==> bs[k].start != bs[i].start)
    ensures Marked(used[rest := false][bs[i].start := true],
      Replaced(bs, i, 1, [Block(bs[i].start, true), Block(rest, false)]), end)
  {
    var s := bs[i].start;
    MarkedReplaced(used, bs, end, i, 1, [Block(s, true), Block(rest, false)], used[rest := false][s := true]);
  }

  // The rings and the free list when the whole block is taken.
  lemma WholeTaken(all: Links, used: map<int, bool>, bs: Blocks, end: nat, free: seq<int>, available: int, i: nat,
                   n: nat)
    requires Inv(bs, end, free, available) && IsRing(all, AllRing(bs, end)) && Marked(used, bs, end)
    requires i < |bs| && !bs[i].used && Room(bs, end, i) < n + HEADER + MINIALLOC
    ensures var s := bs[i].start;
            && IsRing(all, AllRing(Taken(bs, end, i, n), end)) && Marked(used[s := true], Taken(bs, end, i, n), end)
            && TakenFree(bs, end, i, n, free) == Without(free, s)
            && TakenAvailable(bs, end, i, n, available) == available - Room(bs, end, i)
  {
    hide IsRing, Tiles, FreeStarts, FreeRoom, Coalesced, Without, Distinct;
    OtherStarts(bs, end, i);
    SameStarts(bs, end, i, true);
    MarkedReplaced(used, bs, end, i, 1, [Block(bs[i].start, true)], used[bs[i].start := true]);
  }

  lemma FreedCounts(bs: Blocks, end: nat, i: nat, free: seq<int>, available: int)
    requires i < |bs|
    ensures var others := if RightFree(bs, i) then Without(free, bs[i + 1].start) else free;
            FreedFree(bs, i, free) == if LeftFree(bs, i) then others else [bs[i].start] + others
    ensures FreedAvailable(bs, end, i, available) ==
              available + Room(bs, end, i) + (if LeftFree(bs, i) then HEADER else 0)
                + if RightFree(bs, i) then HEADER else 0
  {
  }

  lemma CutCounts(bs: Blocks, end: nat, i: nat, size: nat, free: seq<int>, available: int)
    requires i < |bs|
    ensures CutFree(bs, i, size, free) == [bs[i].start + HEADER + size]
      + if RightFree(bs, i) then Without(free, bs[i + 1].start) else free
    ensures CutAvailable(bs, end, i, size, available) == available + Room(bs, end, i) - size
      - if RightFree(bs, i) then 0 else HEADER
    ensures CutEnd(bs, end, i) == if RightFree(bs, i) then NextStart(bs, end, i + 1) else NextStart(bs, end, i)
    ensures RightFree(bs, i) ==> i + 1 < |bs| && NextStart(bs, end, i) == bs[i + 1].start
  {
  }

  lemma NoLeftOfFirst(bs: Blocks, i: nat)
    requires i < |bs|
    ensures (LeftFree(bs, i) ==> i > 0) && (RightFree(bs, i) ==> i + 1 < |bs|)
  {
  }

  lemma ConfinedWithin(was: seq<int>, now: seq<int>, lo: int, hi: int, hi': int)
    requires Confined(was, now, lo, hi) && hi <= hi'
    ensures Confined(was, now, lo, hi')
  {
  }

  lemma ConfinedNot(bytes: seq<int>, lo: int, hi: int)
    ensures Confined(bytes, bytes, lo, hi)
  {
  }

  class MemHeap {
    const poolSize: nat
    const bytes: array<int>
    var all: Links
    var frees: Links
    var used: map<int, bool>
    var available: int
    var maxUsed: int
    ghost var blocks: Blocks
    ghost var free: seq<int>

    // The offset of the tailer.
    function End(): nat
      requires poolSize >= 2 * HEADER
    {
      poolSize - HEADER
    }

    ghost predicate Valid()
      reads this
    {
      && poolSize >= 2 * HEADER && bytes.Length == poolSize && Inv(blocks, End(), free, available)
      && IsRing(all, AllRing(blocks, End())) && IsRing(frees, FreeRing(free)) && Marked(used, blocks, End())
      && maxUsed >= poolSize - available
    }

    // What Valid says, one by one.
    lemma ValidParts()
      requires Valid()
      ensures poolSize >= 2 * HEADER && End() + HEADER == poolSize == bytes.Length && maxUsed >= poolSize - available
      ensures HEADER == 48 && MINIALLOC == 12 && HEAD == -1 && NULL == 0
      ensures Inv(blocks, End(), free, available) && Tiles(blocks, End()) && ListsFree(free, blocks) && Distinct(free)
      ensures IsRing(all, AllRing(blocks, End())) && IsRing(frees, FreeRing(free)) && Marked(used, blocks, End())
      ensures forall k :: 0 <= k < |blocks| ==> Room(blocks, End(), k) >= 0
      ensures forall k :: 0 <= k < |blocks| ==>
        Room(blocks, End(), k) == NextStart(blocks, End(), k) - blocks[k].start - HEADER
    {
      hide Marked, IsRing, Distinct, Coalesced;
      assert Tiles(blocks, End());
    }

    lemma IsValid()
      requires poolSize >= 2 * HEADER && bytes.Length == poolSize && Inv(blocks, End(), free, available)
      requires IsRing(all, AllRing(blocks, End())) && IsRing(frees, FreeRing(free)) && Marked(used, blocks, End())
      requires maxUsed >= poolSize - available
      ensures Valid()
    {
    }

    // The rings of a pool that is one free block.
    static lemma NewPool(end: nat)
      requires end >= HEADER
      ensures Inv([Block(0, false)], end, [0], end - HEADER)
      ensures IsRing(Links(map[0 := end, end := 0], map[0 := end, end := 0]), AllRing([Block(0, false)], end))
      ensures IsRing(Links(map[HEAD := 0, 0 := HEAD], map[0 := HEAD, HEAD := 0]), FreeRing([0]))
      ensures Marked(map[0 := false, end := true], [Block(0, false)], end)
    {
      OneBlock(Block(0, false), end);
      assert AllRing([Block(0, false)], end) == [0, end];
      assert FreeRing([0]) == [HEAD, 0];
      hide FreeStarts, FreeRoom, Tiles;
    }

    // rt_memheap_init, given the aligned size of the pool.
    constructor (poolSize: nat)
      requires poolSize >= 2 * HEADER
      ensures Valid() && this.poolSize == poolSize && blocks == [Block(0, false)] && free == [0] && fresh(bytes)
    {
      hide Inv, IsRing, Marked;
      var end := poolSize - HEADER;
      this.poolSize := poolSize;
      bytes := new int[poolSize](i => 0);
      all := Links(map[0 := end, end := 0], map[0 := end, end := 0]);
      frees := Links(map[HEAD := 0, 0 := HEAD], map[0 := HEAD, HEAD := 0]);
      used := map[0 := false, end := true];
      available := poolSize - 2 * HEADER;
      maxUsed := 2 * HEADER;
      blocks, free := [Block(0, false)], [0];
      new;
      NewPool(end);
      IsValid();
    }

    // The search of rt_memheap_alloc along the free list, which ends at its header if no block has room.
    method Search(size: nat) returns (at: int, freeSize: int)
      requires Valid() && size > 0
      ensures var k := FirstFit(free, blocks, End(), size);
              if k < |free| then at == free[k] && freeSize == RoomAt(blocks, End(), at) >= size else freeSize < size
    {
      freeSize := 0;
      FreeOffsets(blocks, free);
      FreeRingAt(frees, free, 0);
      at := frees.next[HEAD];
      ghost var j: nat := 0;
      while at != HEAD && freeSize < size
        invariant j <= |free| && at == if j < |free| then free[j] else HEAD
        invariant forall i :: 0 <= i < j ==> RoomAt(blocks, End(), free[i]) < size
        invariant freeSize >= size ==> j < |free| && freeSize == RoomAt(blocks, End(), at)
        decreases |free| - j, if freeSize < size then 1 else 0
      {
        assert at in free;
        var k := FreeStartIs(blocks, at);
        IndexOfStart(blocks, End(), k);
        RingAt(all, blocks, End(), k);
        freeSize := all.next[at] - at - HEADER;
        if freeSize < size {
          FreeRingAt(frees, free, j + 1);
          at := frees.next[at];
          j := j + 1;
        }
      }
      FirstFitIs(free, blocks, End(), size, j);
    }

    // A block's entry on the free list is taken off.
    method Unlist(x: int)
      requires IsRing(frees, FreeRing(free)) && Distinct(free) && x in free
      modifies this`frees, this`free
      ensures IsRing(frees, FreeRing(free)) && free == Without(old(free), x)
    {
      FreeRingWithout(frees, free, x);
      frees := Removed(frees, x);
      free := Without(free, x);
    }

    // A block is put at the front of the free list.
    method List(x: int)
      requires IsRing(frees, FreeRing(free)) && x !in free && x != HEAD
      modifies this`frees, this`free
      ensures IsRing(frees, FreeRing(free)) && free == [x] + old(free)
    {
      FreeRingWith(frees, free, x);
      frees := InsertedAfter(frees, HEAD, x);
      free := [x] + free;
    }

    // The header of a new block overwrites what the pool held there.
    method StoreHeader(rest: nat)
      requires rest + HEADER <= bytes.Length
      modifies bytes
      ensures Confined(old(bytes[..]), bytes[..], rest, rest + HEADER)
    {
      for b := 0 to HEADER
        invariant forall c :: 0 <= c < bytes.Length && !(rest <= c < rest + HEADER) ==> bytes[c] == old(bytes[c])
      {
        bytes[rest + b] := 0;
      }
    }

    method CountUse()
      modifies this`maxUsed
      ensures maxUsed == if poolSize - available > old(maxUsed) then poolSize - available else old(maxUsed)
    {
      if poolSize - available > maxUsed {
        maxUsed := poolSize - available;
      }
    }

    // What rt_memheap_alloc does for a request of a given size.
    ghost function Chosen(size: nat): nat
      requires poolSize >= 2 * HEADER
      reads this
    {
      var k := FirstFit(free, blocks, End(), Rounded(size));
      if Rounded(size) < available && k < |free| then IndexOf(blocks, free[k]) else |blocks|
    }

    /** rt_memheap_alloc */
    method Alloc(size: nat) returns (ptr: int)
      requires Valid()
      modifies this, bytes
      ensures Valid()
      ensures ptr == NULL <==> old(NoRoom(blocks, End(), available, Rounded(size)))
      ensures maxUsed == if poolSize - available > old(maxUsed) then poolSize - available else old(maxUsed)
      ensures ptr == NULL ==> bytes[..] == old(bytes[..])
      ensures ptr == NULL ==>
        old(Chosen(size)) == |old(blocks)| && blocks == old(blocks) && free == old(free) && available == old(available)
      ensures ptr != NULL ==>
        var i, n := old(Chosen(size)), Rounded(size);
        && i < |old(blocks)| && !old(blocks)[i].used && old(Room(blocks, End(), i)) >= n
           && ptr == old(blocks)[i].start + HEADER
        && blocks == Taken(old(blocks), End(), i, n) && free == TakenFree(old(blocks), End(), i, n, old(free))
        && available == TakenAvailable(old(blocks), End(), i, n, old(available))
        && Confined(old(bytes[..]), bytes[..], ptr + n, NextStart(old(blocks), End(), i))
    {
      ChosenExactly(size);
      hide NoRoom;
      var n := Rounded(size);
      if n < available {
        var at, freeSize := Search(n);
        if freeSize >= n {
          ghost var i := IndexOf(blocks, at);
          ghost var k := FirstFit(free, blocks, End(), n);
          assert at in free;
          IndexFree(blocks, End(), at, i);
          IndexOfStart(blocks, End(), i);
          TakeBlock(at, n, freeSize, i);
          return at + HEADER;
        }
      }
      return NULL;
    }

    // The block found is split, or taken whole.
    method TakeBlock(at: int, n: nat, freeSize: int, ghost i: nat)
      requires Valid() && i < |blocks| && at == blocks[i].start && !blocks[i].used
      requires freeSize == Room(blocks, End(), i) >= n
      modifies this, bytes
      ensures Valid() && Confined(old(bytes[..]), bytes[..], at + HEADER + n, NextStart(old(blocks), End(), i))
      ensures blocks == Taken(old(blocks), End(), i, n) && free == TakenFree(old(blocks), End(), i, n, old(free))
      ensures available == TakenAvailable(old(blocks), End(), i, n, old(available))
      ensures maxUsed == if poolSize - available > old(maxUsed) then poolSize - available else old(maxUsed)
    {
      hide *;
      ValidParts();
      TakenKeeps(blocks, End(), free, available, i, n);
      FreeListed(blocks, End(), free, i);
      if freeSize >= n + HEADER + MINIALLOC {
        SplitTaken(all, used, blocks, End(), free, available, i, n);
        var rest := at + HEADER + n;
        StoreHeader(rest);
        ConfinedWithin(old(bytes[..]), bytes[..], rest, rest + HEADER, NextStart(old(blocks), End(), i));
        all := InsertedAfter(all, at, rest);
        Unlist(at);
        List(rest);
        used := used[rest := false];
        available := available - n - HEADER;
      } else {
        WholeTaken(all, used, blocks, End(), free, available, i, n);
        ConfinedNot(bytes[..], at + HEADER + n, NextStart(blocks, End(), i));
        Unlist(at);
        available := available - freeSize;
      }
      CountUse();
      used := used[at := true];
      blocks := Taken(blocks, End(), i, n);
      IsValid();
    }

    /** rt_memheap_free */
    method Free(ptr: int, ghost i: nat)
      requires Valid()
      requires ptr != NULL ==> i < |blocks| && blocks[i].used && ptr == blocks[i].start + HEADER
      modifies this
      ensures Valid()
      ensures blocks == if ptr == NULL then old(blocks) else Freed(old(blocks), i)
      ensures free == if ptr == NULL then old(free) else FreedFree(old(blocks), i, old(free))
      ensures available == if ptr == NULL then old(available) else FreedAvailable(old(blocks), End(), i, old(available))
    {
      if ptr == NULL {
        return;
      }
      hide *;
      ValidParts();
      FreedKeeps(blocks, End(), free, available, i);
      FreedCounts(blocks, End(), i, free, available);
      FreedLinks(blocks, End(), i, free);
      var header := ptr - HEADER;
      var start := MergeFreed(header, i);
      if start == header {
        List(header);
      }
      IsValid();
    }

    // Both merges of a free.
    method MergeFreed(header: int, ghost i: nat) returns (start: int)
      requires Valid() && i < |blocks| && blocks[i].used && header == blocks[i].start
      modifies this`all, this`used, this`available, this`blocks, this`frees, this`free
      ensures IsRing(all, AllRing(blocks, End())) && Marked(used, blocks, End()) && IsRing(frees, FreeRing(free))
      ensures blocks == Freed(old(blocks), i) && available == FreedAvailable(old(blocks), End(), i, old(available))
      ensures free == if old(RightFree(blocks, i)) then Without(old(free), old(blocks)[i + 1].start) else old(free)
      ensures start == header <==> !LeftFree(old(blocks), i)
    {
      hide *;
      ValidParts();
      FreedSteps(blocks, i);
      FreedCounts(blocks, End(), i, free, available);
      FreedLinks(blocks, End(), i, free);
      OtherStarts(blocks, End(), i);
      NoLeftOfFirst(blocks, i);
      ghost var at := if LeftFree(blocks, i) then i - 1 else i;
      start := MergeBack(header, i);
      MergeNext(start, at);
    }

    // The block is marked, and merged with the previous one if that is free.
    method MergeBack(header: int, ghost i: nat) returns (start: int)
      requires poolSize >= 2 * HEADER && IsRing(all, AllRing(blocks, End())) && Marked(used, blocks, End())
      requires i < |blocks| && header == blocks[i].start != End()
      requires forall k :: 0 <= k < |blocks| && k != i ==> blocks[k].start != header
      modifies this`all, this`used, this`available, this`blocks
      ensures IsRing(all, AllRing(blocks, End())) && Marked(used, blocks, End()) && blocks == LeftMerged(old(blocks), i)
      ensures start == if LeftFree(old(blocks), i) then old(blocks)[i - 1].start else header
      ensures available == old(available) + Room(old(blocks), End(), i) + if LeftFree(old(blocks), i) then HEADER else 0
    {
      hide *;
      LeftMergedIs(blocks, i);
      MarkFree(header, i);
      start := MergePrevious(header, i);
    }

    method MarkFree(header: int, ghost i: nat)
      requires poolSize >= 2 * HEADER && IsRing(all, AllRing(blocks, End())) && Marked(used, blocks, End())
      requires i < |blocks| && header == blocks[i].start != End()
      requires forall k :: 0 <= k < |blocks| && k != i ==> blocks[k].start != header
      modifies this`used, this`available, this`blocks
      ensures IsRing(all, AllRing(blocks, End())) && Marked(used, blocks, End())
      ensures blocks == Replaced(old(blocks), i, 1, [Block(header, false)])
      ensures available == old(available) + Room(old(blocks), End(), i)
    {
      RingAt(all, blocks, End(), i);
      SameStarts(blocks, End(), i, false);
      MarkedReplaced(used, blocks, End(), i, 1, [Block(header, false)], used[header := false]);
      hide Marked, IsRing, Replaced;
      used := used[header := false];
      available := available + (all.next[header] - header - HEADER);
      blocks := Replaced(blocks, i, 1, [Block(header, false)]);
    }

    // The merge with the previous neighbour; the address of the block after it.
    method MergePrevious(header: int, ghost i: nat) returns (start: int)
      requires poolSize >= 2 * HEADER && IsRing(all, AllRing(blocks, End())) && Marked(used, blocks, End())
      requires i < |blocks| && header >= 0 && blocks[i] == Block(header, false)
      requires i > 0 ==> blocks[i - 1].start != header
      modifies this`all, this`available, this`blocks
      ensures IsRing(all, AllRing(blocks, End())) && Marked(used, blocks, End())
      ensures blocks == if LeftFree(old(blocks), i)
        then Replaced(old(blocks), i - 1, 2, [Block(old(blocks)[i - 1].start, false)]) else old(blocks)
      ensures start == (if LeftFree(old(blocks), i) then old(blocks)[i - 1].start else header)
      ensures available == old(available) + if LeftFree(old(blocks), i) then HEADER else 0
    {
      PrevUsed(all, used, blocks, End(), i);
      hide Marked, IsRing, Replaced;
      start := header;
      if !used[all.prev[header]] {
        available := available + HEADER;
        start := all.prev[header];
        Merge(header, i - 1);
      }
    }

    // The merge with the next neighbour, which leaves the free list.
    method MergeNext(start: int, ghost k: nat)
      requires poolSize >= 2 * HEADER && IsRing(all, AllRing(blocks, End())) && Marked(used, blocks, End())
      requires IsRing(frees, FreeRing(free)) && Distinct(free)
      requires k < |blocks| && start >= 0 && blocks[k] == Block(start, false)
      requires RightFree(blocks, k) ==> blocks[k + 1].start in free
      modifies this`all, this`available, this`blocks, this`frees, this`free
      ensures IsRing(all, AllRing(blocks, End())) && Marked(used, blocks, End()) && IsRing(frees, FreeRing(free))
      ensures blocks == if RightFree(old(blocks), k) then Replaced(old(blocks), k, 2, [Block(start, false)])
        else old(blocks)
      ensures free == if RightFree(old(blocks), k) then Without(old(free), old(blocks)[k + 1].start) else old(free)
      ensures available == old(available) + if RightFree(old(blocks), k) then HEADER else 0
    {
      NextUsed(all, used, blocks, End(), k);
      hide Marked, IsRing, Replaced, Without, Distinct;
      if !used[all.next[start]] {
        available := available + HEADER;
        var next := all.next[start];
        Merge(next, k);
        Unlist(next);
      }
    }

    // A block takes over the next one: the links of that are taken out of the ring.
    method Merge(n: int, ghost k: nat)
      requires poolSize >= 2 * HEADER
      requires IsRing(all, AllRing(blocks, End())) && Marked(used, blocks, End()) && k + 1 < |blocks|
      requires n == blocks[k + 1].start
      modifies this`all, this`blocks
      ensures blocks == Replaced(old(blocks), k, 2, [old(blocks)[k]])
      ensures IsRing(all, AllRing(blocks, End())) && Marked(used, blocks, End())
    {
      ghost var mid := [blocks[k]];
      RingWithout(all, blocks, End(), k, mid);
      MarkedReplaced(used, blocks, End(), k, 2, mid, used);
      all := Removed(all, n);
      blocks := Replaced(blocks, k, 2, mid);
    }

    // The end of a used block becomes a free block of its own.
    method CutOff(header: int, rest: nat, ghost i: nat)
      requires poolSize >= 2 * HEADER && IsRing(all, AllRing(blocks, End())) && Marked(used, blocks, End())
      requires Tiles(blocks, End())
      requires i < |blocks| && blocks[i].used && header == blocks[i].start < rest < NextStart(blocks, End(), i)
      requires rest + HEADER <= bytes.Length
      modifies this`all, this`blocks, this`used, bytes
      ensures Confined(old(bytes[..]), bytes[..], rest, rest + HEADER)
      ensures blocks == Replaced(old(blocks), i, 1, [old(blocks)[i], Block(rest, false)])
      ensures IsRing(all, AllRing(blocks, End())) && Marked(used, blocks, End())
    {
      ghost var mid := [blocks[i], Block(rest, false)];
      InsideIsNoStart(blocks, End(), i, rest);
      RingWith(all, blocks, End(), i, mid, rest);
      MarkedReplaced(used, blocks, End(), i, 1, mid, used[rest := false]);
      StoreHeader(rest);
      used := used[rest := false];
      all := InsertedAfter(all, header, rest);
      blocks := Replaced(blocks, i, 1, mid);
    }

    // rt_memheap_realloc, growing into the free block that follows.
    method Grow(header: int, newsize: nat, oldsize: int, ghost i: nat)
      requires Valid() && i < |blocks| && blocks[i].used && header == blocks[i].start
      requires oldsize == Room(blocks, End(), i) < newsize
      requires RightFree(blocks, i) && Room(blocks, End(), i + 1) + oldsize > newsize + MINIALLOC
      modifies this, bytes
      ensures Valid() && blocks == Cut(old(blocks), i, newsize)
      ensures Confined(old(bytes[..]), bytes[..], header + HEADER + newsize, CutEnd(old(blocks), End(), i))
    {
      hide *;
      ValidParts();
      CutCounts(blocks, End(), i, newsize, free, available);
      CutKeeps(blocks, End(), free, available, i, newsize);
      CutLinks(blocks, End(), i, newsize, free);
      GrowSteps(blocks, End(), i, newsize);
      NextWithin(blocks, End(), i);
      RingAt(all, blocks, End(), i);
      available := available - (newsize - oldsize);
      CountUse();
      var next := all.next[header];
      Unlist(next);
      Merge(next, i);
      CutOff(header, header + HEADER + newsize, i);
      List(header + HEADER + newsize);
      ConfinedWithin(old(bytes[..]), bytes[..], header + HEADER + newsize, header + 2 * HEADER + newsize,
        CutEnd(old(blocks), End(), i));
      IsValid();
    }

    // rt_memheap_realloc, giving back the end of the block.
    method Shrink(header: int, newsize: nat, ghost i: nat)
      requires Valid() && i < |blocks| && blocks[i].used && header == blocks[i].start
      requires newsize + HEADER + MINIALLOC < Room(blocks, End(), i)
      modifies this, bytes
      ensures Valid() && blocks == Cut(old(blocks), i, newsize)
      ensures Confined(old(bytes[..]), bytes[..], header + HEADER + newsize, CutEnd(old(blocks), End(), i))
    {
      hide *;
      ValidParts();
      CutCounts(blocks, End(), i, newsize, free, available);
      CutKeeps(blocks, End(), free, available, i, newsize);
      CutLinks(blocks, End(), i, newsize, free);
      ShrinkSteps(blocks, End(), i, newsize);
      NextWithin(blocks, End(), i);
      var rest := header + HEADER + newsize;
      CutOff(header, rest, i);
      NextUsed(all, used, blocks, End(), i + 1);
      var next := all.next[rest];
      if !used[next] {
        NextUsed(all, used, blocks, End(), i + 2);
        available := available - (all.next[next] - next - HEADER);
        Merge(next, i + 1);
        Unlist(next);
      }
      List(rest);
      RingAt(all, blocks, End(), i + 1);
      available := available + (all.next[rest] - rest - HEADER);
      ConfinedWithin(old(bytes[..]), bytes[..], rest, rest + HEADER, CutEnd(old(blocks), End(), i));
      IsValid();
    }

    /** rt_memheap_realloc: but for the block resized, callers hold the same blocks with the same bytes; that has enough
        room and its first bytes, or everything they hold is as it was. */
    method Realloc(ptr: int, newsize: nat, ghost i: nat) returns (r: int)
      requires Valid()
      requires ptr != NULL ==> i < |blocks| && blocks[i].used && ptr == blocks[i].start + HEADER
      modifies this, bytes
      ensures Valid()
      ensures var oldsize := if ptr == NULL then 0 else old(Room(blocks, End(), i));
              && Resized(old(Areas(blocks, End())), Areas(blocks, End()), ptr, oldsize, newsize, r)
              && Untouched(Others(old(Areas(blocks, End())), ptr, oldsize), old(bytes[..]), bytes[..])
              && (ptr != NULL && newsize > 0 ==>
                    SameBytes(old(bytes[..]), bytes[..], ptr, if r == NULL then ptr else r,
                              if oldsize < Rounded(newsize) then oldsize else Rounded(newsize)))
      ensures ptr != NULL && newsize > 0 ==> (r == ptr <==> old(InPlace(blocks, End(), i, newsize)))
      ensures newsize > 0 ==> (r == NULL <==> old(Refused(blocks, End(), available, ptr, i, newsize)))
      ensures newsize > 0 && r == NULL ==> blocks == old(blocks) && free == old(free) && available == old(available)
    {
      hide NoRoom, Rounded;
      RoundedIsLeast(newsize, newsize);
      RoundedIsLeast(Rounded(newsize), newsize);
      if newsize == 0 {
        if ptr != NULL {
          FreedAreas(blocks, End(), i);
        }
        Free(ptr, i);
        return NULL;
      }
      var n := Rounded(newsize);
      if ptr == NULL {
        ghost var room;
        r, room := AllocArea(n);
        return;
      }
      r := Resize(ptr, newsize, i);
    }

    // What a resize leaves to the callers, with the bytes it keeps.
    ghost predicate Moved(was: set<(int, int)>, wasBytes: seq<int>, ptr: int, oldsize: int, size: nat, r: int,
      kept: int)
      reads this, bytes
      requires poolSize >= 2 * HEADER
    {
      && Resized(was, Areas(blocks, End()), ptr, oldsize, size, r)
         && Untouched(Others(was, ptr, oldsize), wasBytes, bytes[..])
      && SameBytes(wasBytes, bytes[..], ptr, if r == NULL then ptr else r, kept)
    }

    // rt_memheap_realloc of a block, to a size other than zero
    method Resize(ptr: int, newsize: nat, ghost i: nat) returns (r: int)
      requires Valid() && newsize > 0 && i < |blocks| && blocks[i].used && ptr == blocks[i].start + HEADER
      modifies this, bytes
      ensures Valid() && (r == ptr <==> old(InPlace(blocks, End(), i, newsize)))
      ensures var oldsize, n := old(Room(blocks, End(), i)), Rounded(newsize);
              Moved(old(Areas(blocks, End())), old(bytes[..]), ptr, oldsize, n, r, if oldsize < n then oldsize else n)
      ensures r == NULL <==> old(Refused(blocks, End(), available, ptr, i, newsize))
      ensures r == NULL ==> blocks == old(blocks) && free == old(free) && available == old(available)
    {
      hide *;
      ValidParts();
      RefusedIs(blocks, End(), available, ptr, i, newsize);
      InPlaceIs(blocks, End(), i, newsize);
      NextUsed(all, used, blocks, End(), i);
      var n := Rounded(newsize);
      var header := ptr - HEADER;
      var next := all.next[header];
      var oldsize := next - header - HEADER;
      if n > oldsize {
        if !used[next] {
          NextUsed(all, used, blocks, End(), i + 1);
          var nextsize := all.next[next] - next - HEADER;
          if nextsize + oldsize > n + MINIALLOC {
            GrowInPlace(header, n, oldsize, i);
            return ptr;
          }
        }
        r := Move(ptr, oldsize, n, i);
        return;
      }
      if n + HEADER + MINIALLOC >= oldsize {
        LeftAlone(ptr, n, i);
        return ptr;
      }
      ShrinkInPlace(header, n, i);
      return ptr;
    }

    lemma LeftAlone(ptr: int, n: nat, i: nat)
      requires Valid() && i < |blocks| && blocks[i].used && ptr == blocks[i].start + HEADER
      requires 0 < n <= Room(blocks, End(), i) <= n + HEADER + MINIALLOC
      ensures Moved(Areas(blocks, End()), bytes[..], ptr, Room(blocks, End(), i), n, ptr, n)
    {
      UsedIsArea(blocks, End(), i);
      NextWithin(blocks, End(), i);
      hide Inv, IsRing, Marked, Areas;
      var p := (blocks[i].start, Room(blocks, End(), i));
      assert Gains(Areas(blocks, End()) - {p}, Areas(blocks, End()), p.0, p.1);
    }

    method GrowInPlace(header: int, n: nat, oldsize: int, ghost i: nat)
      requires Valid() && i < |blocks| && blocks[i].used && header == blocks[i].start
      requires 0 <= oldsize == Room(blocks, End(), i) < n
      requires RightFree(blocks, i) && Room(blocks, End(), i + 1) + oldsize > n + MINIALLOC
      modifies this, bytes
      ensures Valid()
      ensures Moved(old(Areas(blocks, End())), old(bytes[..]), header + HEADER, oldsize, n, header + HEADER, oldsize)
    {
      CutAreas(blocks, End(), i, n);
      NextWithin(blocks, End(), i);
      ghost var was, wasBytes := blocks, bytes[..];
      assert Tiles(was, End());
      hide Inv, Areas, IsRing, Marked, Tiles, Cut;
      Grow(header, n, oldsize, i);
      ConfinedUntouched(was, End(), i, header + HEADER + n, CutEnd(was, End(), i), wasBytes, bytes[..]);
      ConfinedSame(wasBytes, bytes[..], header + HEADER + n, CutEnd(was, End(), i), header + HEADER, oldsize);
      assert Gains(Areas(was, End()) - {(header, Room(was, End(), i))}, Areas(blocks, End()), header, n);
    }

    method ShrinkInPlace(header: int, n: nat, ghost i: nat)
      requires Valid() && 0 < n && i < |blocks| && blocks[i].used && header == blocks[i].start
      requires n + HEADER + MINIALLOC < Room(blocks, End(), i)
      modifies this, bytes
      ensures Valid()
      ensures Moved(old(Areas(blocks, End())), old(bytes[..]), header + HEADER, old(Room(blocks, End(), i)), n,
        header + HEADER, n)
    {
      assert RightFree(blocks, i) ==> Room(blocks, End(), i + 1) >= 0;
      CutAreas(blocks, End(), i, n);
      NextWithin(blocks, End(), i);
      ghost var was, wasBytes := blocks, bytes[..];
      assert Tiles(was, End());
      hide Inv, Areas, IsRing, Marked, Tiles, Cut;
      Shrink(header, n, i);
      ConfinedUntouched(was, End(), i, header + HEADER + n, CutEnd(was, End(), i), wasBytes, bytes[..]);
      ConfinedSame(wasBytes, bytes[..], header + HEADER + n, CutEnd(was, End(), i), header + HEADER, n);
      assert Gains(Areas(was, End()) - {(header, Room(was, End(), i))}, Areas(blocks, End()), header, n);
    }

    lemma ChosenFits(size: nat)
      requires Valid() && Chosen(size) < |blocks|
      ensures var k := Chosen(size); !blocks[k].used && Room(blocks, End(), k) >= Rounded(size)
    {
      var k := FirstFit(free, blocks, End(), Rounded(size));
      assert free[k] in free;
      IndexFree(blocks, End(), free[k], IndexOf(blocks, free[k]));
    }

    // The free list leads to a block exactly if there is one with room and more than that is available.
    lemma ChosenExactly(size: nat)
      requires Valid()
      ensures Chosen(size) <= |blocks|
      ensures Chosen(size) == |blocks| <==> NoRoom(blocks, End(), available, Rounded(size))
    {
      hide Coalesced, IsRing, Marked, FreeRoom;
      var n := Rounded(size);
      if Chosen(size) < |blocks| {
        ChosenFits(size);
      } else if n < available {
        forall i | 0 <= i < |blocks| && !blocks[i].used ensures Room(blocks, End(), i) < n {
          if Room(blocks, End(), i) >= n {
            ListedHasRoom(n, i);
          }
        }
      }
    }

    // If a free block has room, the search finds one.
    lemma ListedHasRoom(n: nat, i: nat)
      requires Valid() && i < |blocks| && !blocks[i].used && Room(blocks, End(), i) >= n
      ensures var k := FirstFit(free, blocks, End(), n); k < |free| && IndexOf(blocks, free[k]) < |blocks|
    {
      hide Coalesced, IsRing, Marked, FreeRoom;
      FreeListed(blocks, End(), free, i);
      var j :| 0 <= j < |free| && free[j] == blocks[i].start;
      IndexOfStart(blocks, End(), i);
      var k := FirstFit(free, blocks, End(), n);
      assert k <= j;
      assert free[k] in free;
      IndexFree(blocks, End(), free[k], IndexOf(blocks, free[k]));
    }

    // rt_memcpy, for blocks that do not overlap
    method CopyBytes(dst: nat, src: nat, n: nat)
      requires dst + n <= bytes.Length && src + n <= bytes.Length && (dst + n <= src || src + n <= dst)
      modifies bytes
      ensures Confined(old(bytes[..]), bytes[..], dst, dst + n) && SameBytes(old(bytes[..]), bytes[..], src, dst, n)
    {
      for b := 0 to n
        invariant forall c :: 0 <= c < bytes.Length && !(dst <= c < dst + b) ==> bytes[c] == old(bytes[c])
        invariant forall c :: dst <= c < dst + b ==> bytes[c] == old(bytes[c - dst + src])
      {
        bytes[dst + b] := bytes[src + b];
      }
      assert bytes[..][dst..dst + n] == old(bytes[..])[src..src + n];
    }

    // rt_memheap_realloc, moving to another block
    method Move(ptr: int, oldsize: int, n: nat, ghost i: nat) returns (r: int)
      requires Valid() && i < |blocks| && blocks[i].used && ptr == blocks[i].start + HEADER
      requires 0 <= oldsize == Room(blocks, End(), i) < n
      modifies this, bytes
      ensures Valid() && r != ptr && Moved(old(Areas(blocks, End())), old(bytes[..]), ptr, oldsize, n, r, oldsize)
      ensures r == NULL <==> old(NoRoom(blocks, End(), available, Rounded(n)))
      ensures r == NULL ==> blocks == old(blocks) && free == old(free) && available == old(available)
    {
      hide Valid, Inv, IsRing, Marked, Areas, Untouched, SameBytes, NoRoom, Rounded;
      ValidParts();
      RoundedIsLeast(n, n);
      ghost var was, wasBytes := Areas(blocks, End()), bytes[..];
      UsedIsArea(blocks, End(), i);
      NextWithin(blocks, End(), i);
      BytesStay(wasBytes, ptr, oldsize);
      ghost var room;
      r, room := AllocArea(n);
      if r != NULL {
        MoveOver(ptr, r, oldsize, room, was, wasBytes);
      }
      FewerUntouched(was, ptr, oldsize, wasBytes, bytes[..]);
    }

    // The copy into the new block, and the free of the old one.
    method MoveOver(ptr: int, r: int, oldsize: int, ghost room: int, ghost was: set<(int, int)>,
                    ghost wasBytes: seq<int>)
      requires Valid() && (ptr - HEADER, oldsize) in was && 0 <= oldsize < room && ptr >= HEADER
      requires Gains(was, Areas(blocks, End()), r - HEADER, room) && (r - HEADER, room) !in was && r != NULL
      requires Untouched(was, wasBytes, bytes[..])
      modifies this, bytes
      ensures Valid() && Gains(was - {(ptr - HEADER, oldsize)}, Areas(blocks, End()), r - HEADER, room)
      ensures Untouched(was, wasBytes, bytes[..]) && SameBytes(wasBytes, bytes[..], ptr, r, oldsize)
    {
      hide Valid, Areas, Untouched, SameBytes;
      CopyOver(ptr, r, oldsize, room, was, wasBytes);
      ValidParts();
      ghost var p := (ptr - HEADER, oldsize);
      ghost var j := AreaIs(blocks, End(), p);
      FreedAreas(blocks, End(), j);
      Free(ptr, j);
    }

    // The copy into a block that has just been allocated.
    method CopyOver(ptr: int, r: int, oldsize: int, ghost room: int, ghost was: set<(int, int)>,
                    ghost wasBytes: seq<int>)
      requires Valid() && (ptr - HEADER, oldsize) in was && 0 <= oldsize <= room
      requires Gains(was, Areas(blocks, End()), r - HEADER, room) && (r - HEADER, room) !in was
      requires Untouched(was, wasBytes, bytes[..])
      modifies bytes
      ensures Untouched(was, wasBytes, bytes[..]) && SameBytes(wasBytes, bytes[..], ptr, r, oldsize)
    {
      ghost var added, mid := (r - HEADER, room), bytes[..];
      forall q | q in was
        ensures q in Areas(blocks, End()) && (q.0 + HEADER + q.1 <= added.0 || added.0 + HEADER + room <= q.0)
      {
        AreasApart(blocks, End(), q, added);
      }
      AreaWithin(blocks, End(), added);
      AreaWithin(blocks, End(), (ptr - HEADER, oldsize));
      hide Inv, IsRing, Marked, Areas;
      CopyBytes(r, ptr, oldsize);
      CopiedUntouched(was, wasBytes, mid, bytes[..], added.0, room, r + oldsize);
      assert mid[ptr..ptr + oldsize] == wasBytes[ptr..ptr + oldsize];
    }

    // An allocation, in the words of what the callers hold.
    method AllocArea(size: nat) returns (ptr: int, ghost room: int)
      requires Valid()
      modifies this, bytes
      ensures Valid() && Untouched(old(Areas(blocks, End())), old(bytes[..]), bytes[..])
      ensures ptr == NULL <==> old(NoRoom(blocks, End(), available, Rounded(size)))
      ensures ptr == NULL ==> Areas(blocks, End()) == old(Areas(blocks, End())) && bytes[..] == old(bytes[..])
      ensures ptr == NULL ==> blocks == old(blocks) && free == old(free) && available == old(available)
      ensures ptr != NULL ==> size <= room < Rounded(size) + HEADER + MINIALLOC
      ensures ptr != NULL ==> Gains(old(Areas(blocks, End())), Areas(blocks, End()), ptr - HEADER, room)
      ensures ptr != NULL ==> forall p :: p in old(Areas(blocks, End())) ==> p.0 != ptr - HEADER
    {
      room := 0;
      ghost var k, was, wasBytes := Chosen(size), blocks, bytes[..];
      if k < |blocks| {
        ChosenFits(size);
        TakenAreas(blocks, End(), k, Rounded(size));
        OtherStarts(blocks, End(), k);
        IndexOfStart(blocks, End(), k);
        FreeArea(blocks, End(), k);
        room := if Room(blocks, End(), k) >= Rounded(size) + HEADER + MINIALLOC then Rounded(size)
          else Room(blocks, End(), k);
      }
      assert Tiles(was, End());
      hide Inv, IsRing, Marked, Areas, Taken, TakenFree, TakenAvailable, Tiles, NoRoom;
      ptr := Alloc(size);
      if ptr != NULL {
        ConfinedUntouched(was, End(), k, ptr + Rounded(size), NextStart(was, End(), k), wasBytes, bytes[..]);
      }
    }
  }

  lemma BytesStay(bytes: seq<int>, at: int, n: int)
    requires 0 <= at && 0 <= n && at + n <= |bytes|
    ensures SameBytes(bytes, bytes, at, at, n)
  {
  }

  lemma FewerUntouched(areas: set<(int, int)>, ptr: int, oldsize: int, was: seq<int>, now: seq<int>)
    requires Untouched(areas, was, now)
    ensures Untouched(Others(areas, ptr, oldsize), was, now)
  {
  }

  // Two areas do not overlap, and each lies in the pool.
  lemma AreasApart(bs: Blocks, end: nat, a: (int, int), b: (int, int))
    requires Tiles(bs, end) && a in Areas(bs, end) && b in Areas(bs, end) && a != b
    ensures a.0 + HEADER + a.1 <= b.0 || b.0 + HEADER + b.1 <= a.0
  {
    var j := AreaIs(bs, end, a);
    var k := AreaIs(bs, end, b);
    if j < k {
      NextBefore(bs, end, j, k);
    } else if k < j {
      NextBefore(bs, end, k, j);
    }
  }

  lemma AreaWithin(bs: Blocks, end: nat, a: (int, int))
    requires Tiles(bs, end) && a in Areas(bs, end)
    ensures 0 <= a.0 && 0 <= a.1 && a.0 + HEADER + a.1 <= end
  {
    var k := AreaIs(bs, end, a);
    NextWithin(bs, end, k);
  }

  lemma CopiedUntouched(areas: set<(int, int)>, was: seq<int>, mid: seq<int>, now: seq<int>, start: int, room: int,
                        hi: int)
    requires Untouched(areas, was, mid) && Confined(mid, now, start + HEADER, hi) && hi <= start + HEADER + room
    requires forall q :: q in areas ==> q.0 + HEADER + q.1 <= start || start + HEADER + room <= q.0
    ensures Untouched(areas, was, now)
  {
  }

  // No area starts where a free block does.
  lemma FreeArea(bs: Blocks, end: nat, k: nat)
    requires Tiles(bs, end) && k < |bs| && !bs[k].used
    ensures (forall p :: p in Areas(bs, end) ==> p.0 != bs[k].start) && NextStart(bs, end, k) <= CutEnd(bs, end, k)
  {
    assert k + 1 < |bs| ==> Room(bs, end, k + 1) >= 0;
    OtherStarts(bs, end, k);
    forall p | p in Areas(bs, end) ensures p.0 != bs[k].start {
      var j := AreaIs(bs, end, p);
    }
  }

  lemma ConfinedSame(was: seq<int>, now: seq<int>, lo: int, hi: int, at: int, n: int)
    requires Confined(was, now, lo, hi) && 0 <= at && 0 <= n && at + n <= |was| && (at + n <= lo || hi <= at)
    ensures SameBytes(was, now, at, at, n)
  {
  }

  // The request is met where the block is: it has room, or the free block behind it has enough to leave a block.
  predicate InPlace(bs: Blocks, end: nat, i: nat, newsize: nat)
    requires i < |bs|
  {
    var n := Rounded(newsize);
    n <= Room(bs, end, i) || (RightFree(bs, i) && Room(bs, end, i + 1) + Room(bs, end, i) > n + MINIALLOC)
  }

  /** A reallocation to a positive size fails: it is not met in place, and the rounded size, rounded again, is not
      there. */
  ghost predicate Refused(bs: Blocks, end: nat, available: int, ptr: int, i: nat, newsize: nat)
    requires ptr != NULL ==> i < |bs|
  {
    (ptr == NULL || !InPlace(bs, end, i, newsize)) && NoRoom(bs, end, available, Rounded(Rounded(newsize)))
  }

  lemma RefusedIs(bs: Blocks, end: nat, available: int, ptr: int, i: nat, newsize: nat)
    requires i < |bs|
    ensures Refused(bs, end, available, ptr, i, newsize) <==>
              (ptr == NULL || !InPlace(bs, end, i, newsize)) && NoRoom(bs, end, available, Rounded(Rounded(newsize)))
  {
  }

  lemma InPlaceIs(bs: Blocks, end: nat, i: nat, newsize: nat)
    requires i < |bs|
    ensures InPlace(bs, end, i, newsize) <==>
      Rounded(newsize) <= Room(bs, end, i)
        || (RightFree(bs, i) && Room(bs, end, i + 1) + Room(bs, end, i) > Rounded(newsize) + MINIALLOC)
    ensures RightFree(bs, i) ==> i + 1 < |bs| && NextStart(bs, end, i) == bs[i + 1].start
  {
  }

  function Others(was: set<(int, int)>, ptr: int, oldsize: int): set<(int, int)> {
    if ptr == NULL then was else was - {(ptr - HEADER, oldsize)}
  }

  // How a resize changes what the callers hold: the old block for one with enough room, and not much more, or nothing
  // if it fails.
  ghost predicate Resized(was: set<(int, int)>, now: set<(int, int)>, ptr: int, oldsize: int, newsize: nat, r: int) {
    var others := Others(was, ptr, oldsize);
    if newsize == 0 then r == NULL && now == others
    else if r == NULL then now == was
    else GainsRoom(others, now, r - HEADER, newsize, Rounded(Rounded(newsize)) + HEADER + MINIALLOC)
  }

  ghost predicate GainsRoom(was: set<(int, int)>, now: set<(int, int)>, at: int, least: int, most: int) {
    exists room :: least <= room <= most && Gains(was, now, at, room)
  }

  predicate Gains(was: set<(int, int)>, now: set<(int, int)>, at: int, room: int) {
    now == was + {(at, room)}
  }

  lemma ReplacedOver(bs: Blocks, i: nat, n: nat, y: Block, mid: Blocks)
    requires i + n <= |bs|
    ensures Replaced(Replaced(bs, i, n, [y]), i, 1, mid) == Replaced(bs, i, n, mid)
  {
    var r := Replaced(bs, i, n, [y]);
    assert r[..i] == bs[..i] && r[i + 1..] == bs[i + n..];
  }

  lemma GrowSteps(bs: Blocks, end: nat, i: nat, size: nat)
    requires Tiles(bs, end) && i < |bs| && bs[i].used && RightFree(bs, i)
    requires bs[i].start + 2 * HEADER + size <= NextStart(bs, end, i + 1)
    ensures var b1 := Replaced(bs, i, 2, [bs[i]]);
            && Tiles(b1, end) && i < |b1| && b1[i] == bs[i] && NextStart(b1, end, i) == NextStart(bs, end, i + 1)
            && Replaced(b1, i, 1, [bs[i], Block(bs[i].start + HEADER + size, false)]) == Cut(bs, i, size)
  {
    var last := NextStart(bs, end, i + 1);
    SliceTwo(bs, end, i);
    OneBlock(bs[i], last);
    TilesReplaced(bs, end, i, 2, [bs[i]]);
    ReplacedParts(bs, i, 2, bs[i]);
    ReplacedOver(bs, i, 2, bs[i], [bs[i], Block(bs[i].start + HEADER + size, false)]);
    assert bs[i] == Block(bs[i].start, true);
    hide Tiles;
  }

  lemma ShrinkSteps(bs: Blocks, end: nat, i: nat, size: nat)
    requires Tiles(bs, end) && i < |bs| && bs[i].used
    ensures var rest := Block(bs[i].start + HEADER + size, false);
            var b1 := Replaced(bs, i, 1, [bs[i], rest]);
            && |b1| == |bs| + 1 && b1[i + 1] == rest && (RightFree(b1, i + 1) <==> RightFree(bs, i))
            && NextStart(b1, end, i + 1) == NextStart(bs, end, i)
            && (i + 1 < |bs| ==> b1[i + 2] == bs[i + 1] && NextStart(b1, end, i + 2) == NextStart(bs, end, i + 1))
            && var b2 := if RightFree(bs, i) then Replaced(b1, i + 1, 2, [rest]) else b1;
               b2 == Cut(bs, i, size) && i + 1 < |b2| && b2[i + 1] == rest
                 && NextStart(b2, end, i + 1) == CutEnd(bs, end, i)
  {
    var rest := Block(bs[i].start + HEADER + size, false);
    var b1 := Replaced(bs, i, 1, [bs[i], rest]);
    assert bs[i] == Block(bs[i].start, true);
    if RightFree(bs, i) {
      assert b1[..i + 1] == bs[..i] + [bs[i]] && b1[i + 3..] == bs[i + 2..];
      assert Replaced(b1, i + 1, 2, [rest]) == bs[..i] + [bs[i], rest] + bs[i + 2..];
    }
  }

  // What a cut needs to know of the free list.
  lemma CutLinks(bs: Blocks, end: nat, i: nat, size: nat, free: seq<int>)
    requires Tiles(bs, end) && ListsFree(free, bs) && i < |bs| && bs[i].used
    requires bs[i].start + 2 * HEADER + size <= CutEnd(bs, end, i)
    requires RightFree(bs, i) ==> bs[i].start + HEADER + size != bs[i + 1].start
    ensures var rest := bs[i].start + HEADER + size;
            && rest !in free && Distinct(free) && rest < CutEnd(bs, end, i)
            && (RightFree(bs, i) ==> bs[i + 1].start in free && rest !in Without(free, bs[i + 1].start))
  {
    var rest := bs[i].start + HEADER + size;
    if RightFree(bs, i) {
      OwnStart(bs, end, i + 1);
      WithoutDistinct(free, bs[i + 1].start);
      if rest < bs[i + 1].start {
        InsideIsNoStart(bs, end, i, rest);
      } else {
        InsideIsNoStart(bs, end, i + 1, rest);
      }
    } else {
      InsideIsNoStart(bs, end, i, rest);
    }
  }

  lemma NextUsed(all: Links, used: map<int, bool>, bs: Blocks, end: nat, k: nat)
    requires IsRing(all, AllRing(bs, end)) && Marked(used, bs, end) && k < |bs|
    ensures bs[k].start in all.next && all.next[bs[k].start] == NextStart(bs, end, k)
    ensures NextStart(bs, end, k) in used && (used[NextStart(bs, end, k)] <==> !RightFree(bs, k))
  {
    RingAt(all, bs, end, k);
  }

  lemma PrevUsed(all: Links, used: map<int, bool>, bs: Blocks, end: nat, k: nat)
    requires IsRing(all, AllRing(bs, end)) && Marked(used, bs, end) && k < |bs|
    ensures bs[k].start in all.prev && all.prev[bs[k].start] in used
    ensures all.prev[bs[k].start] == if k > 0 then bs[k - 1].start else end
    ensures used[all.prev[bs[k].start]] <==> !LeftFree(bs, k)
  {
    RingAt(all, bs, end, k);
  }

  lemma ReplacedAgain(bs: Blocks, i: nat, n: nat, x: Block, y: Block)
    requires i + n < |bs|
    ensures Replaced(Replaced(bs, i, n, [y]), i, 2, [x]) == Replaced(bs, i, n + 1, [x])
  {
    var r := Replaced(bs, i, n, [y]);
    assert r[..i] == bs[..i] && r[i + 2..] == bs[i + n + 1..];
  }

  lemma ReplacedBefore(bs: Blocks, i: nat, x: Block, y: Block)
    requires 0 < i < |bs|
    ensures Replaced(Replaced(bs, i, 1, [y]), i - 1, 2, [x]) == Replaced(bs, i - 1, 2, [x])
  {
    var r := Replaced(bs, i, 1, [y]);
    assert r[..i - 1] == bs[..i - 1] && r[i + 1..] == bs[i + 1..];
  }

  lemma ReplacedParts(bs: Blocks, i: nat, n: nat, x: Block)
    requires i + n <= |bs| && n > 0
    ensures var r := Replaced(bs, i, n, [x]);
            && |r| == |bs| - n + 1 && r[i] == x && (i > 0 ==> r[i - 1] == bs[i - 1])
            && (i + n < |bs| ==> r[i + 1] == bs[i + n])
  {
  }

  // The blocks after the first steps of a free, which join a block with the previous one.
  function LeftMerged(bs: Blocks, i: nat): Blocks
    requires i < |bs|
  {
    if LeftFree(bs, i) then Replaced(bs, i - 1, 2, [Block(bs[i - 1].start, false)])
    else Replaced(bs, i, 1, [Block(bs[i].start, false)])
  }

  lemma LeftMergedIs(bs: Blocks, i: nat)
    requires i < |bs|
    ensures LeftFree(bs, i) ==> i > 0
    ensures var b1 := Replaced(bs, i, 1, [Block(bs[i].start, false)]);
            && |b1| == |bs| && b1[i] == Block(bs[i].start, false) && (i > 0 ==> b1[i - 1] == bs[i - 1])
               && LeftFree(b1, i) == LeftFree(bs, i)
            && LeftMerged(bs, i) == if LeftFree(b1, i) then Replaced(b1, i - 1, 2, [Block(b1[i - 1].start, false)])
               else b1
  {
    hide Replaced;
    var y := Block(bs[i].start, false);
    ReplacedParts(bs, i, 1, y);
    if LeftFree(bs, i) {
      ReplacedBefore(bs, i, Block(bs[i - 1].start, false), y);
    }
  }

  // And after the last step, which joins it with the next one.
  lemma FreedSteps(bs: Blocks, i: nat)
    requires i < |bs|
    ensures var b2, at := LeftMerged(bs, i), if LeftFree(bs, i) then i - 1 else i;
            && 0 <= at < |b2| && b2[at] == Block(bs[at].start, false) && (RightFree(b2, at) <==> RightFree(bs, i))
            && (RightFree(bs, i) ==> at + 1 < |b2| && b2[at + 1] == bs[i + 1])
            && Freed(bs, i) == if RightFree(bs, i) then Replaced(b2, at, 2, [Block(bs[at].start, false)]) else b2
  {
    hide Replaced;
    var at, n := if LeftFree(bs, i) then i - 1 else i, if LeftFree(bs, i) then 2 else 1;
    var x := Block(bs[at].start, false);
    ReplacedParts(bs, at, n, x);
    if RightFree(bs, i) {
      ReplacedAgain(bs, at, n, x, x);
    }
  }

  // What a free needs to know of the free list.
  lemma FreedLinks(bs: Blocks, end: nat, i: nat, free: seq<int>)
    requires Tiles(bs, end) && ListsFree(free, bs) && i < |bs| && bs[i].used
    ensures bs[i].start !in free && Distinct(free) && (RightFree(bs, i) ==> bs[i + 1].start in free)
    ensures RightFree(bs, i) ==> bs[i].start !in Without(free, bs[i + 1].start)
  {
    OwnStart(bs, end, i);
    if RightFree(bs, i) {
      OwnStart(bs, end, i + 1);
      WithoutDistinct(free, bs[i + 1].start);
    }
  }

  lemma NextWithin(bs: Blocks, end: nat, i: nat)
    requires Tiles(bs, end) && i < |bs|
    ensures NextStart(bs, end, i) <= end && CutEnd(bs, end, i) <= end
  {
    if i + 1 < |bs| {
      BeforeEnd(bs, end, i + 1);
      if i + 2 < |bs| {
        BeforeEnd(bs, end, i + 2);
      }
    }
  }

  lemma OtherStarts(bs: Blocks, end: nat, i: nat)
    requires Tiles(bs, end) && i < |bs|
    ensures bs[i].start != end && forall k :: 0 <= k < |bs| && k != i ==> bs[k].start != bs[i].start
  {
    BeforeEnd(bs, end, i);
    forall k | 0 <= k < |bs| && k != i ensures bs[k].start != bs[i].start {
      StartsIncrease(bs, end, if k < i then k else i, if k < i then i else k);
    }
  }

  lemma IndexFree(bs: Blocks, end: nat, x: int, i: nat)
    requires Tiles(bs, end) && x in FreeStarts(bs) && i == IndexOf(bs, x)
    ensures i < |bs| && bs[i].start == x && !bs[i].used
  {
    var k := FreeStartIs(bs, x);
    IndexOfStart(bs, end, k);
  }

  // Marking a block leaves all starts alone.
  lemma SameStarts(bs: Blocks, end: nat, i: nat, used: bool)
    requires i < |bs|
    ensures AllRing(Replaced(bs, i, 1, [Block(bs[i].start, used)]), end) == AllRing(bs, end)
  {
  }

  lemma {:induction false} FirstFitIs(free: seq<int>, bs: Blocks, end: nat, size: nat, k: nat)
    requires k <= |free| && forall i :: 0 <= i < k ==> RoomAt(bs, end, free[i]) < size
    requires k < |free| ==> RoomAt(bs, end, free[k]) >= size
    ensures FirstFit(free, bs, end, size) == k
  {
    if k > 0 {
      FirstFitIs(free[1..], bs, end, size, k - 1);
    }
  }

  // A new pool turns down a request for all of its bytes, which its one block has.
  method AllTurnedDown(poolSize: nat) returns (heap: MemHeap, ptr: int)
    requires poolSize % 8 == 0 && poolSize >= 2 * HEADER + 16
    ensures fresh(heap) && heap.Valid() && heap.blocks == [Block(0, false)]
    ensures Room(heap.blocks, heap.End(), 0) == poolSize - 2 * HEADER
    ensures ptr == NULL
  {
    heap := new MemHeap(poolSize);
    OneBlock(Block(0, false), heap.End());
    var size: nat := poolSize - 2 * HEADER;
    assert Rounded(size) == size;
    assert heap.available == size;
    ptr := heap.Alloc(size);
  }
}
