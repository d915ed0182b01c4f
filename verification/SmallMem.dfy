/** The small-memory heap of rt-smart/src/mem.c, in the sizes of the 64-bit boards with memory tracing.

    The heap is the sequence of its blocks in address order. A block runs from its header to the next block's
    header, and the last one to the header of `heap_end`, which is always used and not one of the blocks. */
module SmallMem {
  import opened Common

  const ALIGN_SIZE := 8
  const MIN_SIZE := 24
  const HEADER := 32

  datatype Block = Block(start: nat, used: bool)

  type Blocks = seq<Block>

  // Where the block after block i starts; `end` is the offset of heap_end.
  function Next(bs: Blocks, end: nat, i: nat): nat
    requires i < |bs|
  {
    if i + 1 < |bs| then bs[i + 1].start else end
  }

  // The user bytes of block i.
  function Room(bs: Blocks, end: nat, i: nat): int
    requires i < |bs|
  {
    Next(bs, end, i) - bs[i].start - HEADER
  }

  // The blocks tile the heap, and each has room for at least one aligned unit.
  ghost predicate Tiled(bs: Blocks, end: nat) {
    && bs != [] && bs[0].start == 0 && end % ALIGN_SIZE == 0
    && (forall i :: 0 <= i < |bs| ==> bs[i].start % ALIGN_SIZE == 0)
    && (forall i :: 0 <= i < |bs| ==> Room(bs, end, i) >= ALIGN_SIZE)
  }

  ghost predicate Coalesced(bs: Blocks) {
    forall i :: 0 <= i < |bs| - 1 ==> bs[i].used || bs[i + 1].used
  }

  ghost predicate Inv(bs: Blocks, end: nat) {
    Tiled(bs, end) && Coalesced(bs)
  }

  // The number of used blocks before the first free one.
  function FirstFree(bs: Blocks): (k: nat)
    ensures k <= |bs| && (k < |bs| ==> !bs[k].used)
    ensures forall j :: 0 <= j < k ==> bs[j].used
  {
    if bs == [] || !bs[0].used then 0 else 1 + FirstFree(bs[1..])
  }

  // The offset of the first free block, or of heap_end.
  function LowestFree(bs: Blocks, end: nat): nat {
    Start(bs[FirstFree(bs)..], end)
  }

  function Start(bs: Blocks, end: nat): nat {
    if bs == [] then end else bs[0].start
  }

  // The bytes of the used blocks, headers included.
  function UsedMem(bs: Blocks, end: nat): int {
    if bs == [] then 0 else (if bs[0].used then Start(bs[1..], end) - bs[0].start else 0) + UsedMem(bs[1..], end)
  }

  // rt_malloc's test on one block.
  predicate Fits(bs: Blocks, memSize: nat, size: nat, i: nat)
    requires i < |bs|
  {
    !bs[i].used && bs[i].start < memSize - size && Room(bs, memSize + HEADER, i) >= size
  }

  // The first block from the i-th on that fits, or the number of blocks.
  function FirstFit(bs: Blocks, memSize: nat, size: nat, i: nat): (k: nat)
    requires i <= |bs|
    ensures i <= k <= |bs| && (k < |bs| ==> Fits(bs, memSize, size, k))
    ensures forall j :: i <= j < k ==> !Fits(bs, memSize, size, j)
    decreases |bs| - i
  {
    if i == |bs| || Fits(bs, memSize, size, i) then i else FirstFit(bs, memSize, size, i + 1)
  }

  // Splitting block i after `size` user bytes.
  function SplitAt(bs: Blocks, i: nat, size: nat): Blocks
    requires i < |bs|
  {
    bs[..i] + [Block(bs[i].start, true), Block(bs[i].start + HEADER + size, false)] + bs[i + 1..]
  }

  function Allocated(bs: Blocks, end: nat, i: nat, size: nat): Blocks
    requires i < |bs|
  {
    if Room(bs, end, i) >= size + HEADER + MIN_SIZE then SplitAt(bs, i, size)
    else bs[i := Block(bs[i].start, true)]
  }

  // Block i takes over its successor if that is free.
  function MergedForward(bs: Blocks, i: nat): Blocks
    requires i < |bs|
  {
    if i + 1 < |bs| && !bs[i + 1].used then bs[..i + 1] + bs[i + 2..] else bs
  }

  // plug_holes on a free block i
  function Plugged(bs: Blocks, i: nat): Blocks
    requires i < |bs|
  {
    var forward := MergedForward(bs, i);
    if i > 0 && !bs[i - 1].used then MergedForward(forward, i - 1) else forward
  }

  function Freed(bs: Blocks, i: nat): Blocks
    requires i < |bs|
  {
    Plugged(bs[i := Block(bs[i].start, false)], i)
  }

  // rt_realloc's split of a used block.
  function Shrunk(bs: Blocks, i: nat, size: nat): Blocks
    requires i < |bs|
  {
    Plugged(SplitAt(bs, i, size), i + 1)
  }

  lemma SplitTiled(bs: Blocks, end: nat, i: nat, size: nat)
    requires Tiled(bs, end) && i < |bs| && size % ALIGN_SIZE == 0 && size >= ALIGN_SIZE
    requires Room(bs, end, i) >= size + HEADER + ALIGN_SIZE
    ensures Tiled(SplitAt(bs, i, size), end)
  {
    var r := SplitAt(bs, i, size);
    forall k | 0 <= k < |r| ensures r[k].start % ALIGN_SIZE == 0 && Room(r, end, k) >= ALIGN_SIZE {
      if k < i {
        assert Room(r, end, k) == Room(bs, end, k);
      } else if k == i {
        assert Room(r, end, k) == size;
      } else if k == i + 1 {
        assert Next(r, end, k) == Next(bs, end, i);
        AlignedSum(bs[i].start, size);
      } else {
        assert Room(r, end, k) == Room(bs, end, k - 1) && r[k] == bs[k - 1];
      }
    }
  }

  lemma SplitParts(bs: Blocks, i: nat, size: nat)
    requires i < |bs|
    ensures var r := SplitAt(bs, i, size);
            |r| == |bs| + 1 && r[i] == Block(bs[i].start, true) && r[i + 1] == Block(bs[i].start + HEADER + size, false)
  {
  }

  // What is at each position after a split.
  lemma SplitIndex(bs: Blocks, end: nat, i: nat, size: nat, k: nat)
    requires i < |bs| && k <= |bs|
    ensures var r := SplitAt(bs, i, size);
            && |r| == |bs| + 1
            && if k == i then r[k] == Block(bs[i].start, true) && Next(r, end, k) == bs[i].start + HEADER + size
               else if k == i + 1 then r[k] == Block(bs[i].start + HEADER + size, false)
                 && Next(r, end, k) == Next(bs, end, i)
               else
                 var j := if k < i then k else k - 1;
                 r[k] == bs[j] && Next(r, end, k) == Next(bs, end, j) && Room(r, end, k) == Room(bs, end, j)
  {
  }

  // What is at each position after a merge.
  lemma MergedIndex(bs: Blocks, end: nat, i: nat, k: nat)
    requires i + 1 < |bs| && !bs[i + 1].used && k < |bs| - 1
    ensures var r, j := MergedForward(bs, i), if k <= i then k else k + 1;
            && |r| == |bs| - 1 && r[k] == bs[j]
               && Next(r, end, k) == (if k == i then Next(bs, end, i + 1) else Next(bs, end, j))
            && (k > 0 ==> r[k - 1] == if k <= i + 1 then bs[k - 1] else bs[k])
  {
  }

  lemma AlignedSum(start: nat, size: nat)
    requires start % ALIGN_SIZE == 0 && size % ALIGN_SIZE == 0
    ensures (start + HEADER + size) % ALIGN_SIZE == 0
  {
  }

  lemma MergedTiled(bs: Blocks, end: nat, i: nat)
    requires Tiled(bs, end) && i < |bs|
    ensures Tiled(MergedForward(bs, i), end)
  {
    var r := MergedForward(bs, i);
    forall k | 0 <= k < |r| ensures r[k].start % ALIGN_SIZE == 0 && Room(r, end, k) >= ALIGN_SIZE {
      if |r| < |bs| {
        assert Room(bs, end, if k <= i then k else k + 1) >= ALIGN_SIZE;
        assert Room(bs, end, i + 1) >= ALIGN_SIZE;
      } else {
        assert Room(bs, end, k) >= ALIGN_SIZE;
      }
    }
  }

  // Every free block but the i-th has used neighbours.
  ghost predicate CoalescedExcept(bs: Blocks, i: nat) {
    forall k :: 0 <= k < |bs| - 1 ==> bs[k].used || bs[k + 1].used || k == i || k + 1 == i
  }

  lemma PluggedKeeps(bs: Blocks, end: nat, i: nat)
    requires Tiled(bs, end) && i < |bs| && !bs[i].used && CoalescedExcept(bs, i)
    ensures Inv(Plugged(bs, i), end)
  {
    MergedTiled(bs, end, i);
    var forward := MergedForward(bs, i);
    if i > 0 && !bs[i - 1].used {
      MergedTiled(forward, end, i - 1);
    }
  }

  lemma FreedKeeps(bs: Blocks, end: nat, i: nat)
    requires Inv(bs, end) && i < |bs|
    ensures Inv(Freed(bs, i), end)
  {
    var marked := bs[i := Block(bs[i].start, false)];
    assert Tiled(marked, end) by {
      forall k | 0 <= k < |bs| ensures Room(marked, end, k) >= ALIGN_SIZE {
        assert Room(marked, end, k) == Room(bs, end, k);
      }
    }
    PluggedKeeps(marked, end, i);
  }

  lemma AllocatedKeeps(bs: Blocks, end: nat, i: nat, size: nat)
    requires Inv(bs, end) && i < |bs| && !bs[i].used && size % ALIGN_SIZE == 0 && MIN_SIZE <= size <= Room(bs, end, i)
    ensures Inv(Allocated(bs, end, i, size), end)
  {
    if Room(bs, end, i) >= size + HEADER + MIN_SIZE {
      SplitTiled(bs, end, i, size);
    } else {
      var r := Allocated(bs, end, i, size);
      forall k | 0 <= k < |bs| ensures Room(r, end, k) >= ALIGN_SIZE {
        assert Room(r, end, k) == Room(bs, end, k);
      }
    }
  }

  lemma ShrunkKeeps(bs: Blocks, end: nat, i: nat, size: nat)
    requires Inv(bs, end) && i < |bs| && bs[i].used && size % ALIGN_SIZE == 0 && ALIGN_SIZE <= size
    requires size + HEADER + MIN_SIZE < Room(bs, end, i)
    ensures Inv(Shrunk(bs, i, size), end)
  {
    SplitTiled(bs, end, i, size);
    PluggedKeeps(SplitAt(bs, i, size), end, i + 1);
  }

  /** Freeing the block just allocated restores the heap. */
  lemma FreeUndoesMalloc(bs: Blocks, end: nat, i: nat, size: nat)
    requires Inv(bs, end) && i < |bs| && !bs[i].used
    ensures i < |Allocated(bs, end, i, size)| && Freed(Allocated(bs, end, i, size), i) == bs
  {
  }

  // A later block starts at least a header and a unit further on.
  lemma {:induction false} StartsIncrease(bs: Blocks, end: nat, i: nat, j: nat)
    requires Tiled(bs, end) && i < j <= |bs|
    ensures bs[i].start + HEADER + ALIGN_SIZE <= Start(bs[j..], end) <= end
    decreases j - i, |bs| - j
  {
    assert Room(bs, end, j - 1) >= ALIGN_SIZE;
    if i < j - 1 {
      StartsIncrease(bs, end, i, j - 1);
    }
    if j < |bs| {
      StartsIncreaseToEnd(bs, end, j);
    }
  }

  lemma {:induction false} StartsIncreaseToEnd(bs: Blocks, end: nat, i: nat)
    requires Tiled(bs, end) && i < |bs|
    ensures bs[i].start + HEADER + ALIGN_SIZE <= end
    decreases |bs| - i
  {
    assert Room(bs, end, i) >= ALIGN_SIZE;
    if i + 1 < |bs| {
      StartsIncreaseToEnd(bs, end, i + 1);
    }
  }

  lemma FirstFreeUnique(bs: Blocks, k: nat)
    requires k <= |bs| && (k < |bs| ==> !bs[k].used) && forall j :: 0 <= j < k ==> bs[j].used
    ensures FirstFree(bs) == k
  {
  }

  // Merging into a free block does not move the lowest free block, and that block is not the one merged.
  lemma LowestFreeMerged(bs: Blocks, end: nat, i: nat)
    requires Tiled(bs, end) && i < |bs| && !bs[i].used
    ensures LowestFree(MergedForward(bs, i), end) == LowestFree(bs, end) <= bs[i].start
    ensures i + 1 < |bs| ==> LowestFree(bs, end) < bs[i + 1].start
  {
    var k := FirstFree(bs);
    assert k <= i;
    FirstFreeUnique(MergedForward(bs, i), k);
    if k < i {
      StartsIncrease(bs, end, k, i);
    }
    if i + 1 < |bs| {
      StartsIncrease(bs, end, i, i + 1);
    }
  }

  // The comparison with the lowest-free pointer when block i becomes free.
  lemma LowestFreeMarked(bs: Blocks, end: nat, i: nat)
    requires Tiled(bs, end) && i < |bs| && bs[i].used
    ensures var marked := bs[i := Block(bs[i].start, false)];
            LowestFree(marked, end) == if bs[i].start < LowestFree(bs, end) then bs[i].start else LowestFree(bs, end)
  {
    var k := FirstFree(bs);
    if i < k {
      StartsIncrease(bs, end, i, k);
      FirstFreeUnique(bs[i := Block(bs[i].start, false)], i);
    } else {
      StartsIncrease(bs, end, k, i);
      FirstFreeUnique(bs[i := Block(bs[i].start, false)], k);
    }
  }

  // The comparison when the tail of the used block i is split off.
  lemma LowestFreeSplit(bs: Blocks, end: nat, i: nat, size: nat)
    requires Tiled(bs, end) && i < |bs| && bs[i].used && size + HEADER < Room(bs, end, i)
    ensures var rest := bs[i].start + HEADER + size;
            LowestFree(SplitAt(bs, i, size), end) == if rest < LowestFree(bs, end) then rest else LowestFree(bs, end)
  {
    var k := FirstFree(bs);
    if i < k {
      StartsIncrease(bs, end, i, k);
      if i + 1 < k {
        StartsIncrease(bs, end, i + 1, k);
      }
      FirstFreeUnique(SplitAt(bs, i, size), i + 1);
    } else {
      StartsIncrease(bs, end, k, i);
      FirstFreeUnique(SplitAt(bs, i, size), k);
    }
  }

  lemma LowestFreeIs(bs: Blocks, end: nat, k: nat)
    requires Tiled(bs, end) && k < |bs| && !bs[k].used && bs[k].start == LowestFree(bs, end)
    ensures FirstFree(bs) == k
  {
    if FirstFree(bs) < k {
      StartsIncrease(bs, end, FirstFree(bs), k);
    }
  }

  // Allocating a block other than the lowest free one leaves the pointer alone.
  lemma LowestFreeAllocated(bs: Blocks, end: nat, i: nat, size: nat)
    requires Tiled(bs, end) && i < |bs| && !bs[i].used && bs[i].start != LowestFree(bs, end)
    ensures LowestFree(Allocated(bs, end, i, size), end) == LowestFree(bs, end)
  {
    FirstFreeUnique(Allocated(bs, end, i, size), FirstFree(bs));
  }

  lemma {:induction false} UsedMemOfSum(a: Blocks, b: Blocks, end: nat)
    ensures UsedMem(a + b, end) == UsedMem(a, Start(b, end)) + UsedMem(b, end)
  {
    if a == [] {
      assert a + b == b;
    } else {
      assert (a + b)[1..] == a[1..] + b;
      UsedMemOfSum(a[1..], b, end);
    }
  }

  // The share of block i in the sum.
  lemma UsedMemAt(bs: Blocks, end: nat, i: nat)
    requires i < |bs|
    ensures UsedMem(bs, end) == UsedMem(bs[..i], bs[i].start)
                                + (if bs[i].used then Next(bs, end, i) - bs[i].start else 0) + UsedMem(bs[i + 1..], end)
  {
    assert bs == bs[..i] + bs[i..] && bs[i..][1..] == bs[i + 1..];
    UsedMemOfSum(bs[..i], bs[i..], end);
  }

  lemma UsedMemMerged(bs: Blocks, end: nat, i: nat)
    requires i < |bs| && !bs[i].used
    ensures UsedMem(MergedForward(bs, i), end) == UsedMem(bs, end)
  {
    var r := MergedForward(bs, i);
    UsedMemAt(bs, end, i);
    UsedMemAt(r, end, i);
    if |r| < |bs| {
      assert r[i + 1..] == bs[i + 1..][1..] && r[..i] == bs[..i];
    }
  }

  lemma UsedMemPlugged(bs: Blocks, end: nat, i: nat)
    requires i < |bs| && !bs[i].used
    ensures UsedMem(Plugged(bs, i), end) == UsedMem(bs, end)
  {
    UsedMemMerged(bs, end, i);
    if i > 0 && !bs[i - 1].used {
      UsedMemMerged(MergedForward(bs, i), end, i - 1);
    }
  }

  lemma UsedMemMarked(bs: Blocks, end: nat, i: nat, used: bool)
    requires i < |bs| && bs[i].used != used
    ensures var extent := Next(bs, end, i) - bs[i].start;
            UsedMem(bs[i := Block(bs[i].start, used)], end) == UsedMem(bs, end) + if used then extent else -extent
  {
    var r := bs[i := Block(bs[i].start, used)];
    UsedMemAt(bs, end, i);
    UsedMemAt(r, end, i);
    assert r[..i] == bs[..i] && r[i + 1..] == bs[i + 1..];
  }

  lemma UsedMemSplit(bs: Blocks, end: nat, i: nat, size: nat)
    requires i < |bs|
    ensures UsedMem(SplitAt(bs, i, size), end) ==
            UsedMem(bs, end) + HEADER + size - if bs[i].used then Next(bs, end, i) - bs[i].start else 0
  {
    var r := SplitAt(bs, i, size);
    UsedMemAt(bs, end, i);
    UsedMemAt(r, end, i);
    assert r[..i] == bs[..i] && r[i + 1..][1..] == bs[i + 1..];
  }

  // The counter updates of rt_free, rt_malloc and rt_realloc.
  lemma UsedMemAfter(bs: Blocks, end: nat, i: nat, size: nat)
    requires i < |bs|
    ensures bs[i].used ==> UsedMem(Freed(bs, i), end) == UsedMem(bs, end) - (Next(bs, end, i) - bs[i].start)
    ensures bs[i].used ==> UsedMem(Shrunk(bs, i, size), end) == UsedMem(bs, end) - (Room(bs, end, i) - size)
    ensures !bs[i].used ==>
              var taken := if Room(bs, end, i) >= size + HEADER + MIN_SIZE then size + HEADER
                else Next(bs, end, i) - bs[i].start;
              UsedMem(Allocated(bs, end, i, size), end) == UsedMem(bs, end) + taken
  {
    UsedMemSplit(bs, end, i, size);
    if bs[i].used {
      UsedMemMarked(bs, end, i, false);
      UsedMemPlugged(bs[i := Block(bs[i].start, false)], end, i);
      UsedMemPlugged(SplitAt(bs, i, size), end, i + 1);
    } else {
      UsedMemMarked(bs, end, i, true);
    }
  }

  lemma MarkedTiled(bs: Blocks, end: nat, i: nat, used: bool)
    requires Tiled(bs, end) && i < |bs|
    ensures Tiled(bs[i := Block(bs[i].start, used)], end)
  {
    var marked := bs[i := Block(bs[i].start, used)];
    forall k | 0 <= k < |bs| ensures Room(marked, end, k) >= ALIGN_SIZE {
      assert Room(marked, end, k) == Room(bs, end, k);
    }
  }

  // The size rt_malloc looks for.
  function Rounded(size: nat): nat {
    if AlignUp(size) < MIN_SIZE then MIN_SIZE else AlignUp(size)
  }

  // A size that a block can have and that is enough for the request.
  predicate Enough(n: int, size: nat) {
    n % ALIGN_SIZE == 0 && size <= n && MIN_SIZE <= n
  }

  /** The size looked for is the least that is aligned, and enough for the request and for a minimal block. */
  lemma RoundedIsLeast(size: nat, n: int)
    ensures Enough(Rounded(size), size) && (Enough(n, size) ==> Rounded(size) <= n)
  {
  }

  // Every free block with room for n bytes is the last one, and fits exactly.
  ghost predicate Tight(bs: Blocks, memSize: nat, n: nat) {
    forall i :: 0 <= i < |bs| && !bs[i].used && Room(bs, memSize + HEADER, i) >= n ==>
      i == |bs| - 1 && Room(bs, memSize + HEADER, i) == n
  }

  // When rt_malloc finds nothing, in terms of the least size that is enough.
  lemma NullExactly(bs: Blocks, memSize: nat, size: nat)
    requires Tiled(bs, memSize + HEADER) && size > 0 && memSize >= MIN_SIZE
    ensures AlignUp(size) > memSize || FirstFit(bs, memSize, Rounded(size), 0) == |bs| <==>
              Rounded(size) > memSize || Tight(bs, memSize, Rounded(size))
  {
    if Rounded(size) <= memSize {
      MallocFailsExactly(bs, memSize, Rounded(size));
    }
    hide Tiled, FirstFit;
  }

  lemma {:induction false} FirstFitUnique(bs: Blocks, memSize: nat, size: nat, from: nat, k: nat)
    requires from <= k <= |bs| && (k < |bs| ==> Fits(bs, memSize, size, k))
    requires forall j :: from <= j < k ==> !Fits(bs, memSize, size, j)
    ensures FirstFit(bs, memSize, size, from) == k
    decreases k - from
  {
    if from < k {
      FirstFitUnique(bs, memSize, size, from + 1, k);
    }
  }

  /** The scan from the lowest free block chooses the block that a scan from offset 0 would. */
  lemma ScanFromLowestFree(bs: Blocks, memSize: nat, size: nat)
    ensures FirstFit(bs, memSize, size, FirstFree(bs)) == FirstFit(bs, memSize, size, 0)
  {
    FirstFitUnique(bs, memSize, size, 0, FirstFit(bs, memSize, size, FirstFree(bs)));
  }

  /** A large enough free block is passed over only if it is the last block and fits exactly, so an allocation fails
      exactly when there is no other large enough free block. */
  lemma MallocFailsExactly(bs: Blocks, memSize: nat, size: nat)
    requires Tiled(bs, memSize + HEADER) && size <= memSize
    ensures FirstFit(bs, memSize, size, 0) == |bs| <==> Tight(bs, memSize, size)
  {
    forall i | 0 <= i < |bs| && !bs[i].used && Room(bs, memSize + HEADER, i) >= size
      ensures Fits(bs, memSize, size, i) <==> i < |bs| - 1 || Room(bs, memSize + HEADER, i) > size
    {
      if i < |bs| - 1 {
        StartsIncreaseToEnd(bs, memSize + HEADER, i + 1);
      }
    }
    if forall i :: 0 <= i < |bs| ==> !Fits(bs, memSize, size, i) {
      FirstFitUnique(bs, memSize, size, 0, |bs|);
    }
  }

  // A new heap turns down a request for all of its bytes, which its one block has.
  lemma WholeHeapPassedOver(memSize: nat)
    requires memSize % ALIGN_SIZE == 0 && memSize >= MIN_SIZE
    ensures var bs := [Block(0, false)];
            Inv(bs, memSize + HEADER) && Room(bs, memSize + HEADER, 0) == memSize
              && FirstFit(bs, memSize, memSize, 0) == |bs|
  {
  }

  ghost predicate Increasing(bs: Blocks, end: nat) {
    && (forall i, j :: 0 <= i < j < |bs| ==> bs[i].start < bs[j].start)
    && (forall i :: 0 <= i < |bs| ==> bs[i].start < end)
  }

  lemma TiledIncreasing(bs: Blocks, end: nat)
    requires Tiled(bs, end)
    ensures Increasing(bs, end)
  {
    forall i, j | 0 <= i < j <= |bs| ensures bs[i].start < Start(bs[j..], end) {
      StartsIncrease(bs, end, i, j);
    }
    forall i, j | 0 <= i < j < |bs| ensures bs[i].start < bs[j].start {
      StartsIncrease(bs, end, i, j);
    }
    forall i | 0 <= i < |bs| ensures bs[i].start < end {
      StartsIncreaseToEnd(bs, end, i);
    }
  }

  // The allocated blocks: where each starts and how many user bytes it has.
  ghost function Live(bs: Blocks, end: nat): set<(nat, int)> {
    set i | 0 <= i < |bs| && bs[i].used :: (bs[i].start, Room(bs, end, i))
  }

  lemma MergedLive(bs: Blocks, end: nat, i: nat)
    requires i < |bs| && !bs[i].used
    ensures Live(MergedForward(bs, i), end) == Live(bs, end)
  {
    var r := MergedForward(bs, i);
    if |r| < |bs| {
      forall p | p in Live(r, end) ensures p in Live(bs, end) {
        var k :| 0 <= k < |r| && r[k].used && p == (r[k].start, Room(r, end, k));
        IsLive(bs, end, if k < i then k else k + 1, p);
      }
      forall p | p in Live(bs, end) ensures p in Live(r, end) {
        var k :| 0 <= k < |bs| && bs[k].used && p == (bs[k].start, Room(bs, end, k));
        IsLive(r, end, if k < i then k else k - 1, p);
      }
    }
  }

  lemma IsLive(bs: Blocks, end: nat, i: nat, p: (nat, int))
    requires i < |bs| && bs[i].used && p == (bs[i].start, Room(bs, end, i))
    ensures p in Live(bs, end)
  {
  }

  lemma PluggedLive(bs: Blocks, end: nat, i: nat)
    requires i < |bs| && !bs[i].used
    ensures Live(Plugged(bs, i), end) == Live(bs, end)
  {
    MergedLive(bs, end, i);
    if i > 0 && !bs[i - 1].used {
      MergedLive(MergedForward(bs, i), end, i - 1);
    }
  }

  lemma MarkedLive(bs: Blocks, end: nat, i: nat, used: bool)
    requires Tiled(bs, end) && i < |bs| && bs[i].used != used
    ensures var block := (bs[i].start, Room(bs, end, i));
            Live(bs[i := Block(bs[i].start, used)], end) == if used then Live(bs, end) + {block}
              else Live(bs, end) - {block}
  {
    hide Tiled, Room;
    var r, block := bs[i := Block(bs[i].start, used)], (bs[i].start, Room(bs, end, i));
    MarkedRooms(bs, end, i, used);
    OnlyHere(bs, end, i);
    OnlyHere(r, end, i);
    MarkedElsewhere(bs, r, end, i, block);
    MarkedElsewhere(r, bs, end, i, block);
    if used {
      IsLive(r, end, i, block);
    }
    hide Live;
  }

  // Nothing else starts where block i does.
  lemma OnlyHere(bs: Blocks, end: nat, i: nat)
    requires Tiled(bs, end) && i < |bs|
    ensures forall p :: p in Live(bs, end) && p.0 == bs[i].start ==> bs[i].used && p.1 == Room(bs, end, i)
  {
    TiledIncreasing(bs, end);
    hide Tiled, Room;
  }

  lemma MarkedElsewhere(bs: Blocks, r: Blocks, end: nat, i: nat, block: (nat, int))
    requires |bs| == |r| && i < |bs| && block == (bs[i].start, Room(bs, end, i))
    requires forall k :: 0 <= k < |bs| ==>
      r[k].start == bs[k].start && Room(r, end, k) == Room(bs, end, k) && (k != i ==> r[k] == bs[k])
    ensures forall p :: p in Live(bs, end) && p != block ==> p in Live(r, end)
  {
    hide Room;
    forall p | p in Live(bs, end) && p != block ensures p in Live(r, end) {
      var k :| 0 <= k < |bs| && bs[k].used && p == (bs[k].start, Room(bs, end, k));
      IsLive(r, end, k, p);
    }
  }

  lemma MarkedRooms(bs: Blocks, end: nat, i: nat, used: bool)
    requires Tiled(bs, end) && i < |bs|
    ensures var r := bs[i := Block(bs[i].start, used)];
            Tiled(r, end) && forall k :: 0 <= k < |bs| ==>
              r[k].start == bs[k].start && Room(r, end, k) == Room(bs, end, k)
  {
    var r := bs[i := Block(bs[i].start, used)];
    forall k | 0 <= k < |bs| ensures r[k].start == bs[k].start && Room(r, end, k) == Room(bs, end, k) {
    }
  }

  lemma SplitLive(bs: Blocks, end: nat, i: nat, size: nat)
    requires Tiled(bs, end) && i < |bs|
    ensures Live(SplitAt(bs, i, size), end) == Live(bs, end) - {(bs[i].start, Room(bs, end, i))} + {(bs[i].start, size)}
  {
    hide Tiled, SplitAt, Room;
    var r, was, now := SplitAt(bs, i, size), Live(bs, end), (bs[i].start, size);
    SplitRoom(bs, end, i, size);
    SplitIndex(bs, end, i, size, i);
    IsLive(r, end, i, now);
    SplitLiveElsewhere(bs, end, i, size);
    forall p | p in was && p != (bs[i].start, Room(bs, end, i)) ensures p in Live(r, end) {
      var k :| 0 <= k < |bs| && bs[k].used && p == (bs[k].start, Room(bs, end, k));
      SplitIndex(bs, end, i, size, if k < i then k else k + 1);
      IsLive(r, end, if k < i then k else k + 1, p);
    }
  }

  lemma SplitLiveElsewhere(bs: Blocks, end: nat, i: nat, size: nat)
    requires Tiled(bs, end) && i < |bs|
    ensures forall p :: p in Live(SplitAt(bs, i, size), end) && p != (bs[i].start, size) ==>
              p in Live(bs, end) && p.0 != bs[i].start
  {
    TiledIncreasing(bs, end);
    assert forall k :: 0 <= k < |bs| && k != i ==> bs[k].start != bs[i].start;
    hide Tiled, Increasing, SplitAt, Room;
    var r := SplitAt(bs, i, size);
    forall p | p in Live(r, end) && p != (bs[i].start, size) ensures p in Live(bs, end) && p.0 != bs[i].start {
      var k :| 0 <= k < |r| && r[k].used && p == (r[k].start, Room(r, end, k));
      SplitIndex(bs, end, i, size, k);
      SplitRoom(bs, end, i, size);
      IsLive(bs, end, if k < i then k else k - 1, p);
    }
  }

  lemma SplitRoom(bs: Blocks, end: nat, i: nat, size: nat)
    requires i < |bs|
    ensures |SplitAt(bs, i, size)| == |bs| + 1 && Room(SplitAt(bs, i, size), end, i) == size
  {
  }

  // The room of the block that an allocation takes.
  function TakenRoom(bs: Blocks, end: nat, i: nat, size: nat): int
    requires i < |bs|
  {
    if Room(bs, end, i) >= size + HEADER + MIN_SIZE then size else Room(bs, end, i)
  }

  /** A block is taken with exactly the room asked for, unless what would be left of it is too small for a block. */
  lemma TakenRoomTells(bs: Blocks, end: nat, i: nat, size: nat)
    requires i < |bs| && Room(bs, end, i) >= size
    ensures size <= TakenRoom(bs, end, i, size) < size + HEADER + MIN_SIZE
    ensures TakenRoom(bs, end, i, size) == size || TakenRoom(bs, end, i, size) == Room(bs, end, i)
  {
  }

  lemma AllocatedElsewhere(bs: Blocks, end: nat, k: nat, size: nat, i: nat) returns (j: nat)
    requires k < |bs| && i < |bs| && i != k
    ensures j < |Allocated(bs, end, k, size)| && Allocated(bs, end, k, size)[j] == bs[i]
    ensures Room(Allocated(bs, end, k, size), end, j) == Room(bs, end, i)
  {
    j := if i < k || |Allocated(bs, end, k, size)| == |bs| then i else i + 1;
  }

  // Allocating block k and then freeing block i, which has become block j.
  lemma MoveLive(bs: Blocks, end: nat, k: nat, size: nat, i: nat) returns (j: nat)
    requires Inv(bs, end) && k < |bs| && !bs[k].used && size % ALIGN_SIZE == 0 && MIN_SIZE <= size <= Room(bs, end, k)
    requires i < |bs| && bs[i].used
    ensures var taken := Allocated(bs, end, k, size);
            && j < |taken| && taken[j] == bs[i]
            && Live(Freed(taken, j), end) == Live(bs, end) - {(bs[i].start, Room(bs, end, i))}
               + {(bs[k].start, TakenRoom(bs, end, k, size))}
  {
    AllocatedKeeps(bs, end, k, size);
    TouchesOneBlock(bs, end, k, size);
    IsLive(bs, end, i, (bs[i].start, Room(bs, end, i)));
    j := AllocatedElsewhere(bs, end, k, size, i);
    TouchesOneBlock(Allocated(bs, end, k, size), end, j, 0);
    hide Tiled, Coalesced, Allocated, Freed, Live;
  }

  lemma RoundedIs(size: nat)
    ensures MIN_SIZE <= Rounded(size) && size <= Rounded(size) && Rounded(size) % ALIGN_SIZE == 0
    ensures size % ALIGN_SIZE == 0 ==> AlignUp(size) == size
  {
  }

  lemma LeastRoom(bs: Blocks, end: nat, i: nat)
    requires Tiled(bs, end) && i < |bs|
    ensures Room(bs, end, i) >= ALIGN_SIZE
  {
  }

  // Rounding a size that is aligned already, and fits in the heap.
  lemma RoundedAligned(size: nat, memSize: nat)
    requires memSize >= MIN_SIZE && AlignUp(size) <= memSize
    ensures AlignUp(AlignUp(size)) == AlignUp(size) && Rounded(AlignUp(size)) <= memSize
  {
  }

  lemma FitsBlock(bs: Blocks, memSize: nat, size: nat, k: nat)
    requires k < |bs| && Fits(bs, memSize, Rounded(size), k)
    ensures !bs[k].used && size <= Rounded(size) <= Room(bs, memSize + HEADER, k) && MIN_SIZE <= Rounded(size)
    ensures Rounded(size) % ALIGN_SIZE == 0
  {
  }

  // The bytes of two different blocks do not overlap.
  lemma BlocksApart(bs: Blocks, end: nat, i: nat, k: nat)
    requires Tiled(bs, end) && i < k < |bs|
    ensures bs[i].start + HEADER + ALIGN_SIZE <= Next(bs, end, i) <= bs[k].start
    ensures bs[k].start + HEADER + ALIGN_SIZE <= Next(bs, end, k) <= end
  {
    assert Room(bs, end, i) >= ALIGN_SIZE && Room(bs, end, k) >= ALIGN_SIZE;
    if i + 1 < k {
      StartsIncrease(bs, end, i + 1, k);
    }
    StartsIncreaseToEnd(bs, end, k);
    if k + 1 < |bs| {
      StartsIncreaseToEnd(bs, end, k + 1);
    }
  }

  /** Each operation touches one allocated block: malloc adds one with enough room, free removes the one it is given,
      and the split of realloc cuts it to size. All others stay where they are, as large as they were. */
  lemma TouchesOneBlock(bs: Blocks, end: nat, i: nat, size: nat)
    requires Tiled(bs, end) && i < |bs|
    ensures bs[i].used ==> Live(Freed(bs, i), end) == Live(bs, end) - {(bs[i].start, Room(bs, end, i))}
    ensures bs[i].used ==>
      Live(Shrunk(bs, i, size), end) == Live(bs, end) - {(bs[i].start, Room(bs, end, i))} + {(bs[i].start, size)}
    ensures !bs[i].used ==>
      Live(Allocated(bs, end, i, size), end) == Live(bs, end) + {(bs[i].start, TakenRoom(bs, end, i, size))}
    ensures !bs[i].used ==> forall room :: (bs[i].start, room) !in Live(bs, end)
  {
    SplitLive(bs, end, i, size);
    TiledIncreasing(bs, end);
    if bs[i].used {
      MarkedLive(bs, end, i, false);
      PluggedLive(bs[i := Block(bs[i].start, false)], end, i);
      PluggedLive(SplitAt(bs, i, size), end, i + 1);
    } else {
      MarkedLive(bs, end, i, true);
    }
  }

  datatype Header = Header(used: bool, next: nat, prev: nat)

  // The headers of an unused heap: its one block, and heap_end.
  function NewHeaders(memSize: nat): map<nat, Header> {
    map[0 := Header(false, memSize + HEADER, 0), memSize + HEADER := Header(true, memSize + HEADER, memSize + HEADER)]
  }

  // The headers in memory describe the blocks; the back link of heap_end is not kept up.
  ghost predicate HeadersMatch(header: map<nat, Header>, bs: Blocks, end: nat) {
    && end in header && header[end].used
    && forall i :: 0 <= i < |bs| ==> HeaderMatches(header, bs, end, i)
  }

  ghost predicate HeaderMatches(header: map<nat, Header>, bs: Blocks, end: nat, i: nat)
    requires i < |bs|
  {
    && bs[i].start in header
    && header[bs[i].start] == Header(bs[i].used, Next(bs, end, i), if i == 0 then 0 else bs[i - 1].start)
  }

  // The stores that merge a free successor into block i.
  function HeaderMerged(header: map<nat, Header>, mem: nat): map<nat, Header>
    requires mem in header && header[mem].next in header && header[header[mem].next].next in header
  {
    var last := header[header[mem].next].next;
    var joined := header[mem := header[mem].(next := last)];
    joined[last := joined[last].(prev := mem)]
  }

  lemma HeaderMergedMatches(header: map<nat, Header>, bs: Blocks, end: nat, i: nat)
    requires Tiled(bs, end) && HeadersMatch(header, bs, end) && i + 1 < |bs| && !bs[i + 1].used
    ensures bs[i].start in header && header[bs[i].start].next == bs[i + 1].start && bs[i + 1].start in header
    ensures header[bs[i + 1].start].next in header
    ensures HeadersMatch(HeaderMerged(header, bs[i].start), MergedForward(bs, i), end)
  {
    hide Tiled, Increasing, MergedForward, Next, HeaderMerged;
    TiledIncreasing(bs, end);
    assert HeaderMatches(header, bs, end, i) && HeaderMatches(header, bs, end, i + 1);
    assert Next(bs, end, i) == bs[i + 1].start by {
      NextIs(bs, end, i);
    }
    assert header[bs[i + 1].start].next in header by {
      NextIs(bs, end, i + 1);
      assert i + 2 < |bs| ==> HeaderMatches(header, bs, end, i + 2);
    }
    var merged, r := MergedForward(bs, i), HeaderMerged(header, bs[i].start);
    MergedIndex(bs, end, i, 0);
    MergedEnd(header, bs, end, i);
    forall k | 0 <= k < |merged| ensures HeaderMatches(r, merged, end, k) {
      MergedHeaderAt(header, bs, end, i, k);
    }
  }

  lemma NextIs(bs: Blocks, end: nat, i: nat)
    requires i < |bs|
    ensures Next(bs, end, i) == if i + 1 < |bs| then bs[i + 1].start else end
  {
  }

  lemma MergedEnd(header: map<nat, Header>, bs: Blocks, end: nat, i: nat)
    requires Increasing(bs, end) && end in header && header[end].used && i < |bs|
    requires bs[i].start in header && header[bs[i].start].next in header
    requires header[header[bs[i].start].next].next in header
    ensures var r := HeaderMerged(header, bs[i].start); end in r && r[end].used
  {
  }

  // The header of each block after a merge.
  lemma MergedHeaderAt(header: map<nat, Header>, bs: Blocks, end: nat, i: nat, k: nat)
    requires Increasing(bs, end) && HeadersMatch(header, bs, end) && i + 1 < |bs| && !bs[i + 1].used && k < |bs| - 1
    requires bs[i].start in header && header[bs[i].start].next in header
    requires header[header[bs[i].start].next].next in header
    ensures k < |MergedForward(bs, i)| && HeaderMatches(HeaderMerged(header, bs[i].start), MergedForward(bs, i), end, k)
  {
    hide MergedForward, Next, Increasing;
    var j := if k <= i then k else k + 1;
    assert HeaderMatches(header, bs, end, j) && HeaderMatches(header, bs, end, i)
      && HeaderMatches(header, bs, end, i + 1);
    hide HeadersMatch;
    MergedIndex(bs, end, i, k);
    NextIs(bs, end, i);
    NextIs(bs, end, i + 1);
    StartsApart(bs, end, j, i);
    if i + 2 < |bs| {
      StartsApart(bs, end, j, i + 2);
    } else {
      StartsApart(bs, end, j, j);
    }
  }

  lemma StartsApart(bs: Blocks, end: nat, j: nat, k: nat)
    requires Increasing(bs, end) && j < |bs| && k < |bs|
    ensures (bs[j].start == bs[k].start <==> j == k) && bs[j].start != end
  {
  }

  // What the headers of a block and its neighbours say about them.
  lemma Neighbours(header: map<nat, Header>, bs: Blocks, end: nat, i: nat)
    requires Tiled(bs, end) && HeadersMatch(header, bs, end) && i < |bs|
    ensures var mem := bs[i].start;
            && mem in header && header[mem].used == bs[i].used && header[mem].next in header
               && header[mem].prev in header
            && header[mem].next == Next(bs, end, i) && header[mem].next != mem && mem != end
            && (header[mem].next != end <==> i + 1 < |bs|)
               && (i + 1 < |bs| ==> header[header[mem].next].used == bs[i + 1].used)
            && (header[mem].prev != mem <==> i > 0)
            && (i > 0 ==> header[mem].prev == bs[i - 1].start && header[header[mem].prev].used == bs[i - 1].used)
  {
    TiledIncreasing(bs, end);
    assert HeaderMatches(header, bs, end, i);
    assert i > 0 ==> HeaderMatches(header, bs, end, i - 1);
    assert i + 1 < |bs| ==> HeaderMatches(header, bs, end, i + 1);
  }

  lemma MergeStep(header: map<nat, Header>, bs: Blocks, end: nat, i: nat)
    requires Tiled(bs, end) && HeadersMatch(header, bs, end) && i + 1 < |bs| && !bs[i].used && !bs[i + 1].used
    ensures Tiled(MergedForward(bs, i), end)
    ensures bs[i].start in header && header[bs[i].start].next in header
    ensures header[header[bs[i].start].next].next in header
    ensures HeadersMatch(HeaderMerged(header, bs[i].start), MergedForward(bs, i), end)
    ensures LowestFree(MergedForward(bs, i), end) == LowestFree(bs, end) < bs[i + 1].start
  {
    LowestFreeMerged(bs, end, i);
    MergedTiled(bs, end, i);
    HeaderMergedMatches(header, bs, end, i);
  }

  // The stores that split block i after `size` user bytes.
  function HeaderSplit(header: map<nat, Header>, mem: nat, size: nat, end: nat): map<nat, Header>
    requires mem in header && header[mem].next in header
  {
    var rest, last := mem + HEADER + size, header[mem].next;
    var joined := header[rest := Header(false, last, mem)][mem := Header(true, rest, header[mem].prev)];
    if last != end then joined[last := joined[last].(prev := rest)] else joined
  }

  lemma HeaderSplitMatches(header: map<nat, Header>, bs: Blocks, end: nat, i: nat, size: nat)
    requires Tiled(bs, end) && HeadersMatch(header, bs, end) && i < |bs| && size + HEADER < Room(bs, end, i)
    ensures bs[i].start in header && header[bs[i].start].next in header
    ensures HeadersMatch(HeaderSplit(header, bs[i].start, size, end), SplitAt(bs, i, size), end)
  {
    hide Tiled, Increasing, SplitAt, Next, HeaderSplit;
    TiledIncreasing(bs, end);
    assert HeaderMatches(header, bs, end, i);
    assert i + 1 < |bs| ==> HeaderMatches(header, bs, end, i + 1);
    NextIs(bs, end, i);
    SplitIndex(bs, end, i, size, i);
    SplitEnd(header, bs, end, i, size);
    var split, r := SplitAt(bs, i, size), HeaderSplit(header, bs[i].start, size, end);
    RestApart(bs, end, i, size);
    forall k | 0 <= k < |split| ensures HeaderMatches(r, split, end, k) {
      SplitHeaderAt(header, bs, end, i, size, k);
    }
  }

  // The header of the block split off lies inside the block.
  lemma RestApart(bs: Blocks, end: nat, i: nat, size: nat)
    requires Tiled(bs, end) && i < |bs| && size + HEADER < Room(bs, end, i)
    ensures var rest := bs[i].start + HEADER + size;
            rest < end && rest < Next(bs, end, i) && forall k :: 0 <= k < |bs| ==> bs[k].start != rest
  {
    TiledIncreasing(bs, end);
    if i + 1 < |bs| {
      StartsIncreaseToEnd(bs, end, i + 1);
    }
    forall k | 0 <= k < |bs| ensures bs[k].start != bs[i].start + HEADER + size {
      if k > i + 1 {
        StartsIncrease(bs, end, i + 1, k);
      }
    }
  }

  lemma SplitEnd(header: map<nat, Header>, bs: Blocks, end: nat, i: nat, size: nat)
    requires Tiled(bs, end) && i < |bs| && size + HEADER < Room(bs, end, i) && end in header && header[end].used
    requires bs[i].start in header && header[bs[i].start].next in header
    ensures var r := HeaderSplit(header, bs[i].start, size, end); end in r && r[end].used
  {
    RestApart(bs, end, i, size);
    StartsIncreaseToEnd(bs, end, i);
  }

  // The header of each block after a split.
  lemma SplitHeaderAt(header: map<nat, Header>, bs: Blocks, end: nat, i: nat, size: nat, k: nat)
    requires Increasing(bs, end) && HeadersMatch(header, bs, end) && i < |bs| && k <= |bs|
    requires bs[i].start in header && header[bs[i].start].next in header
    requires bs[i].start + HEADER + size != end
    requires forall j :: 0 <= j < |bs| ==> bs[j].start != bs[i].start + HEADER + size
    ensures k < |SplitAt(bs, i, size)|
    ensures HeaderMatches(HeaderSplit(header, bs[i].start, size, end), SplitAt(bs, i, size), end, k)
  {
    hide SplitAt, Next, Increasing;
    var j := if k <= i then k else k - 1;
    assert HeaderMatches(header, bs, end, j) && HeaderMatches(header, bs, end, i);
    hide HeadersMatch;
    SplitIndex(bs, end, i, size, k);
    if k > 0 {
      SplitIndex(bs, end, i, size, k - 1);
    }
    NextIs(bs, end, i);
    StartsApart(bs, end, j, i);
    if i + 1 < |bs| {
      StartsApart(bs, end, j, i + 1);
    } else {
      StartsApart(bs, end, j, j);
    }
  }

  lemma HeaderMarkedMatches(header: map<nat, Header>, bs: Blocks, end: nat, i: nat, used: bool)
    requires Tiled(bs, end) && HeadersMatch(header, bs, end) && i < |bs|
    ensures bs[i].start in header
    ensures HeadersMatch(header[bs[i].start := header[bs[i].start].(used := used)], bs[i := Block(bs[i].start, used)],
      end)
  {
    TiledIncreasing(bs, end);
    assert HeaderMatches(header, bs, end, i);
    var marked, r := bs[i := Block(bs[i].start, used)], header[bs[i].start := header[bs[i].start].(used := used)];
    forall k | 0 <= k < |bs| ensures HeaderMatches(r, marked, end, k) {
      assert HeaderMatches(header, bs, end, k);
    }
  }

  const NULL := -1

  class SmallMem {
    const memSize: nat
    const bytes: array<int>
    var header: map<nat, Header>
    var lfree: nat
    var usedMem: int
    var maxMem: int
    ghost var blocks: Blocks

    // The offset of heap_end.
    function End(): nat {
      memSize + HEADER
    }

    ghost predicate Valid()
      reads this
    {
      && memSize >= MIN_SIZE && bytes.Length == memSize + 2 * HEADER
      && Inv(blocks, End()) && HeadersMatch(header, blocks, End())
      && lfree == LowestFree(blocks, End())
      && usedMem == UsedMem(blocks, End()) <= maxMem
    }

    // One free block and the end of the heap. A heap without room for a minimal block is set up all the same.
    constructor (memSize: nat)
      requires memSize % ALIGN_SIZE == 0
      ensures this.memSize == memSize && blocks == [Block(0, false)] && (Valid() <==> memSize >= MIN_SIZE)
      ensures header == NewHeaders(memSize) && lfree == 0
    {
      this.memSize := memSize;
      bytes := new int[memSize + 2 * HEADER](i => 0);
      header := NewHeaders(memSize);
      lfree, usedMem, maxMem := 0, 0, 0;
      blocks := [Block(0, false)];
      new;
      if memSize >= MIN_SIZE {
        assert bytes.Length == memSize + 2 * HEADER;
        assert Inv(blocks, End());
        assert HeadersMatch(header, blocks, End());
        assert lfree == LowestFree(blocks, End());
        assert usedMem == UsedMem(blocks, End());
      }
    }

    // plug_holes. Its two updates of lfree are dead: a free block never absorbs the lowest free one.
    method PlugHoles(mem: nat, ghost i: nat)
      requires Tiled(blocks, End()) && HeadersMatch(header, blocks, End()) && lfree == LowestFree(blocks, End())
      requires i < |blocks| && blocks[i].start == mem && !blocks[i].used
      modifies this`header, this`lfree, this`blocks
      ensures blocks == Plugged(old(blocks), i)
      ensures Tiled(blocks, End()) && HeadersMatch(header, blocks, End()) && lfree == LowestFree(blocks, End())
    {
      hide Tiled, HeadersMatch, LowestFree, HeaderMerged;
      Neighbours(header, blocks, End(), i);
      var nmem := header[mem].next;
      if mem != nmem && !header[nmem].used && nmem != End() {
        MergeStep(header, blocks, End(), i);
        if lfree == nmem {
          assert false;
        }
        header := HeaderMerged(header, mem);
        blocks := MergedForward(blocks, i);
      }
      assert blocks == MergedForward(old(blocks), i);
      Neighbours(header, blocks, End(), i);
      var pmem := header[mem].prev;
      if pmem != mem && !header[pmem].used {
        MergeStep(header, blocks, End(), i - 1);
        if lfree == mem {
          assert false;
        }
        header := HeaderMerged(header, pmem);
        blocks := MergedForward(blocks, i - 1);
      }
    }

    // The header store that makes a block of the bytes from `rest` on overwrites what they held.
    method Split(mem: nat, size: nat, ghost i: nat)
      requires Tiled(blocks, End()) && HeadersMatch(header, blocks, End()) && bytes.Length == End() + HEADER
      requires i < |blocks| && blocks[i].start == mem && size + HEADER < Room(blocks, End(), i)
      modifies this`header, this`blocks, bytes
      ensures blocks == SplitAt(old(blocks), i, size) && HeadersMatch(header, blocks, End())
      ensures forall b :: 0 <= b < bytes.Length && !(mem + HEADER + size <= b < mem + 2 * HEADER + size) ==>
        bytes[b] == old(bytes[b])
    {
      HeaderSplitMatches(header, blocks, End(), i, size);
      TiledIncreasing(blocks, End());
      assert HeaderMatches(header, blocks, End(), i);
      var rest := mem + HEADER + size;
      var b := 0;
      while b < HEADER
        modifies bytes
        invariant 0 <= b <= HEADER
        invariant forall c :: 0 <= c < bytes.Length && !(rest <= c < rest + HEADER) ==> bytes[c] == old(bytes[c])
      {
        bytes[rest + b] := 0;
        b := b + 1;
      }
      header := HeaderSplit(header, mem, size, End());
      blocks := SplitAt(blocks, i, size);
    }

    // rt_free
    method Free(rmem: int, ghost i: nat)
      requires Valid()
      requires HEADER <= rmem < End() ==> i < |blocks| && blocks[i].used && blocks[i].start + HEADER == rmem
      requires 0 <= rmem < End() ==> HEADER <= rmem
      modifies this`header, this`lfree, this`usedMem, this`blocks
      ensures Valid()
      ensures blocks == if 0 <= rmem < End() then Freed(old(blocks), i) else old(blocks)
    {
      hide Tiled, Coalesced, HeadersMatch, LowestFree, UsedMem, Plugged;
      if rmem == NULL {
        return;
      }
      if rmem < 0 || rmem >= End() {
        return;
      }
      var mem := rmem - HEADER;
      FreedKeeps(blocks, End(), i);
      UsedMemAfter(blocks, End(), i, 0);
      LowestFreeMarked(blocks, End(), i);
      HeaderMarkedMatches(header, blocks, End(), i, false);
      Neighbours(header, blocks, End(), i);
      LeastRoom(blocks, End(), i);
      MarkedTiled(blocks, End(), i, false);
      header := header[mem := header[mem].(used := false)];
      if mem < lfree {
        lfree := mem;
      }
      usedMem := usedMem - (header[mem].next - mem);
      blocks := blocks[i := Block(mem, false)];
      PlugHoles(mem, i);
    }

    // The body of rt_malloc's scan for the block that fits.
    method Take(mem: nat, size: nat, ghost k: nat)
      requires Valid() && k < |blocks| && blocks[k].start == mem && !blocks[k].used
      requires size % ALIGN_SIZE == 0 && MIN_SIZE <= size <= Room(blocks, End(), k)
      modifies this, bytes
      ensures Valid() && blocks == Allocated(old(blocks), End(), k, size)
      ensures maxMem == if usedMem > old(maxMem) then usedMem else old(maxMem)
      ensures forall b :: 0 <= b < bytes.Length && !(mem + HEADER + size <= b < old(Next(blocks, End(), k))) ==>
        bytes[b] == old(bytes[b])
    {
      hide Tiled, Coalesced, HeadersMatch, LowestFree, UsedMem;
      AllocatedKeeps(blocks, End(), k, size);
      UsedMemAfter(blocks, End(), k, size);
      if mem != lfree {
        LowestFreeAllocated(blocks, End(), k, size);
      } else {
        LowestFreeIs(blocks, End(), k);
      }
      Neighbours(header, blocks, End(), k);
      HeaderMarkedMatches(header, blocks, End(), k, true);
      if header[mem].next - (mem + HEADER) >= size + HEADER + MIN_SIZE {
        Split(mem, size, k);
        usedMem := usedMem + (size + HEADER);
      } else {
        header := header[mem := header[mem].(used := true)];
        blocks := blocks[k := Block(mem, true)];
        usedMem := usedMem + (header[mem].next - mem);
      }
      if maxMem < usedMem {
        maxMem := usedMem;
      }
      if mem == lfree {
        AdvanceLowestFree(k);
      }
    }

    // The search for the next free block once the lowest one has been taken.
    method AdvanceLowestFree(ghost k: nat)
      requires Inv(blocks, End()) && HeadersMatch(header, blocks, End())
      requires k < |blocks| && lfree == blocks[k].start && forall j :: 0 <= j <= k ==> blocks[j].used
      modifies this`lfree
      ensures lfree == LowestFree(blocks, End())
    {
      Neighbours(header, blocks, End(), k);
      ghost var f := k;
      while header[lfree].used && lfree != End()
        invariant f <= |blocks| && lfree == Start(blocks[f..], End()) && lfree in header
        invariant forall j :: 0 <= j < f ==> blocks[j].used
        decreases |blocks| - f
      {
        Neighbours(header, blocks, End(), f);
        lfree := header[lfree].next;
        f := f + 1;
      }
      if f < |blocks| {
        Neighbours(header, blocks, End(), f);
      }
      FirstFreeUnique(blocks, f);
    }

    // What rt_malloc does: nothing if there is no room, and otherwise it takes the first block that fits.
    ghost predicate Malloced(was: Blocks, wasBytes: seq<int>, size: nat, rmem: int)
      reads this, bytes
    {
      var k := FirstFit(was, memSize, Rounded(size), 0);
      if size == 0 || AlignUp(size) > memSize || k == |was| then
        rmem == NULL && blocks == was && bytes[..] == wasBytes
      else
        && rmem == was[k].start + HEADER && blocks == Allocated(was, End(), k, Rounded(size))
           && |wasBytes| == bytes.Length
        && forall b :: 0 <= b < bytes.Length && !(rmem + Rounded(size) <= b < Next(was, End(), k)) ==>
           bytes[b] == wasBytes[b]
    }

    lemma NullTells(size: nat)
      requires Valid() && size > 0
      ensures AlignUp(size) > memSize || FirstFit(blocks, memSize, Rounded(size), 0) == |blocks| <==>
                Rounded(size) > memSize || Tight(blocks, memSize, Rounded(size))
    {
      hide Tiled, Coalesced, HeadersMatch, LowestFree, UsedMem, FirstFit, Tight;
      NullExactly(blocks, memSize, size);
    }

    // rt_malloc
    method Malloc(size: nat) returns (rmem: int)
      requires Valid()
      modifies this, bytes
      ensures Valid()
      ensures Malloced(old(blocks), old(bytes[..]), size, rmem)
      ensures maxMem == if usedMem > old(maxMem) then usedMem else old(maxMem)
      ensures size > 0 ==>
        (rmem == NULL <==> Rounded(size) > memSize || Tight(old(blocks), memSize, Rounded(size)))
    {
      hide Inv, HeadersMatch, LowestFree, UsedMem, Allocated, FirstFit, Tight;
      if size > 0 {
        NullTells(size);
      }
      if size == 0 {
        return NULL;
      }
      var want: nat := AlignUp(size);
      if want > memSize {
        return NULL;
      }
      if want < MIN_SIZE {
        want := MIN_SIZE;
      }
      var found, ptr;
      ghost var k;
      found, ptr, k := Scan(want);
      if found {
        Take(ptr, want, k);
        return ptr + HEADER;
      }
      return NULL;
    }

    // The scan of rt_malloc from the lowest free block: where the first block is that fits, if there is one.
    method Scan(want: nat) returns (found: bool, ptr: nat, ghost k: nat)
      requires Valid()
      ensures k == FirstFit(blocks, memSize, want, 0) && (found <==> FirstFit(blocks, memSize, want, 0) < |blocks|)
      ensures found ==>
        ptr == blocks[FirstFit(blocks, memSize, want, 0)].start && !blocks[k].used && want <= Room(blocks, End(), k)
    {
      hide Coalesced, HeadersMatch, UsedMem;
      found, ptr, k := false, lfree, FirstFree(blocks);
      while ptr < memSize - want
        invariant k <= |blocks| && ptr == Start(blocks[k..], End())
        invariant forall j :: 0 <= j < k ==> !Fits(blocks, memSize, want, j)
        decreases |blocks| - k
      {
        Neighbours(header, blocks, End(), k);
        if !header[ptr].used && header[ptr].next - (ptr + HEADER) >= want {
          FirstFitUnique(blocks, memSize, want, 0, k);
          found := true;
          return;
        }
        ptr := header[ptr].next;
        k := k + 1;
      }
      forall j: nat | k <= j < |blocks| ensures !Fits(blocks, memSize, want, j) {
        if k < j {
          StartsIncrease(blocks, End(), k, j);
        }
      }
      FirstFitUnique(blocks, memSize, want, 0, |blocks|);
      k := |blocks|;
    }

    // The caller's pointer: RT_NULL, a pointer outside the heap, or the user bytes of the used block i.
    ghost predicate Owned(rmem: int, i: nat)
      reads this
    {
      0 <= rmem < End() ==> i < |blocks| && blocks[i].used && rmem == blocks[i].start + HEADER
    }

    // rt_memcpy between two blocks
    method CopyBytes(dst: nat, src: nat, n: nat)
      requires dst + n <= bytes.Length && src + n <= bytes.Length && (dst + n <= src || src + n <= dst)
      modifies bytes
      ensures bytes[dst..dst + n] == old(bytes[src..src + n])
      ensures forall b :: 0 <= b < bytes.Length && !(dst <= b < dst + n) ==> bytes[b] == old(bytes[b])
    {
      var i := 0;
      while i < n
        invariant 0 <= i <= n
        invariant bytes[dst..dst + i] == old(bytes[src..src + i])
        invariant forall b :: 0 <= b < bytes.Length && !(dst <= b < dst + i) ==> bytes[b] == old(bytes[b])
      {
        bytes[dst + i] := bytes[src + i];
        i := i + 1;
      }
    }

    // Allocating the new block in rt_realloc and copying the old one's bytes into it.
    method MallocCopy(rmem: nat, size: nat, newsize: nat, ghost i: nat) returns (nmem: int)
      requires Valid() && i < |blocks| && blocks[i].used && rmem == blocks[i].start + HEADER
      requires size == Room(blocks, End(), i)
      requires newsize % ALIGN_SIZE == 0 && 0 < newsize <= memSize
      modifies this, bytes
      ensures Valid()
      ensures var was, k := old(blocks), FirstFit(old(blocks), memSize, Rounded(newsize), 0);
              if k == |was| then nmem == NULL && blocks == was && bytes[..] == old(bytes[..])
              else
                && nmem == was[k].start + HEADER && blocks == Allocated(was, End(), k, Rounded(newsize))
                && Copied(old(bytes[..]), bytes[..], rmem, nmem, if size < newsize then size
                     else newsize, Next(was, End(), k))
    {
      hide Valid, Inv, Tiled, Allocated, FirstFit, Fits, Copied, Rounded, AlignUp;
      ghost var was, k := blocks, FirstFit(blocks, memSize, Rounded(newsize), 0);
      ValidInv();
      RoundedIs(newsize);
      if k < |blocks| {
        FitsBlock(blocks, memSize, newsize, k);
        BlocksApart(blocks, End(), if i < k then i else k, if i < k then k else i);
      }
      nmem := Malloc(newsize);
      if nmem != NULL {
        MallocedConfined(was, old(bytes[..]), newsize, nmem, k);
        hide Malloced;
        CopyNew(nmem, rmem, if size < newsize then size else newsize, old(bytes[..]), Next(was, End(), k));
      }
    }

    // The copy, and what it leaves in terms of the bytes from before the allocation.
    method CopyNew(dst: nat, src: nat, n: nat, ghost was: seq<int>, ghost limit: nat)
      requires |was| == bytes.Length && dst + n <= limit <= bytes.Length && src + n <= bytes.Length
      requires src + n <= dst || limit <= src
      requires forall b :: 0 <= b < bytes.Length && !(dst <= b < limit) ==> bytes[..][b] == was[b]
      modifies bytes
      ensures Copied(was, bytes[..], src, dst, n, limit)
    {
      ghost var mid := bytes[..];
      CopyBytes(dst, src, n);
      assert bytes[..][dst..dst + n] == mid[src..src + n];
      CopiedAfter(was, mid, bytes[..], src, dst, n, limit);
    }

    // Where an allocation has left the bytes alone.
    lemma MallocedConfined(was: Blocks, wasBytes: seq<int>, size: nat, rmem: int, k: nat)
      requires Malloced(was, wasBytes, size, rmem) && rmem != NULL && k == FirstFit(was, memSize, Rounded(size), 0)
      ensures k < |was| && rmem == was[k].start + HEADER && blocks == Allocated(was, End(), k, Rounded(size))
      ensures |wasBytes| == bytes.Length
      ensures forall b :: 0 <= b < bytes.Length && !(rmem + Rounded(size) <= b < Next(was, End(), k)) ==>
        bytes[..][b] == wasBytes[b]
    {
    }

    // The path of rt_realloc that moves the block.
    method Move(rmem: nat, size: nat, newsize: nat, ghost i: nat) returns (nmem: int)
      requires Valid() && i < |blocks| && blocks[i].used && rmem == blocks[i].start + HEADER
      requires size == Room(blocks, End(), i)
      requires newsize % ALIGN_SIZE == 0 && 0 < newsize <= memSize
      modifies this, bytes
      ensures Valid() && Moved(old(blocks), old(bytes[..]), rmem, size, newsize, nmem)
    {
      hide Valid, Inv, Tiled, Allocated, Freed, Live, FirstFit, Fits, Copied, Rounded, Room, Next, TakenRoom;
      ghost var was, k, j: nat := blocks, FirstFit(blocks, memSize, Rounded(newsize), 0), 0;
      ValidInv();
      StartsIncreaseToEnd(was, End(), i);
      if k < |was| {
        FitsBlock(was, memSize, newsize, k);
        j := MoveLive(was, End(), k, Rounded(newsize), i);
      }
      nmem := MallocCopy(rmem, size, newsize, i);
      if nmem != NULL {
        Free(rmem, j);
      }
    }

    lemma ValidInv()
      requires Valid()
      ensures Inv(blocks, End()) && Tiled(blocks, End()) && bytes.Length == memSize + 2 * HEADER
    {
    }

    // The new block starts with the old one's bytes, the old one is no longer allocated, and nothing else has changed;
    // or no block fits and everything is as it was.
    ghost predicate Moved(was: Blocks, wasBytes: seq<int>, rmem: nat, size: nat, newsize: nat, nmem: int)
      reads this, bytes
    {
      var k := FirstFit(was, memSize, Rounded(newsize), 0);
      if k == |was| then nmem == NULL && blocks == was && bytes[..] == wasBytes
      else
        && nmem == was[k].start + HEADER
        && Live(blocks, End()) == Live(was, End()) - {(rmem - HEADER, size)}
           + {(nmem - HEADER, TakenRoom(was, End(), k, Rounded(newsize)))}
        && Copied(wasBytes, bytes[..], rmem, nmem, if size < newsize then size else newsize, Next(was, End(), k))
    }

    // rt_realloc's split of the tail of a block.
    method Shrink(rmem: nat, size: nat, newsize: nat, ghost i: nat)
      requires Valid() && i < |blocks| && blocks[i].used && rmem == blocks[i].start + HEADER
      requires size == Room(blocks, End(), i)
      requires newsize % ALIGN_SIZE == 0 && 0 < newsize && newsize + HEADER + MIN_SIZE < size
      modifies this, bytes
      ensures Valid() && blocks == Shrunk(old(blocks), i, newsize)
      ensures forall b :: 0 <= b < bytes.Length && !(rmem + newsize <= b < rmem + size) ==> bytes[b] == old(bytes[b])
    {
      hide Tiled, Coalesced, HeadersMatch, LowestFree, UsedMem, SplitAt, Plugged;
      ShrunkKeeps(blocks, End(), i, newsize);
      UsedMemAfter(blocks, End(), i, newsize);
      LowestFreeSplit(blocks, End(), i, newsize);
      SplitTiled(blocks, End(), i, newsize);
      SplitParts(blocks, i, newsize);
      usedMem := usedMem - (size - newsize);
      Split(rmem - HEADER, newsize, i);
      var rest := rmem + newsize;
      if rest < lfree {
        lfree := rest;
      }
      PlugHoles(rest, i + 1);
    }

    /** rt_realloc: whatever the path, the first bytes of the block survive, no other block's bytes change, and if no
        block is returned for a positive size everything is as it was. */
    method Realloc(rmem: int, newsize: nat, ghost i: nat) returns (r: int)
      requires Valid() && Owned(rmem, i) && (0 <= rmem < End() ==> HEADER <= rmem)
      modifies this, bytes
      ensures Valid()
      ensures var was, wasBytes, n := old(blocks), old(bytes[..]), AlignUp(newsize);
              if n > memSize then r == NULL && blocks == was && bytes[..] == wasBytes
              else if n == 0 then r == NULL && blocks == (if 0 <= rmem < End() then Freed(was, i) else was)
                && bytes[..] == wasBytes
              else if rmem == NULL then Malloced(was, wasBytes, n, r)
              else if rmem < 0 || rmem >= End() then r == rmem && blocks == was && bytes[..] == wasBytes
              else if n == Room(was, End(), i) then r == rmem && blocks == was && bytes[..] == wasBytes
              else if n + HEADER + MIN_SIZE < Room(was, End(), i) then r == rmem && blocks == Shrunk(was, i, n)
              else Moved(was, wasBytes, rmem, Room(was, End(), i), n, r)
      ensures 0 <= rmem < End() && AlignUp(newsize) > 0 ==>
        Resized(old(blocks), old(bytes[..]), rmem, i, AlignUp(newsize), r)
      ensures var was, n := old(blocks), AlignUp(newsize);
              0 <= rmem < End() && 0 < n && n != Room(was, End(), i) && n + HEADER + MIN_SIZE >= Room(was, End(), i) ==>
                (r == NULL <==> n > memSize || Tight(was, memSize, Rounded(n)))
    {
      hide Tiled, Coalesced, HeadersMatch, LowestFree, UsedMem, FirstFit, Allocated, Freed, Shrunk, Copied, Live,
        Malloced, Tight, Rounded;
      if 0 <= rmem < End() {
        LeastRoom(blocks, End(), i);
      }
      var n := AlignUp(newsize);
      if n > memSize {
        return NULL;
      } else if n == 0 {
        Free(rmem, i);
        return NULL;
      }
      if rmem == NULL {
        r := Malloc(n);
        return;
      }
      if rmem < 0 || rmem >= End() {
        return rmem;
      }
      var mem := rmem - HEADER;
      Neighbours(header, blocks, End(), i);
      var size := header[mem].next - mem - HEADER;
      if size == n {
        ConfinedIntact(blocks, End(), i, rmem, rmem, bytes[..], bytes[..], i);
        return rmem;
      }
      if n + HEADER + MIN_SIZE < size {
        Shrink(rmem, size, n, i);
        ConfinedIntact(old(blocks), End(), i, rmem + n, rmem + size, old(bytes[..]), bytes[..], i);
        hide Valid, Intact, Shrunk;
        return rmem;
      }
      NullTells(n);
      RoundedAligned(newsize, memSize);
      r := Move(rmem, size, n, i);
      MovedResized(old(blocks), old(bytes[..]), rmem, i, n, r);
      hide Valid, Moved, Resized;
    }

    // No other block's bytes have changed, and the first bytes of the block are those at r, or nothing has changed.
    ghost predicate Resized(was: Blocks, wasBytes: seq<int>, rmem: int, i: nat, n: nat, r: int)
      requires i < |was|
      reads this, bytes
    {
      && Intact(was, End(), wasBytes, bytes[..], i)
      && if r == NULL then blocks == was && bytes[..] == wasBytes
         else SamePrefix(wasBytes, bytes[..], rmem, r, Least(Room(was, End(), i), n))
    }

    lemma MovedResized(was: Blocks, wasBytes: seq<int>, rmem: nat, i: nat, n: nat, r: int)
      requires Tiled(was, End()) && i < |was| && was[i].used && bytes.Length == |wasBytes| >= End()
      requires Moved(was, wasBytes, rmem, Room(was, End(), i), n, r)
      ensures Resized(was, wasBytes, rmem, i, n, r)
    {
      var k := FirstFit(was, memSize, Rounded(n), 0);
      if k < |was| {
        ConfinedIntact(was, End(), k, r, Next(was, End(), k), wasBytes, bytes[..], i);
      }
    }
  }

  function Least(a: int, b: int): int {
    if a < b then a else b
  }

  // The bytes of every used block but the i-th are the same.
  ghost predicate Intact(bs: Blocks, end: nat, was: seq<int>, now: seq<int>, i: nat) {
    && |was| == |now| && end <= |was|
    && forall j, b :: 0 <= j < |bs| && j != i && bs[j].used && bs[j].start + HEADER <= b < Next(bs, end, j) <= |was| ==>
       now[b] == was[b]
  }

  ghost predicate SamePrefix(was: seq<int>, now: seq<int>, src: int, dst: int, n: int) {
    && |was| == |now| && 0 <= n && 0 <= src <= src + n <= |was| && 0 <= dst <= dst + n <= |was|
    && now[dst..dst + n] == was[src..src + n]
  }

  // The first n bytes at src are at dst too, and no byte outside dst and the limit differs.
  ghost predicate Copied(was: seq<int>, now: seq<int>, src: nat, dst: nat, n: nat, limit: nat) {
    && |was| == |now| && src + n <= |was| && dst + n <= limit <= |was|
    && now[dst..dst + n] == was[src..src + n]
    && forall b :: 0 <= b < |was| && !(dst <= b < limit) ==> now[b] == was[b]
  }

  // Changes inside one block, free or the i-th, leave the bytes of all other used blocks alone.
  lemma ConfinedIntact(bs: Blocks, end: nat, m: nat, lo: nat, hi: nat, was: seq<int>, now: seq<int>, i: nat)
    requires Tiled(bs, end) && m < |bs| && (m == i || !bs[m].used) && bs[m].start + HEADER <= lo
    requires hi <= Next(bs, end, m)
    requires |was| == |now| && end <= |was| && forall b :: 0 <= b < |was| && !(lo <= b < hi) ==> now[b] == was[b]
    ensures Intact(bs, end, was, now, i) && Next(bs, end, m) <= end
  {
    if m + 1 < |bs| {
      StartsIncreaseToEnd(bs, end, m + 1);
    }
    forall j, b | 0 <= j < |bs| && j != i && bs[j].used && bs[j].start + HEADER <= b < Next(bs, end, j) <= |was|
      ensures now[b] == was[b]
    {
      BlocksApart(bs, end, if j < m then j else m, if j < m then m else j);
    }
  }

  lemma CopiedAfter(was: seq<int>, mid: seq<int>, now: seq<int>, src: nat, dst: nat, n: nat, limit: nat)
    requires |was| == |mid| == |now| && src + n <= |was| && dst + n <= limit <= |was|
    requires src + n <= dst || limit <= src
    requires forall b :: 0 <= b < |was| && !(dst <= b < limit) ==> mid[b] == was[b]
    requires now[dst..dst + n] == mid[src..src + n]
    requires forall b :: 0 <= b < |was| && !(dst <= b < dst + n) ==> now[b] == mid[b]
    ensures Copied(was, now, src, dst, n, limit)
  {
  }

  // Where the scan of rt_malloc is after so many steps from the lowest free block of an unused heap.
  function Scanned(memSize: nat, steps: nat): (ptr: nat)
    ensures ptr in NewHeaders(memSize)
  {
    if steps == 0 then 0 else NewHeaders(memSize)[Scanned(memSize, steps - 1)].next
  }

  // The bound of that scan, mem_size_aligned - size in 64 bits.
  function ScanBound(memSize: nat, want: nat): nat {
    (memSize - want) % 0x1_0000_0000_0000_0000
  }

  /** In a heap that is too small for a minimal block the bound wraps, and the scan for a request that passes the tests
      before it neither ends nor finds a block, after any number of steps. */
  lemma {:induction false} ScanNeverEnds(memSize: nat, size: nat, steps: nat)
    requires memSize % ALIGN_SIZE == 0 && 0 < AlignUp(size) <= memSize < MIN_SIZE
    ensures var header, ptr := NewHeaders(memSize), Scanned(memSize, steps);
            && ptr < ScanBound(memSize, MIN_SIZE)
            && !(!header[ptr].used && header[ptr].next - (ptr + HEADER) >= MIN_SIZE)
    ensures steps > 0 ==> Scanned(memSize, steps) == memSize + HEADER
  {
    if steps > 0 {
      ScanNeverEnds(memSize, size, steps - 1);
    }
  }

  // RT_ALIGN_DOWN
  function AlignDown(n: nat): (r: nat)
    ensures r <= n < r + 8 && r % 8 == 0
  {
    n / 8 * 8
  }

  // rt_system_heap_init: no heap exactly if the aligned addresses leave no room for the two headers.
  method HeapInit(begin: nat, end: nat) returns (heap: SmallMem?)
    ensures heap == null <==> AlignDown(end) <= 2 * HEADER || AlignUp(begin) + 2 * HEADER > AlignDown(end)
    ensures heap != null ==>
      fresh(heap) && heap.memSize == AlignDown(end) - AlignUp(begin) - 2 * HEADER && heap.blocks == [Block(0, false)]
    ensures heap != null ==> (heap.Valid() <==> heap.memSize >= MIN_SIZE)
  {
    var beginAlign, endAlign := AlignUp(begin), AlignDown(end);
    if endAlign > 2 * HEADER && endAlign - 2 * HEADER >= beginAlign {
      heap := new SmallMem(endAlign - beginAlign - 2 * HEADER);
    } else {
      heap := null;
    }
  }
}
