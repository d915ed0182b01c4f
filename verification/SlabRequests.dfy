/** Which requests to the allocator of rt-smart/src/slab.c are answered as its comments promise, and which are not. */
module SlabRequests {
  import opened Common
  import Pages
  import opened SizeClass
  import opened Slab

  /** Chunks whose size is a power of two are aligned to it exactly if their zone is. */
  lemma ChunkAligned(z: nat, index: nat, k: nat)
    requires index < NZONES && PowerOfTwo(Size(index))
    ensures Size(index) > 0 && (ChunkAt(z, index, k) % Size(index) == 0 <==> z * 4096 % Size(index) == 0)
  {
    var size := Size(index);
    SizePositive(index);
    SizeMultiple(index);
    OffsetIs(size);
    hide Size, Offset, PowerOfTwo;
    AlignedSum(z * 4096, Offset(size), k, size);
  }

  lemma SizeMultiple(index: nat)
    requires index < NZONES
    ensures Size(index) % 8 == 0
  {
  }

  lemma AlignedSum(n: nat, offset: nat, k: nat, size: nat)
    requires size > 0 && offset % size == 0
    ensures (n + offset + k * size) % size == n % size
  {
    var m := offset / size;
    assert offset == m * size;
    AddMultiple(n, m, size);
    AddMultiple(n + offset, k, size);
  }

  lemma AddMultiple(n: nat, q: nat, size: nat)
    requires size > 0
    ensures (n + q * size) % size == n % size
  {
    var d := n / size;
    assert n + q * size == (d + q) * size + n % size;
    var e := (n + q * size) / size;
    assert n + q * size == e * size + (n + q * size) % size;
    if e > d + q {
      MultipleMonotone(d + q + 1, e, size);
    } else if e < d + q {
      MultipleMonotone(e + 1, d + q, size);
    }
  }

  lemma PowersUpTo(n: nat)
    requires PowerOfTwo(n) && n <= 16384
    ensures n in {1, 2, 4, 8, 16, 32, 64, 128, 256, 512, 1024, 2048, 4096, 8192, 16384}
  {
    if n > 1 {
      PowersUpTo(n / 2);
    }
  }

  /** So chunks of up to a page always are; larger ones are not in a zone at an odd page, as zones are only
      page-aligned. */
  lemma PageChunksAligned(z: nat, index: nat, k: nat)
    requires index < NZONES && PowerOfTwo(Size(index))
    ensures Size(index) > 0
    ensures Size(index) <= 4096 ==> ChunkAt(z, index, k) % Size(index) == 0
    ensures Size(index) > 4096 && z % 2 == 1 ==> ChunkAt(z, index, k) % Size(index) != 0
  {
    ChunkAligned(z, index, k);
    assert Size(index) <= 16384;
    PowersUpTo(Size(index));
    hide ChunkAt, Size, PowerOfTwo;
    Residues(z, Size(index));
  }

  lemma Residues(z: nat, size: nat)
    requires size in {1, 2, 4, 8, 16, 32, 64, 128, 256, 512, 1024, 2048, 4096, 8192, 16384}
    ensures size <= 4096 ==> z * 4096 % size == 0
    ensures size > 4096 && z % 2 == 1 ==> z * 4096 % size != 0
  {
    if size <= 4096 {
      var q :| q in {1, 2, 4, 8, 16, 32, 64, 128, 256, 512, 1024, 2048, 4096} && q * size == 4096;
      Multiples(z, q, size);
    }
  }

  lemma Multiples(z: nat, q: nat, size: nat)
    requires size > 0
    ensures z * (q * size) % size == 0
  {
    DivOfMultiple(z * q, size);
    assert z * (q * size) == z * q * size;
  }

  // Where the first run with enough pages starts.
  function FirstEnough(runs: seq<Pages.Run>, n: nat): (page: Option<nat>)
    ensures page.None? ==> forall i :: 0 <= i < |runs| ==> runs[i].size < n
    ensures page.Some? ==>
      exists i :: 0 <= i < |runs| && page == Some(runs[i].start) && runs[i].size >= n
        && forall j :: 0 <= j < i ==> runs[j].size < n
  {
    if runs == [] then None
    else if runs[0].size >= n then Some(runs[0].start)
    else FirstEnough(runs[1..], n)
  }

  lemma {:induction false} FirstEnoughIsUsed(runs: seq<Pages.Run>, n: nat)
    ensures Pages.Allocated(runs, n).1 == FirstEnough(runs, n)
  {
    if runs != [] {
      FirstEnoughIsUsed(runs[1..], n);
    }
  }

  // The page that the next request of this size is answered from: that of the first zone on the list of its index, or
  // of a retired zone, or the first of enough free ones.
  function PageUsed(s: State, size: nat): Option<nat>
    requires Inv(s) && size > 0
  {
    if size >= ZoneLimit(s.zoneSize) then FirstEnough(s.runs, RoundUp(size, 4096) / 4096)
    else
      RequestIsRoomy(s.zoneSize, size);
      var index := ZoneIndex(size).0;
      if s.lists[index] != [] then Some(s.lists[index][0])
      else if s.retired != [] then Some(s.retired[0])
      else FirstEnough(s.runs, ZonePages(s))
  }

  // What the answer is in terms of that page.
  lemma AnswerFrom(s: State, size: nat)
    requires Inv(s) && size > 0 && Malloc(s, size).1.Some?
    ensures PageUsed(s, size).Some?
    ensures var a, p := Malloc(s, size).1.value, PageUsed(s, size).value;
            if size >= ZoneLimit(s.zoneSize) then a == p * 4096
            else
              var index := ZoneIndex(size).0;
              0 <= index < NZONES && Size(index) == ZoneIndex(size).1 && exists k: nat :: a == ChunkAt(p, index, k)
  {
    hide ChunkAt, RoundUp, ZoneIndex, FirstEnough;
    FirstEnoughIsUsed(s.runs, RoundUp(size, 4096) / 4096);
    FirstEnoughIsUsed(s.runs, ZonePages(s));
    if size < ZoneLimit(s.zoneSize) {
      RequestIsRoomy(s.zoneSize, size);
      var index := ZoneIndex(size).0;
      var a, p := Malloc(s, size).1.value, PageUsed(s, size).value;
      if s.lists[index] != [] {
        assert p in s.lists[index];
        TakenChunk(p, s.zones[p], s.zoneSize);
      } else {
        assert a == ChunkAt(p, index, 0);
      }
    }
  }

  lemma TakenChunk(z: nat, zn: Zone, zoneSize: nat)
    requires ZoneInv(z, zn, zoneSize) && zn.nfree > 0
    ensures zn.index < NZONES && (zn.uindex + 1 == zn.nmax ==> zn.chunks != [])
    ensures exists k: nat :: TakeChunk(z, zn).1 == ChunkAt(z, zn.index, k)
  {
    hide ChunkAt;
    TakeChunkKeeps(z, zn, zoneSize);
    if zn.uindex + 1 == zn.nmax {
      assert zn.chunks[0] in zn.chunks;
      assert Chunk(z, zn.index, zn.uindex + 1, zn.chunks[0]);
    } else {
      assert TakeChunk(z, zn).1 == ChunkAt(z, zn.index, zn.uindex + 1);
    }
  }

  lemma PowerRequest(size: nat)
    requires PowerOfTwo(size) && size < 16384
    ensures ZoneIndex(size).1 == if size < 8 then 8 else size
  {
    PowersUpTo(size);
  }

  /** A request for a power of two is answered by an address aligned to it exactly if it is for at most a page, or the
      page that it is answered from is so aligned. */
  lemma MallocAligned(s: State, size: nat)
    requires Inv(s) && PowerOfTwo(size) && Malloc(s, size).1.Some?
    ensures size > 0 && PageUsed(s, size).Some?
    ensures Malloc(s, size).1.value % size == 0 <==> size <= 4096 || PageUsed(s, size).value * 4096 % size == 0
  {
    hide *;
    SizePowers(size);
    AnswerFrom(s, size);
    InvZoneSize(s);
    if size < ZoneLimit(s.zoneSize) {
      var p, index := PageUsed(s, size).value, ZoneIndex(size).0;
      var k: nat :| Malloc(s, size).1.value == ChunkAt(p, index, k);
      ChunkOfPower(p, index, k, size);
    }
  }

  lemma InvZoneSize(s: State)
    requires Inv(s)
    ensures ZoneSize(s.zoneSize) && 8192 <= ZoneLimit(s.zoneSize) <= 16384
  {
  }

  lemma SizePowers(size: nat)
    requires PowerOfTwo(size)
    ensures size > 0
  {
  }

  lemma ChunkOfPower(z: nat, index: nat, k: nat, size: nat)
    requires PowerOfTwo(size) && 0 < size < 16384 && index < NZONES && Size(index) == ZoneIndex(size).1
    ensures ChunkAt(z, index, k) % size == 0 <==> size <= 4096 || z * 4096 % size == 0
  {
    hide *;
    PowerRequest(size);
    if size < 8 {
      PowerEight();
      PageChunksAligned(z, index, k);
      SmallPowers(ChunkAt(z, index, k), size);
    } else {
      ChunkAligned(z, index, k);
      PageChunksAligned(z, index, k);
    }
  }

  lemma SmallPowers(a: nat, size: nat)
    requires PowerOfTwo(size) && size < 8 && a % 8 == 0
    ensures a % size == 0
  {
    hide PowerOfTwo;
    PowersUpTo(size);
    assert size in {1, 2, 4};
  }

  lemma PowerEight()
    ensures PowerOfTwo(8)
  {
    assert PowerOfTwo(2);
  }

  /** rt_realloc rounds a request before rt_malloc does so again: that is the same request exactly up to a bound, and
      one for pages beyond it. */
  lemma RoundedRequest(s: State, n: nat)
    requires Inv(s) && 1 <= n < ZoneLimit(s.zoneSize)
    ensures if n <= LargestRounded(s.zoneSize) then Malloc(s, ZoneIndex(n).1) == Malloc(s, n)
            else Malloc(s, ZoneIndex(n).1) == MallocLarge(s, ZoneLimit(s.zoneSize))
  {
    RoundedTwice(s.zoneSize, n);
    ZoneIndexFits(n);
    hide ZoneIndex, FromZone, FromNewZone, MallocLarge, Sound;
  }

  // A block of two pages that starts at an odd page.
  lemma LargeMisaligned()
    ensures var s := Initial(2, 10);
            && Inv(s) && Malloc(s, 8192).1 == Some(12288) && 12288 % 8192 != 0
            && 8192 >= ZoneLimit(s.zoneSize) && PageUsed(s, 8192) == Some(3)
  {
    InitialInv(2, 10);
    var s := Initial(2, 10);
    assert UsagePages(10) == 1;
    assert s.runs == [Pages.Run(3, 9)];
    assert RoundUp(8192, 4096) / 4096 == 2;
  }

  lemma Doubled(n: nat)
    requires PowerOfTwo(n)
    ensures PowerOfTwo(2 * n)
  {
  }

  lemma LargePowers()
    ensures PowerOfTwo(8192) && PowerOfTwo(16384)
  {
    hide PowerOfTwo;
    PowerEight();
    Doubled(8);
    Doubled(16);
    Doubled(32);
    Doubled(64);
    Doubled(128);
    Doubled(256);
    Doubled(512);
    Doubled(1024);
    Doubled(2048);
    Doubled(4096);
    Doubled(8192);
  }

  // The two classes of chunks larger than a page, in zones of 65536 bytes.
  lemma LargeIndexes()
    ensures ZoneIndex(8192) == (63, 8192) && ZoneIndex(16000) == (71, 16384) && ZoneLimit(65536) == 16384
    ensures Size(63) == 8192 && Size(71) == 16384
  {
  }

  lemma LargeOffsets()
    ensures Offset(8192) == 8192 && Offset(16384) == 16384
  {
    LargePowers();
    hide PowerOfTwo;
  }

  lemma LargeClasses()
    ensures ZoneIndex(8192) == (63, 8192) && ZoneIndex(16000) == (71, 16384) && ZoneLimit(65536) == 16384
    ensures Size(63) == 8192 == Offset(8192) && MaxChunks(65536, 8192) == 7
    ensures Size(71) == 16384 == Offset(16384) && MaxChunks(65536, 16384) == 3
  {
    LargeIndexes();
    LargeOffsets();
    hide Offset, ZoneIndex, ZoneLimit, Size;
  }

  lemma LargeChunk(z: nat, k: nat)
    ensures ChunkAt(z, 63, k) == z * 4096 + 8192 + k * 8192 && ChunkAt(z, 71, k) == z * 4096 + 16384 + k * 16384
  {
    LargeClasses();
    hide Size, Offset;
  }

  // A heap of 20000 pages, none of them used: zones have 16 pages, and the first will be at page 21.
  ghost predicate Unused20000(s: State) {
    && s.zoneSize == 65536 && s.runs == [Pages.Run(21, 19980)] && s.retired == [] && s.zones == map[]
    && |s.lists| == NZONES && forall i :: 0 <= i < NZONES ==> s.lists[i] == []
  }

  lemma Heap20000()
    ensures Inv(Initial(1, 20000)) && Unused20000(Initial(1, 20000))
  {
    InitialInv(1, 20000);
    assert UsagePages(20000) == 20;
  }

  // A request that needs a new zone.
  lemma FromNewPages(s: State, size: nat)
    requires Inv(s) && 1 <= size < ZoneLimit(s.zoneSize) && s.retired == []
    requires Pages.Allocated(s.runs, ZonePages(s)).1.Some?
    requires 0 <= ZoneIndex(size).0 < |s.lists| && s.lists[ZoneIndex(size).0] == []
    ensures var index, z, s' := ZoneIndex(size).0, Pages.Allocated(s.runs, ZonePages(s)).1.value, Malloc(s, size).0;
            && Inv(s') && index < NZONES && Size(index) > 0 && MaxChunks(s.zoneSize, Size(index)) >= 3
            && PageUsed(s, size) == Some(z) && Malloc(s, size).1 == Some(ChunkAt(z, index, 0))
            && s'.zones == s.zones[z := NewZone(z, index, s.zoneSize)] && s'.lists == s.lists[index := [z]]
            && s'.retired == [] && s'.zoneSize == s.zoneSize && s'.runs == Pages.Allocated(s.runs, ZonePages(s)).0
  {
    hide Inv, ChunkAt, ZoneIndex, Offset, MarkSmall, NewZone, Pages.Allocated, Size, FirstEnough, MaxChunks;
    InvParts(s);
    MallocKeeps(s, size);
    RequestIsRoomy(s.zoneSize, size);
    FirstEnoughIsUsed(s.runs, ZonePages(s));
    var z := Pages.Allocated(s.runs, ZonePages(s)).1.value;
    assert [z] + [] == [z];
  }

  // A request that is answered from the first zone on its list.
  lemma FromListed(s: State, size: nat)
    requires Inv(s) && 1 <= size < ZoneLimit(s.zoneSize)
    requires 0 <= ZoneIndex(size).0 < |s.lists| && s.lists[ZoneIndex(size).0] != []
    ensures var index := ZoneIndex(size).0;
            var z, s' := s.lists[index][0], Malloc(s, size).0;
            && Inv(s') && z in s.zones && s.zones[z].index < NZONES && s.zones[z].nfree > 0
            && (s.zones[z].uindex + 1 == s.zones[z].nmax ==> s.zones[z].chunks != [])
            && var (zn, a) := TakeChunk(z, s.zones[z]);
               && PageUsed(s, size) == Some(z) && Malloc(s, size).1 == Some(a)
               && s'.zones == s.zones[z := zn] && s'.retired == s.retired && s'.zoneSize == s.zoneSize
                  && s'.runs == s.runs
               && s'.lists == if zn.nfree == 0 then s.lists[index := s.lists[index][1..]] else s.lists
  {
    MallocKeeps(s, size);
    RequestIsRoomy(s.zoneSize, size);
    var z := s.lists[ZoneIndex(size).0][0];
    assert z in s.lists[ZoneIndex(size).0];
    TakeChunkKeeps(z, s.zones[z], s.zoneSize);
    hide Inv, ChunkAt, ZoneIndex, Offset, TakeChunk, Size;
  }

  lemma FirstFitAt(page: nat, pages: nat)
    requires pages > 16
    ensures Pages.Allocated([Pages.Run(page, pages)], 16).1 == Some(page)
    ensures Pages.Allocated([Pages.Run(page, pages)], 16).0 == [Pages.Run(page + 16, pages - 16)]
  {
  }

  lemma LargeZone(z: nat)
    ensures Size(63) == 8192 && MaxChunks(65536, 8192) == 7
    ensures NewZone(z, 63, 65536) == Zone(63, 7, 6, 0, [], {z * 4096 + 8192})
    ensures Size(71) == 16384 && MaxChunks(65536, 16384) == 3
    ensures NewZone(z, 71, 65536) == Zone(71, 3, 2, 0, [], {z * 4096 + 16384})
  {
    hide ChunkAt, Size, MaxChunks, Offset, ChunkSize;
    LargeClasses();
    LargeChunk(z, 0);
  }

  // The first chunk of 8192 bytes comes from a new zone at page 21.
  lemma NewZoneMisaligned(s: State)
    requires Inv(s) && Unused20000(s)
    ensures PageUsed(s, 8192) == Some(21) && Malloc(s, 8192).1 == Some(94208) && 94208 % 8192 != 0
    ensures var s1 := Malloc(s, 8192).0; Inv(s1) && s1.zoneSize == 65536 && OneZone(s1)
  {
    hide Inv, Malloc, ChunkAt, ZoneIndex, NewZone, MaxChunks, Size, Offset, Pages.Allocated, PageUsed, ZoneLimit,
      ChunkSize;
    LargeClasses();
    LargeChunk(21, 0);
    LargeZone(21);
    FirstFitAt(21, 19980);
    assert ZonePages(s) == 16;
    FromNewPages(s, 8192);
  }

  ghost predicate OneZone(s: State) {
    |s.lists| == NZONES && s.lists[63] == [21] && 21 in s.zones && s.zones[21] == Zone(63, 7, 6, 0, [], {94208})
  }

  // The second comes from the same zone, which then is on the list of its index.
  lemma ListedMisaligned(s: State)
    requires Inv(s) && s.zoneSize == 65536 && OneZone(s)
    ensures PageUsed(s, 8192) == Some(21) && Malloc(s, 8192).1 == Some(102400) && 102400 % 8192 != 0
  {
    hide Inv, Malloc, ChunkAt, ZoneIndex, MaxChunks, Size, Offset, Pages.Allocated, PageUsed, ZoneLimit, ChunkSize;
    LargeClasses();
    LargeChunk(21, 1);
    FromListed(s, 8192);
  }

  /** Both are reached from an unused heap of 20000 pages. */
  lemma ChunksMisaligned()
    ensures var s := Initial(1, 20000);
            Inv(s) && PageUsed(s, 8192) == Some(21) && Malloc(s, 8192).1 == Some(94208) && 94208 % 8192 != 0
    ensures var s := Initial(1, 20000);
            Inv(s) && var s1 := Malloc(s, 8192).0;
                      Inv(s1) && PageUsed(s1, 8192) == Some(21) && Malloc(s1, 8192).1 == Some(102400)
                        && 102400 % 8192 != 0
  {
    hide *;
    Heap20000();
    NewZoneMisaligned(Initial(1, 20000));
    ListedMisaligned(Malloc(Initial(1, 20000), 8192).0);
  }

  // Zones for requests of 16000 bytes, the list of their index, the retired zones, and the first free page.
  ghost predicate Shape(s: State, zones: map<nat, Zone>, list: seq<nat>, retired: seq<nat>, page: nat) {
    && s.zoneSize == 65536 && s.zones == zones && |s.lists| == NZONES && s.lists[71] == list && s.lists[63] == []
    && s.retired == retired && page < 100 && s.runs == [Pages.Run(page, 20001 - page)]
  }

  lemma MallocInNewZone(s: State, zones: map<nat, Zone>, page: nat)
    requires Inv(s) && Shape(s, zones, [], [], page) && page < 80
    ensures var s' := Malloc(s, 16000).0;
            && Inv(s') && Malloc(s, 16000).1 == Some(page * 4096 + 16384)
            && Shape(s', zones[page := Zone(71, 3, 2, 0, [], {page * 4096 + 16384})], [page], [], page + 16)
  {
    hide Inv, Malloc, ChunkAt, ZoneIndex, NewZone, MaxChunks, Size, Offset, Pages.Allocated, PageUsed, ZoneLimit,
      ChunkSize;
    LargeClasses();
    LargeChunk(page, 0);
    LargeZone(page);
    FirstFitAt(page, 20001 - page);
    assert ZonePages(s) == 16;
    FromNewPages(s, 16000);
  }

  lemma MallocInListed(s: State, zones: map<nat, Zone>, z: nat, page: nat)
    requires Inv(s) && Shape(s, zones, [z], [], page) && z in zones
    requires zones[z].index == 71 && zones[z].nmax == 3 && 0 < zones[z].nfree && zones[z].uindex < 2
    ensures var zn, a := zones[z], z * 4096 + 16384 + (zones[z].uindex + 1) * 16384;
            && Inv(Malloc(s, 16000).0) && Malloc(s, 16000).1 == Some(a)
            && Shape(Malloc(s, 16000).0, zones[z := Zone(71, 3, zn.nfree - 1, zn.uindex + 1, zn.chunks, zn.live + {a})],
                     if zn.nfree == 1 then [] else [z], [], page)
  {
    hide Inv, Malloc, ChunkAt, ZoneIndex, MaxChunks, Size, Offset, Pages.Allocated, PageUsed, ZoneLimit, ChunkSize;
    LargeClasses();
    LargeChunk(z, zones[z].uindex + 1);
    FromListed(s, 16000);
    assert [z][1..] == [];
  }

  // A free of a live chunk goes to its zone.
  lemma FreeIsChunk(s: State, z: nat, a: nat)
    requires Inv(s) && z in s.zones && a in s.zones[z].live
    ensures IsBlock(s, a, Size(s.zones[z].index)) && |s.lists| == NZONES && s.zones[z].index < NZONES
    ensures Inv(FreeBlock(s, a)) && FreeBlock(s, a) == FreeChunk(s, z, a)
  {
    hide Inv, Sound, FreeChunk, Size, PagesOk, OwnersOk, ZonesOk, ListsOk, UsageOk;
    InvSound(s);
    SoundParts(s);
    LiveInside(s, z, a);
    var len := Size(s.zones[z].index);
    assert OwnedBy(s, a, len, z);
    BlockUsage(s, a, len);
    FreeKeeps(s, a);
    BlockFreeable(s, a);
    if s.usage[a / 4096].Large? {
      OneOwner(s, a, len, z, s.large[a / 4096] * 4096, a / 4096);
    } else {
      var y := a / 4096 - s.usage[a / 4096].page;
      OneOwner(s, a, len, z, Size(s.zones[y].index), y);
    }
  }

  lemma FreeExhausted(s: State, zones: map<nat, Zone>, list: seq<nat>, z: nat, a: nat, page: nat)
    requires Inv(s) && Shape(s, zones, list, [], page) && z in zones && a in zones[z].live
    requires zones[z].index == 71 && zones[z].nfree == 0 && zones[z].nmax == 3
    ensures var zn := zones[z];
            && IsBlock(s, a, 16384) && Inv(FreeBlock(s, a))
            && Shape(FreeBlock(s, a), zones[z := Zone(71, 3, 1, zn.uindex, [a] + zn.chunks, zn.live - {a})], [z] + list,
                 [], page)
  {
    hide Inv, FreeBlock, IsBlock, Size;
    FreeIsChunk(s, z, a);
    LargeIndexes();
  }

  lemma FreeAndRetire(s: State, zones: map<nat, Zone>, y: nat, z: nat, a: nat, page: nat)
    requires Inv(s) && Shape(s, zones, [y, z], [], page) && z in zones && y != z && a in zones[z].live
    requires zones[z].index == 71 && zones[z].nfree == 2 && zones[z].nmax == 3
    ensures IsBlock(s, a, 16384) && Inv(FreeBlock(s, a)) && Shape(FreeBlock(s, a), zones - {z}, [y], [z], page)
  {
    hide Inv, FreeBlock, IsBlock, Size;
    FreeIsChunk(s, z, a);
    LargeIndexes();
    WithoutSecond(y, z);
    hide Without;
  }

  lemma WithoutSecond(y: nat, z: nat)
    requires y != z
    ensures Without([y, z], z) == [y]
  {
    WithoutAt([y, z], z, 1);
  }

  // A retired zone at an odd page answers the next request that needs a zone.
  lemma MallocInRetired(s: State, zones: map<nat, Zone>, list: seq<nat>, z: nat, page: nat)
    requires Inv(s) && Shape(s, zones, list, [z], page)
    ensures PageUsed(s, 8192) == Some(z) && Malloc(s, 8192).1 == Some(z * 4096 + 8192)
  {
    hide Inv, ChunkAt, ZoneIndex, NewZone, MaxChunks, Size, Offset, Pages.Allocated, ZoneLimit, ChunkSize, FromZone;
    LargeClasses();
    LargeChunk(z, 0);
  }

  lemma HistoryFirst(s: State, step: Step, steps: seq<Step>)
    requires Inv(s) && Enabled(s, step) && Inv(Apply(s, step)) && History(Apply(s, step), steps)
    ensures History(s, [step] + steps) && After(s, [step] + steps) == After(Apply(s, step), steps)
  {
    hide Inv, Enabled, Apply;
    assert ([step] + steps)[1..] == steps;
  }

  lemma MallocFirst(s: State, size: nat, steps: seq<Step>)
    requires Inv(s) && Inv(Malloc(s, size).0) && History(Malloc(s, size).0, steps)
    ensures History(s, [MallocStep(size)] + steps)
    ensures After(s, [MallocStep(size)] + steps) == After(Malloc(s, size).0, steps)
  {
    hide Inv, Malloc;
    assert Apply(s, MallocStep(size)) == Malloc(s, size).0;
    HistoryFirst(s, MallocStep(size), steps);
  }

  lemma FreeFirst(s: State, a: nat, len: nat, steps: seq<Step>)
    requires Inv(s) && IsBlock(s, a, len) && Inv(FreeBlock(s, a)) && History(FreeBlock(s, a), steps)
    ensures History(s, [FreeStep(a)] + steps) && After(s, [FreeStep(a)] + steps) == After(FreeBlock(s, a), steps)
  {
    hide Inv, FreeBlock, IsBlock;
    assert Apply(s, FreeStep(a)) == FreeBlock(s, a);
    HistoryFirst(s, FreeStep(a), steps);
  }

  lemma NoSteps(s: State)
    requires Inv(s)
    ensures History(s, []) && After(s, []) == s
  {
  }

  // Two zones: three blocks fill the first, the fourth opens the second.
  lemma FourBlocks(s: State)
    requires Inv(s) && Shape(s, map[], [], [], 21)
    ensures var s1 := Malloc(s, 16000).0;
            && Inv(s1) && var s2 := Malloc(s1, 16000).0;
            && Inv(s2) && var s3 := Malloc(s2, 16000).0;
            && Inv(s3) && var s4 := Malloc(s3, 16000).0;
               Inv(s4) && Shape(s4,
                 map[21 := Zone(71, 3, 0, 2, [], {102400, 118784, 135168}), 37 := Zone(71, 3, 2, 0, [], {167936})],
                   [37], [], 53)
  {
    hide Inv, Malloc, Shape;
    var z1 := map[21 := Zone(71, 3, 2, 0, [], {102400})];
    var z2 := map[21 := Zone(71, 3, 1, 1, [], {102400, 118784})];
    var z3 := map[21 := Zone(71, 3, 0, 2, [], {102400, 118784, 135168})];
    MallocInNewZone(s, map[], 21);
    assert map[][21 := Zone(71, 3, 2, 0, [], {102400})] == z1;
    var s1 := Malloc(s, 16000).0;
    MallocInListed(s1, z1, 21, 37);
    assert {102400} + {118784} == {102400, 118784};
    assert z1[21 := Zone(71, 3, 1, 1, [], {102400} + {118784})] == z2;
    var s2 := Malloc(s1, 16000).0;
    MallocInListed(s2, z2, 21, 37);
    assert {102400, 118784} + {135168} == {102400, 118784, 135168};
    assert z2[21 := Zone(71, 3, 0, 2, [], {102400, 118784} + {135168})] == z3;
    var s3 := Malloc(s2, 16000).0;
    MallocInNewZone(s3, z3, 37);
    assert z3[37 := Zone(71, 3, 2, 0, [], {167936})] ==
           map[21 := Zone(71, 3, 0, 2, [], {102400, 118784, 135168}), 37 := Zone(71, 3, 2, 0, [], {167936})];
  }

  // A free in the first zone puts it on the list, so that one that empties the second retires that.
  lemma TwoFrees(s: State)
    requires Inv(s)
    requires Shape(s, map[21 := Zone(71, 3, 0, 2, [], {102400, 118784, 135168}), 37 := Zone(71, 3, 2, 0, [], {167936})],
      [37], [], 53)
    ensures IsBlock(s, 102400, 16384) && Inv(FreeBlock(s, 102400))
    ensures var s5 := FreeBlock(s, 102400);
            && IsBlock(s5, 167936, 16384) && Inv(FreeBlock(s5, 167936))
            && var s6 := FreeBlock(s5, 167936); Shape(s6, s6.zones, [21], [37], 53)
  {
    hide Inv, FreeBlock, IsBlock, Shape;
    var zones := map[21 := Zone(71, 3, 0, 2, [], {102400, 118784, 135168}), 37 := Zone(71, 3, 2, 0, [], {167936})];
    FreeExhausted(s, zones, [37], 21, 102400, 53);
    var s5, z5 := FreeBlock(s, 102400),
      zones[21 := Zone(71, 3, 1, 2, [102400] + [], {102400, 118784, 135168} - {102400})];
    assert [21] + [37] == [21, 37];
    assert z5[37] == Zone(71, 3, 2, 0, [], {167936});
    FreeAndRetire(s5, z5, 21, 37, 167936, 53);
    ShapeZones(FreeBlock(s5, 167936), z5 - {37}, [21], [37], 53);
  }

  lemma ShapeZones(s: State, zones: map<nat, Zone>, list: seq<nat>, retired: seq<nat>, page: nat)
    requires Shape(s, zones, list, retired, page)
    ensures s.zones == zones
  {
  }

  /** After four blocks of 16000 bytes, with one of the first zone and then that of the second freed, a chunk of 8192
      bytes comes from the second zone, which was retired. */
  lemma RetiredMisaligned() returns (steps: seq<Step>)
    ensures Inv(Initial(1, 20000)) && History(Initial(1, 20000), steps)
    ensures var s := After(Initial(1, 20000), steps);
            Inv(s) && PageUsed(s, 8192) == Some(37) && s.retired == [37] && Malloc(s, 8192).1 == Some(159744)
              && 159744 % 8192 != 0
  {
    hide *;
    Heap20000();
    var s := Initial(1, 20000);
    UnusedShape(s);
    FourBlocks(s);
    var s1 := Malloc(s, 16000).0;
    var s2 := Malloc(s1, 16000).0;
    var s3 := Malloc(s2, 16000).0;
    var s4 := Malloc(s3, 16000).0;
    TwoFrees(s4);
    var s5 := FreeBlock(s4, 102400);
    var s6 := FreeBlock(s5, 167936);
    MallocInRetired(s6, s6.zones, [21], 37, 53);
    ShapeRetired(s6, s6.zones, [21], [37], 53);
    NoSteps(s6);
    FreeFirst(s5, 167936, 16384, []);
    steps := [FreeStep(167936)] + [];
    FreeFirst(s4, 102400, 16384, steps);
    steps := [FreeStep(102400)] + steps;
    MallocFirst(s3, 16000, steps);
    steps := [MallocStep(16000)] + steps;
    MallocFirst(s2, 16000, steps);
    steps := [MallocStep(16000)] + steps;
    MallocFirst(s1, 16000, steps);
    steps := [MallocStep(16000)] + steps;
    MallocFirst(s, 16000, steps);
    steps := [MallocStep(16000)] + steps;
  }

  lemma ShapeRetired(s: State, zones: map<nat, Zone>, list: seq<nat>, retired: seq<nat>, page: nat)
    requires Shape(s, zones, list, retired, page)
    ensures s.retired == retired
  {
  }

  lemma UnusedShape(s: State)
    requires Unused20000(s)
    ensures Shape(s, map[], [], [], 21)
  {
  }
}
