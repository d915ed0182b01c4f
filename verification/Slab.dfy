/** The allocator of rt-smart/src/slab.c: zones of equal chunks for small requests, whole pages for large ones. */
module Slab {
  import opened Common
  import opened Pages
  import opened SizeClass

  const RELEASE_THRESH := 2

  // A page's entry in `memusage`: the number of the page within its zone, or the pages of a large block.
  datatype Usage = Unused | Small(page: nat) | Large(pages: nat)

  // `chunks` are the addresses on z_freechunk. `live` are those handed out and not freed since.
  datatype Zone = Zone(index: nat, nmax: nat, nfree: nat, uindex: nat, chunks: seq<nat>, live: set<nat>)

  // Zones are known by the number of their first page. `lists` holds the lists of zone_array, and `retired` that of
  // zone_free. `spans` are all pages taken from the page allocator, and `large` those of large blocks.
  datatype State = State(zoneSize: nat, runs: seq<Run>, spans: map<nat, nat>, zones: map<nat, Zone>,
                         lists: seq<seq<nat>>, retired: seq<nat>, large: map<nat, nat>, usage: map<nat, Usage>)

  function Size(index: nat): (size: nat)
    ensures size == ChunkSize(index) || index >= NZONES
  {
    if index < NZONES then ChunkSize(index) else 8
  }

  // The address of chunk k of the zone that starts at page z.
  function ChunkAt(z: nat, index: nat, k: nat): nat
    requires index < NZONES
  {
    assert Size(index) > 0;
    z * 4096 + Offset(Size(index)) + k * Size(index)
  }

  ghost predicate Chunk(z: nat, index: nat, n: nat, a: nat)
    requires index < NZONES
  {
    exists k: nat :: k < n && a == ChunkAt(z, index, k)
  }

  // A zone of this index can be made.
  ghost predicate Roomy(zoneSize: nat, index: nat) {
    && index < NZONES && Size(index) > 0 && MaxChunks(zoneSize, Size(index)) >= 3
    && Offset(Size(index)) + MaxChunks(zoneSize, Size(index)) * Size(index) <= zoneSize
  }

  ghost predicate ZoneInv(z: nat, zn: Zone, zoneSize: nat) {
    && Roomy(zoneSize, zn.index) && zn.nmax == MaxChunks(zoneSize, Size(zn.index))
    && zn.uindex < zn.nmax && zn.nfree == zn.nmax - 1 - zn.uindex + |zn.chunks|
    && Distinct(zn.chunks) && |zn.chunks| + |zn.live| == zn.uindex + 1
    && (forall a :: a in zn.chunks ==> a !in zn.live && Chunk(z, zn.index, zn.uindex + 1, a))
    && (forall a :: a in zn.live ==> Chunk(z, zn.index, zn.uindex + 1, a))
  }

  lemma ChunksApart(z: nat, index: nat, i: nat, j: nat)
    requires index < NZONES && i < j
    ensures ChunkAt(z, index, i) + Size(index) <= ChunkAt(z, index, j)
  {
    hide Size, Offset;
    MultipleMonotone(i + 1, j, Size(index));
  }

  lemma ChunkInside(z: nat, index: nat, k: nat, zoneSize: nat)
    requires Roomy(zoneSize, index) && k < MaxChunks(zoneSize, Size(index))
    ensures z * 4096 <= ChunkAt(z, index, k) && ChunkAt(z, index, k) + Size(index) <= z * 4096 + zoneSize
  {
    hide Size, Offset, MaxChunks;
    MultipleBelow(k, MaxChunks(zoneSize, Size(index)), Size(index));
  }

  lemma MultipleBelow(k: nat, m: nat, size: nat)
    requires k < m
    ensures k * size + size <= m * size
  {
    MultipleMonotone(k + 1, m, size);
  }

  // One allocation from a zone that has a free chunk: one never used before while there is any.
  function TakeChunk(z: nat, zn: Zone): (Zone, nat)
    requires zn.index < NZONES && zn.nfree > 0 && (zn.uindex + 1 == zn.nmax ==> zn.chunks != [])
  {
    if zn.uindex + 1 != zn.nmax then
      var a := ChunkAt(z, zn.index, zn.uindex + 1);
      (zn.(nfree := zn.nfree - 1, uindex := zn.uindex + 1, live := zn.live + {a}), a)
    else
      (zn.(nfree := zn.nfree - 1, chunks := zn.chunks[1..], live := zn.live + {zn.chunks[0]}), zn.chunks[0])
  }

  function GiveChunk(zn: Zone, a: nat): Zone {
    zn.(nfree := zn.nfree + 1, chunks := [a] + zn.chunks, live := zn.live - {a})
  }

  function NewZone(z: nat, index: nat, zoneSize: nat): Zone
    requires index < NZONES && Size(index) > 0 && MaxChunks(zoneSize, Size(index)) >= 3
  {
    var nmax := MaxChunks(zoneSize, Size(index));
    Zone(index, nmax, nmax - 1, 0, [], {ChunkAt(z, index, 0)})
  }

  lemma NextChunkIsNew(z: nat, index: nat, n: nat)
    requires index < NZONES
    ensures Chunk(z, index, n + 1, ChunkAt(z, index, n)) && !Chunk(z, index, n, ChunkAt(z, index, n))
    ensures forall b :: Chunk(z, index, n, b) ==> Chunk(z, index, n + 1, b)
  {
    hide ChunkAt;
    SizePositive(index);
    if Chunk(z, index, n, ChunkAt(z, index, n)) {
      var k: nat :| k < n && ChunkAt(z, index, n) == ChunkAt(z, index, k);
      ChunksApart(z, index, k, n);
    }
  }

  lemma FreshTaken(z: nat, zn: Zone, zoneSize: nat, a: nat)
    requires ZoneInv(z, zn, zoneSize) && zn.uindex + 1 != zn.nmax && a == ChunkAt(z, zn.index, zn.uindex + 1)
    ensures a !in zn.live && zn.nfree > 0
    ensures ZoneInv(z, zn.(nfree := zn.nfree - 1, uindex := zn.uindex + 1, live := zn.live + {a}), zoneSize)
  {
    NextChunkIsNew(z, zn.index, zn.uindex + 1);
    hide ChunkAt, Chunk, Roomy, Size, MaxChunks;
    assert a !in zn.live && a !in zn.chunks;
    var after := zn.(nfree := zn.nfree - 1, uindex := zn.uindex + 1, live := zn.live + {a});
    assert |after.live| == |zn.live| + 1;
  }

  lemma ListedTaken(z: nat, zn: Zone, zoneSize: nat)
    requires ZoneInv(z, zn, zoneSize) && zn.chunks != []
    ensures zn.chunks[0] !in zn.live && zn.nfree > 0
    ensures ZoneInv(z, zn.(nfree := zn.nfree - 1, chunks := zn.chunks[1..], live := zn.live + {zn.chunks[0]}), zoneSize)
  {
    hide ChunkAt, Chunk, Roomy, Size, MaxChunks;
    assert forall i :: 0 <= i < |zn.chunks[1..]| ==> zn.chunks[1..][i] == zn.chunks[i + 1];
    assert zn.chunks[0] in zn.chunks;
  }

  /** A zone hands out only chunks that are not live, and every chunk is in one place. */
  lemma TakeChunkKeeps(z: nat, zn: Zone, zoneSize: nat)
    requires ZoneInv(z, zn, zoneSize) && zn.nfree > 0
    ensures zn.uindex + 1 == zn.nmax ==> zn.chunks != []
    ensures var (after, a) := TakeChunk(z, zn);
            ZoneInv(z, after, zoneSize) && a !in zn.live && after.live == zn.live + {a}
  {
    if zn.uindex + 1 == zn.nmax {
      ListedTaken(z, zn, zoneSize);
    } else {
      FreshTaken(z, zn, zoneSize, ChunkAt(z, zn.index, zn.uindex + 1));
    }
  }

  lemma SizePositive(index: nat)
    requires index < NZONES
    ensures Size(index) >= 8
  {
  }

  lemma GiveChunkKeeps(z: nat, zn: Zone, zoneSize: nat, a: nat)
    requires ZoneInv(z, zn, zoneSize) && a in zn.live
    ensures ZoneInv(z, GiveChunk(zn, a), zoneSize)
    ensures GiveChunk(zn, a).nfree == zn.nmax ==> GiveChunk(zn, a).live == {}
  {
    hide Chunk, Roomy;
  }

  lemma NewZoneInv(z: nat, index: nat, zoneSize: nat)
    requires Roomy(zoneSize, index)
    ensures ZoneInv(z, NewZone(z, index, zoneSize), zoneSize) && NewZone(z, index, zoneSize).nfree > 0
  {
    assert Chunk(z, index, 1, ChunkAt(z, index, 0));
  }

  // The addresses of the first n chunks.
  function ChunkSet(z: nat, index: nat, n: nat): set<nat>
    requires index < NZONES
  {
    if n == 0 then {} else ChunkSet(z, index, n - 1) + {ChunkAt(z, index, n - 1)}
  }

  lemma {:induction false} ChunkSetIs(z: nat, index: nat, n: nat)
    requires index < NZONES
    ensures |ChunkSet(z, index, n)| == n && forall a :: a in ChunkSet(z, index, n) <==> Chunk(z, index, n, a)
  {
    hide ChunkAt;
    if n > 0 {
      ChunkSetIs(z, index, n - 1);
      NextChunkIsNew(z, index, n - 1);
      assert ChunkAt(z, index, n - 1) !in ChunkSet(z, index, n - 1);
      assert |ChunkSet(z, index, n)| == |ChunkSet(z, index, n - 1)| + 1;
      forall a | a in ChunkSet(z, index, n) ensures Chunk(z, index, n, a) {
        assert a == ChunkAt(z, index, n - 1) || Chunk(z, index, n - 1, a);
      }
      forall a | Chunk(z, index, n, a) ensures a in ChunkSet(z, index, n) {
        var k: nat :| k < n && a == ChunkAt(z, index, k);
        if k < n - 1 {
          assert Chunk(z, index, n - 1, a);
        }
      }
    }
  }

  function SetOf(q: seq<nat>): (r: set<nat>)
    ensures forall a :: a in r <==> a in q
  {
    if q == [] then {} else {q[0]} + SetOf(q[1..])
  }

  lemma {:induction false} DistinctSet(q: seq<nat>)
    requires Distinct(q)
    ensures |SetOf(q)| == |q|
  {
    if q != [] {
      ListTail(q);
      DistinctSet(q[1..]);
      assert q[0] !in SetOf(q[1..]);
    }
  }

  lemma ChunkBelow(z: nat, index: nat, n: nat, k: nat)
    requires index < NZONES
    ensures Chunk(z, index, n, ChunkAt(z, index, k)) <==> k < n
  {
    hide ChunkAt;
    SizePositive(index);
    if k >= n && Chunk(z, index, n, ChunkAt(z, index, k)) {
      var j: nat :| j < n && ChunkAt(z, index, k) == ChunkAt(z, index, j);
      ChunksApart(z, index, j, k);
    }
  }

  /** Every chunk of a zone is in exactly one place: not used yet, on the list of free chunks, or live. */
  lemma ChunkInOnePlace(z: nat, zn: Zone, zoneSize: nat, k: nat)
    requires ZoneInv(z, zn, zoneSize) && k < zn.nmax
    ensures var a := ChunkAt(z, zn.index, k);
            if k > zn.uindex then a !in zn.chunks && a !in zn.live else a in zn.chunks <==> a !in zn.live
  {
    assert zn.index < NZONES;
    hide ChunkAt, Chunk, Roomy, MaxChunks, Size;
    var a, n := ChunkAt(z, zn.index, k), zn.uindex + 1;
    ChunkBelow(z, zn.index, n, k);
    if k < n {
      ChunkSetIs(z, zn.index, n);
      DistinctSet(zn.chunks);
      AllCovered(SetOf(zn.chunks), zn.live, ChunkSet(z, zn.index, n));
    }
  }

  lemma AllCovered(a: set<nat>, b: set<nat>, all: set<nat>)
    requires a !! b && a <= all && b <= all && |a| + |b| == |all|
    ensures a + b == all
  {
    assert |a + b| == |a| + |b|;
    assert |all - (a + b)| == 0;
  }

  // Two page spans without a page in common.
  predicate Apart(p: nat, m: nat, q: nat, n: nat) {
    p + m <= q || q + n <= p
  }

  ghost predicate PagesOk(runs: seq<Run>, spans: map<nat, nat>) {
    && Canonical(runs, 1)
    && (forall p :: p in spans ==> p > 0 && spans[p] > 0 && NoneFree(runs, p, spans[p]))
    && (forall p, q :: p in spans && q in spans && p != q ==> Apart(p, spans[p], q, spans[q]))
  }

  lemma PagesTaken(runs: seq<Run>, spans: map<nat, nat>, n: nat)
    requires PagesOk(runs, spans) && n > 0 && Allocated(runs, n).1.Some?
    ensures var start := Allocated(runs, n).1.value;
            start !in spans && PagesOk(Allocated(runs, n).0, spans[start := n])
  {
    var (after, place) := Allocated(runs, n);
    var start := place.value;
    AllocatedKeeps(runs, 1, n);
    AllocatedWasFree(runs, 1, n);
    hide Canonical, Free, Allocated;
    forall p | p in spans ensures Apart(p, spans[p], start, n) && p != start {
      var common := if p < start then start else p;
      assert NoneFree(runs, p, spans[p]);
      assert p <= common < p + spans[p] ==> !Free(runs, common);
      assert start <= common < start + n ==> Free(runs, common);
    }
    forall p | p in spans ensures NoneFree(after, p, spans[p]) {
      assert NoneFree(runs, p, spans[p]);
    }
    assert NoneFree(after, start, n);
  }

  lemma PagesGiven(runs: seq<Run>, spans: map<nat, nat>, start: nat)
    requires PagesOk(runs, spans) && start in spans
    ensures PagesOk(Freed(runs, start, spans[start]), spans - {start})
  {
    var n := spans[start];
    var after := Freed(runs, start, n);
    FreedKeeps(runs, 1, start, n);
    hide Canonical, Free, Freed;
    forall p | p in spans && p != start ensures NoneFree(after, p, spans[p]) {
      assert NoneFree(runs, p, spans[p]) && Apart(p, spans[p], start, n);
    }
  }

  function ZonePages(s: State): nat {
    s.zoneSize / 4096
  }

  ghost predicate OwnersOk(s: State) {
    && (forall z :: z in s.zones ==> z in s.spans && s.spans[z] == ZonePages(s))
    && (forall z :: z in s.retired ==> z in s.spans && s.spans[z] == ZonePages(s) && z !in s.zones)
    && (forall p :: p in s.large ==> p in s.spans && s.spans[p] == s.large[p] && p !in s.zones && p !in s.retired)
    && Distinct(s.retired)
  }

  ghost predicate ZonesOk(zones: map<nat, Zone>, zoneSize: nat) {
    forall z :: z in zones ==> ZoneInv(z, zones[z], zoneSize)
  }

  // A zone is on the list of its index exactly while it has a free chunk.
  ghost predicate ListsOk(lists: seq<seq<nat>>, zones: map<nat, Zone>) {
    && |lists| == NZONES
    && (forall i :: 0 <= i < NZONES ==> Distinct(lists[i]))
    && (forall i, z :: 0 <= i < NZONES && z in lists[i] ==> z in zones && zones[z].index == i && zones[z].nfree > 0)
    && (forall z :: z in zones && zones[z].nfree > 0 ==> zones[z].index < NZONES && z in lists[zones[z].index])
  }

  ghost predicate Marked(usage: map<nat, Usage>, z: nat, pages: nat) {
    forall p :: z <= p < z + pages ==> p in usage && usage[p] == Small(p - z)
  }

  ghost predicate UsageOk(s: State) {
    && (forall z :: z in s.zones || z in s.retired ==> Marked(s.usage, z, ZonePages(s)))
    && (forall p :: p in s.large ==> p in s.usage && s.usage[p] == Large(s.large[p]))
  }

  ghost predicate Sound(s: State) {
    && ZoneSize(s.zoneSize) && PagesOk(s.runs, s.spans) && OwnersOk(s) && ZonesOk(s.zones, s.zoneSize)
    && ListsOk(s.lists, s.zones) && UsageOk(s)
  }

  ghost predicate Inv(s: State) {
    Sound(s) && |s.retired| <= RELEASE_THRESH
  }

  lemma SoundParts(s: State)
    requires Sound(s)
    ensures ZoneSize(s.zoneSize) && PagesOk(s.runs, s.spans) && OwnersOk(s) && ZonesOk(s.zones, s.zoneSize)
    ensures |s.lists| == NZONES && ListsOk(s.lists, s.zones) && UsageOk(s)
  {
    hide PagesOk, OwnersOk, ZonesOk, UsageOk;
  }

  lemma IsSound(s: State)
    requires ZoneSize(s.zoneSize) && PagesOk(s.runs, s.spans) && OwnersOk(s) && ZonesOk(s.zones, s.zoneSize)
    requires ListsOk(s.lists, s.zones) && UsageOk(s)
    ensures Sound(s) && (|s.retired| <= RELEASE_THRESH ==> Inv(s))
  {
    hide PagesOk, OwnersOk, ZonesOk, UsageOk, ListsOk;
  }

  lemma InvParts(s: State)
    requires Inv(s)
    ensures Sound(s) && |s.retired| <= RELEASE_THRESH
    ensures ZoneSize(s.zoneSize) && PagesOk(s.runs, s.spans) && OwnersOk(s) && ZonesOk(s.zones, s.zoneSize)
    ensures |s.lists| == NZONES && ListsOk(s.lists, s.zones) && UsageOk(s)
  {
    hide PagesOk, OwnersOk, ZonesOk, UsageOk, ListsOk;
    SoundParts(s);
  }

  function MarkSmall(usage: map<nat, Usage>, z: nat, pages: nat): map<nat, Usage> {
    if pages == 0 then usage else
      var before := MarkSmall(usage, z, pages - 1);
      before[z + pages - 1 := Small(pages - 1)]
  }

  function MarkUnused(usage: map<nat, Usage>, z: nat, pages: nat): map<nat, Usage> {
    if pages == 0 then usage else
      var before := MarkUnused(usage, z, pages - 1);
      before[z + pages - 1 := Unused]
  }

  function MallocLarge(s: State, size: nat): (State, Option<nat>) {
    var n := RoundUp(size, 4096) / 4096;
    var (runs, start) := Allocated(s.runs, n);
    if start.None? then (s, None)
    else
      var p := start.value;
      (s.(runs := runs, spans := s.spans[p := n], large := s.large[p := n], usage := s.usage[p := Large(n)]),
        Some(p * 4096))
  }

  function FromZone(s: State, index: nat): (State, Option<nat>)
    requires Inv(s) && index < NZONES && s.lists[index] != []
  {
    var z := s.lists[index][0];
    TakeChunkKeeps(z, s.zones[z], s.zoneSize);
    var (zn, a) := TakeChunk(z, s.zones[z]);
    var lists := if zn.nfree == 0 then s.lists[index := s.lists[index][1..]] else s.lists;
    (s.(zones := s.zones[z := zn], lists := lists), Some(a))
  }

  // The zone at page z is set up for this index, and its first chunk is handed out.
  function EnterZone(s: State, index: nat, z: nat): (State, Option<nat>)
    requires index < |s.lists| && index < NZONES && Size(index) > 0 && MaxChunks(s.zoneSize, Size(index)) >= 3
  {
    var zn := NewZone(z, index, s.zoneSize);
    (s.(zones := s.zones[z := zn], lists := s.lists[index := [z] + s.lists[index]]), Some(ChunkAt(z, index, 0)))
  }

  function FromNewZone(s: State, index: nat): (State, Option<nat>)
    requires index < |s.lists| && index < NZONES && Size(index) > 0 && MaxChunks(s.zoneSize, Size(index)) >= 3
  {
    if s.retired != [] then EnterZone(s.(retired := s.retired[1..]), index, s.retired[0])
    else
      var (runs, start) := Allocated(s.runs, ZonePages(s));
      if start.None? then (s, None)
      else
        var z := start.value;
        EnterZone(s.(runs := runs, spans := s.spans[z := ZonePages(s)], usage := MarkSmall(s.usage, z, ZonePages(s))),
          index, z)
  }

  lemma RequestIsRoomy(zoneSize: nat, size: nat)
    requires ZoneSize(zoneSize) && 1 <= size < ZoneLimit(zoneSize)
    ensures 0 <= ZoneIndex(size).0 && Roomy(zoneSize, ZoneIndex(size).0)
    ensures Size(ZoneIndex(size).0) == ZoneIndex(size).1 >= size
  {
    ZoneIndexFits(size);
    ZoneHasRoom(zoneSize, size);
  }

  // rt_malloc
  function Malloc(s: State, size: nat): (State, Option<nat>)
    requires Inv(s)
  {
    if size == 0 then (s, None)
    else if size >= ZoneLimit(s.zoneSize) then MallocLarge(s, size)
    else
      RequestIsRoomy(s.zoneSize, size);
      var index := ZoneIndex(size).0;
      if s.lists[index] != [] then FromZone(s, index) else FromNewZone(s, index)
  }

  function FreeLarge(s: State, p: nat, n: nat): State {
    s.(runs := Freed(s.runs, p, n), spans := s.spans - {p}, large := s.large - {p}, usage := s.usage[p := Large(0)])
  }

  // A third zone without live chunks is given back to the page allocator.
  function Release(s: State): State {
    if |s.retired| <= RELEASE_THRESH then s
    else
      var z := s.retired[0];
      s.(runs := Freed(s.runs, z, ZonePages(s)), spans := s.spans - {z}, retired := s.retired[1..],
         usage := MarkUnused(s.usage, z, ZonePages(s)))
  }

  function Retire(s: State, z: nat): State
    requires z in s.zones && s.zones[z].index < |s.lists|
  {
    var index := s.zones[z].index;
    Release(s.(zones := s.zones - {z}, lists := s.lists[index := Without(s.lists[index], z)],
      retired := [z] + s.retired))
  }

  // The chunk is put on its zone's list, and the zone on the list of its index if it was exhausted.
  function Given(s: State, z: nat, a: nat): State
    requires z in s.zones && s.zones[z].index < |s.lists|
  {
    var was := s.zones[z];
    var list := if was.nfree == 0 then [z] + s.lists[was.index] else s.lists[was.index];
    s.(zones := s.zones[z := GiveChunk(was, a)], lists := s.lists[was.index := list])
  }

  // A zone without live chunks is retired if its list has another.
  function FreeChunk(s: State, z: nat, a: nat): State
    requires z in s.zones && s.zones[z].index < |s.lists|
  {
    var next := Given(s, z, a);
    var zn := next.zones[z];
    if zn.nfree == zn.nmax && next.lists[zn.index] != [z] then Retire(next, z) else next
  }

  lemma {:induction false} MarkSmallIs(usage: map<nat, Usage>, z: nat, pages: nat)
    ensures Marked(MarkSmall(usage, z, pages), z, pages)
    ensures forall p :: p in usage ==> p in MarkSmall(usage, z, pages)
    ensures forall p :: p in usage && !(z <= p < z + pages) ==> MarkSmall(usage, z, pages)[p] == usage[p]
  {
    if pages > 0 {
      MarkSmallIs(usage, z, pages - 1);
    }
  }

  lemma {:induction false} MarkUnusedIs(usage: map<nat, Usage>, z: nat, pages: nat)
    ensures forall p :: p in usage ==> p in MarkUnused(usage, z, pages)
    ensures forall p :: p in usage && !(z <= p < z + pages) ==> MarkUnused(usage, z, pages)[p] == usage[p]
  {
    if pages > 0 {
      MarkUnusedIs(usage, z, pages - 1);
    }
  }

  // Usage stays right for zones and large blocks outside the pages that change.
  lemma UsageElsewhere(s: State, s': State, start: nat, pages: nat)
    requires UsageOk(s) && OwnersOk(s) && s'.zoneSize == s.zoneSize
    requires forall z :: z in s'.zones || z in s'.retired ==> z in s.zones || z in s.retired
    requires forall p :: p in s'.large ==> p in s.large && s'.large[p] == s.large[p]
    requires forall p :: p in s.usage && !(start <= p < start + pages) ==> p in s'.usage && s'.usage[p] == s.usage[p]
    requires forall p :: (p in s'.zones || p in s'.retired || p in s'.large) && p in s.spans ==>
      s.spans[p] > 0 && Apart(p, s.spans[p], start, pages)
    ensures UsageOk(s')
  {
  }

  lemma ApartFromNew(runs: seq<Run>, spans: map<nat, nat>, start: nat, n: nat)
    requires PagesOk(runs, spans[start := n]) && start !in spans
    ensures forall q :: q in spans ==> spans[q] > 0 && Apart(q, spans[q], start, n)
  {
    var after := spans[start := n];
    forall q | q in spans ensures spans[q] > 0 && Apart(q, spans[q], start, n) {
      assert q in after && start in after;
    }
  }

  lemma OwnersWithSpan(s: State, s': State, start: nat)
    requires OwnersOk(s) && start !in s.spans && s' == s.(runs := s'.runs, spans := s'.spans, usage := s'.usage)
    requires start in s'.spans && s'.spans == s.spans[start := s'.spans[start]]
    ensures OwnersOk(s') && start !in s.zones && start !in s.retired && start !in s.large
  {
  }

  // A span of pages is added that no one owns yet; `usage` may change within it.
  lemma SpanAdded(s: State, runs: seq<Run>, start: nat, n: nat, usage: map<nat, Usage>)
    requires Inv(s) && start !in s.spans && PagesOk(runs, s.spans[start := n])
    requires forall p :: p in s.usage && !(start <= p < start + n) ==> p in usage && usage[p] == s.usage[p]
    ensures Inv(s.(runs := runs, spans := s.spans[start := n], usage := usage))
    ensures start !in s.zones && start !in s.retired && start !in s.large
  {
    var s' := s.(runs := runs, spans := s.spans[start := n], usage := usage);
    ApartFromNew(runs, s.spans, start, n);
    hide ZoneInv, PagesOk, Distinct, Marked, Apart;
    assert OwnersOk(s') by {
      OwnersWithSpan(s, s', start);
    }
    hide ListsOk, ZonesOk, OwnersOk;
    UsageElsewhere(s, s', start, n);
  }

  // An unowned span becomes a large block.
  lemma LargeAdded(s: State, p: nat)
    requires Inv(s) && p in s.spans && p !in s.zones && p !in s.retired && p in s.usage
    requires s.usage[p] == Large(s.spans[p])
    ensures Inv(s.(large := s.large[p := s.spans[p]]))
  {
    hide ZoneInv, PagesOk, Distinct, Marked;
    var s' := s.(large := s.large[p := s.spans[p]]);
    assert OwnersOk(s');
    assert ListsOk(s'.lists, s'.zones);
  }

  lemma MallocLargeKeeps(s: State, size: nat)
    requires Inv(s) && size > 0
    ensures Inv(MallocLarge(s, size).0)
  {
    RoundUpIs(size, 4096);
    var n := RoundUp(size, 4096) / 4096;
    if Allocated(s.runs, n).1.Some? {
      PagesTaken(s.runs, s.spans, n);
      var p := Allocated(s.runs, n).1.value;
      var usage := s.usage[p := Large(n)];
      assert s.spans[p := n][p] > 0;
      hide Inv, Allocated, RoundUp;
      SpanAdded(s, Allocated(s.runs, n).0, p, n, usage);
      LargeAdded(s.(runs := Allocated(s.runs, n).0, spans := s.spans[p := n], usage := usage), p);
    }
  }

  lemma ListTail(q: seq<nat>)
    requires Distinct(q) && q != []
    ensures Distinct(q[1..]) && q[0] !in q[1..] && forall z :: z in q <==> z == q[0] || z in q[1..]
  {
    assert forall i :: 0 <= i < |q[1..]| ==> q[1..][i] == q[i + 1];
  }

  // The same zones, with other contents or lists, are owned and marked as before.
  lemma OwnersSame(s: State, s': State)
    requires OwnersOk(s) && UsageOk(s) && s' == s.(zones := s'.zones, lists := s'.lists)
    requires s'.zones.Keys == s.zones.Keys
    ensures OwnersOk(s') && UsageOk(s')
  {
    hide Distinct, Marked;
    assert forall z :: z in s'.zones <==> z in s.zones;
  }

  // One zone changes, and the list of its index with it.
  lemma ZoneChanged(s: State, z: nat, zn: Zone, list: seq<nat>)
    requires Inv(s) && z in s.zones && zn.index == s.zones[z].index && ZoneInv(z, zn, s.zoneSize) && Distinct(list)
    requires forall y :: y in list <==> if y == z then zn.nfree > 0 else zn.index < NZONES && y in s.lists[zn.index]
    ensures zn.index < NZONES && Inv(s.(zones := s.zones[z := zn], lists := s.lists[zn.index := list]))
  {
    hide *;
    InvParts(s);
    ZoneIndexIn(z, zn, s.zoneSize);
    var s' := s.(zones := s.zones[z := zn], lists := s.lists[zn.index := list]);
    assert s'.zones.Keys == s.zones.Keys;
    OwnersSame(s, s');
    ListChanged(s.lists, s.zones, z, zn, list);
    ZoneUpdated(s.zones, z, zn, s.zoneSize);
    IsSound(s');
  }

  lemma ZoneIndexIn(z: nat, zn: Zone, zoneSize: nat)
    requires ZoneInv(z, zn, zoneSize)
    ensures zn.index < NZONES && zn.uindex < zn.nmax
  {
  }

  lemma ZoneUpdated(zones: map<nat, Zone>, z: nat, zn: Zone, zoneSize: nat)
    requires ZonesOk(zones, zoneSize) && ZoneInv(z, zn, zoneSize)
    ensures ZonesOk(zones[z := zn], zoneSize)
  {
    hide ZoneInv;
  }

  lemma ListChanged(lists: seq<seq<nat>>, zones: map<nat, Zone>, z: nat, zn: Zone, list: seq<nat>)
    requires ListsOk(lists, zones) && zn.index < NZONES && (z in zones ==> zn.index == zones[z].index) && Distinct(list)
    requires forall y :: y in list <==> if y == z then zn.nfree > 0 else y in lists[zn.index]
    ensures ListsOk(lists[zn.index := list], zones[z := zn])
  {
    hide Distinct;
  }

  lemma FromZoneKeeps(s: State, index: nat)
    requires Inv(s) && index < NZONES && s.lists[index] != []
    ensures Inv(FromZone(s, index).0)
  {
    var z, list := s.lists[index][0], s.lists[index];
    assert z in list;
    TakeChunkKeeps(z, s.zones[z], s.zoneSize);
    ListTail(list);
    TakeChunkFields(z, s.zones[z]);
    var zn := TakeChunk(z, s.zones[z]).0;
    assert list == s.lists[s.zones[z].index] && s.lists[index := list] == s.lists;
    hide Inv, ZoneInv, Distinct, TakeChunk;
    ZoneChanged(s, z, zn, if zn.nfree == 0 then list[1..] else list);
  }

  lemma TakeChunkFields(z: nat, zn: Zone)
    requires zn.index < NZONES && zn.nfree > 0 && (zn.uindex + 1 == zn.nmax ==> zn.chunks != [])
    ensures var after := TakeChunk(z, zn).0; after.index == zn.index && after.nfree == zn.nfree - 1
  {
  }

  // An unowned zone is entered on the list of its index.
  lemma EnterZoneKeeps(s: State, index: nat, z: nat)
    requires Inv(s) && index < NZONES && Roomy(s.zoneSize, index) && z in s.spans && s.spans[z] == ZonePages(s)
    requires z !in s.zones && z !in s.retired && z !in s.large && Marked(s.usage, z, ZonePages(s))
    ensures Inv(EnterZone(s, index, z).0)
  {
    hide *;
    InvParts(s);
    NewZoneInv(z, index, s.zoneSize);
    NewZoneFields(z, index, s.zoneSize);
    EnterZoneIs(s, index, z);
    var s' := EnterZone(s, index, z).0;
    NotListed(s.lists, s.zones, index, z);
    ListChanged(s.lists, s.zones, z, s'.zones[z], [z] + s.lists[index]);
    ZoneUpdated(s.zones, z, s'.zones[z], s.zoneSize);
    OwnersEntered(s, s', z);
    IsSound(s');
  }

  lemma EnterZoneIs(s: State, index: nat, z: nat)
    requires Roomy(s.zoneSize, index) && index < |s.lists|
    ensures Size(index) > 0 && MaxChunks(s.zoneSize, Size(index)) >= 3
    ensures EnterZone(s, index, z).0 ==
      s.(zones := s.zones[z := NewZone(z, index, s.zoneSize)], lists := s.lists[index := [z] + s.lists[index]])
  {
    hide NewZone, MaxChunks, Size;
  }

  lemma NotListed(lists: seq<seq<nat>>, zones: map<nat, Zone>, index: nat, z: nat)
    requires ListsOk(lists, zones) && index < NZONES == |lists| && z !in zones
    ensures z !in lists[index] && Distinct([z] + lists[index])
  {
    assert Distinct(lists[index]);
  }

  lemma NewZoneFields(z: nat, index: nat, zoneSize: nat)
    requires Roomy(zoneSize, index)
    ensures var zn := NewZone(z, index, zoneSize);
            index < NZONES && zn.index == index && zn.nfree > 0 && zn.live == {ChunkAt(z, index, 0)}
  {
    hide ChunkAt;
  }

  // Without the first retired zone, which no one owns then.
  lemma FirstRetired(s: State)
    requires OwnersOk(s) && UsageOk(s) && s.retired != []
    ensures var z, s1 := s.retired[0], s.(retired := s.retired[1..]);
            && OwnersOk(s1) && UsageOk(s1) && z in s.spans && s.spans[z] == ZonePages(s)
               && Marked(s.usage, z, ZonePages(s))
            && z !in s1.zones && z !in s1.retired && z !in s1.large
  {
    ListTail(s.retired);
    hide Distinct, Marked;
  }

  lemma FromNewZoneKeeps(s: State, index: nat)
    requires Inv(s) && index < NZONES && Roomy(s.zoneSize, index)
    ensures Inv(FromNewZone(s, index).0)
  {
    hide Inv, Sound, ZoneInv, PagesOk, Distinct, Marked, Roomy, ListsOk, ZonesOk, EnterZone, OwnersOk, UsageOk;
    var pages := ZonePages(s);
    InvParts(s);
    if s.retired != [] {
      var s1 := s.(retired := s.retired[1..]);
      FirstRetired(s);
      IsSound(s1);
      EnterZoneKeeps(s1, index, s.retired[0]);
    } else if Allocated(s.runs, pages).1.Some? {
      PagesTaken(s.runs, s.spans, pages);
      var (runs, start) := Allocated(s.runs, pages);
      var usage := MarkSmall(s.usage, start.value, pages);
      MarkSmallIs(s.usage, start.value, pages);
      SpanAdded(s, runs, start.value, pages, usage);
      EnterZoneKeeps(s.(runs := runs, spans := s.spans[start.value := pages], usage := usage), index, start.value);
    }
  }

  lemma MallocKeeps(s: State, size: nat)
    requires Inv(s)
    ensures Inv(Malloc(s, size).0)
  {
    if size > 0 {
      if size >= ZoneLimit(s.zoneSize) {
        MallocLargeKeeps(s, size);
      } else {
        RequestIsRoomy(s.zoneSize, size);
        var index := ZoneIndex(size).0;
        if s.lists[index] != [] {
          FromZoneKeeps(s, index);
        } else {
          FromNewZoneKeeps(s, index);
        }
      }
    }
    hide Inv, FromZone, FromNewZone, MallocLarge;
  }

  lemma SpansApart(s: State, p: nat)
    requires Sound(s) && p in s.spans
    ensures forall q :: q in s.spans && q != p ==> s.spans[q] > 0 && Apart(q, s.spans[q], p, s.spans[p])
  {
    hide Canonical, NoneFree;
  }

  lemma OwnersWithoutSpan(s: State, s': State, z: nat)
    requires OwnersOk(s) && z !in s.zones && z !in s.retired && z !in s.large
    requires s' == s.(runs := s'.runs, spans := s.spans - {z}, usage := s'.usage)
    ensures OwnersOk(s')
  {
    hide Distinct;
  }

  // Pages that no one owns are given back.
  lemma SpanGiven(s: State, z: nat, usage: map<nat, Usage>)
    requires Sound(s) && z in s.spans && z !in s.zones && z !in s.retired && z !in s.large
    requires forall p :: p in s.usage && !(z <= p < z + s.spans[z]) ==> p in usage && usage[p] == s.usage[p]
    ensures Sound(s.(runs := Freed(s.runs, z, s.spans[z]), spans := s.spans - {z}, usage := usage))
  {
    var s' := s.(runs := Freed(s.runs, z, s.spans[z]), spans := s.spans - {z}, usage := usage);
    PagesGiven(s.runs, s.spans, z);
    SpansApart(s, z);
    OwnersWithoutSpan(s, s', z);
    hide PagesOk, ListsOk, ZonesOk, Apart, Freed;
    assert UsageOk(s') by {
      hide Distinct, Marked;
      OwnersSpans(s);
      UsageElsewhere(s, s', z, s.spans[z]);
    }
    hide UsageOk, OwnersOk;
  }

  lemma OwnersSpans(s: State)
    requires OwnersOk(s)
    ensures forall p :: p in s.zones || p in s.retired || p in s.large ==> p in s.spans
  {
  }

  lemma FreeLargeKeeps(s: State, p: nat)
    requires Inv(s) && p in s.large
    ensures Inv(FreeLarge(s, p, s.large[p]))
  {
    hide Inv, Sound, PagesOk, ListsOk, ZonesOk, Freed, OwnersOk, UsageOk;
    var s1 := s.(large := s.large - {p});
    InvParts(s);
    NotLarge(s, p);
    SpanPositive(s.runs, s.spans, p);
    IsSound(s1);
    SpanGiven(s1, p, s.usage[p := Large(0)]);
    SoundParts(FreeLarge(s, p, s.large[p]));
    IsSound(FreeLarge(s, p, s.large[p]));
  }

  lemma SpanPositive(runs: seq<Run>, spans: map<nat, nat>, p: nat)
    requires PagesOk(runs, spans) && p in spans
    ensures p > 0 && spans[p] > 0 && NoneFree(runs, p, spans[p])
  {
    hide Canonical, NoneFree, Apart;
  }

  lemma NotLarge(s: State, p: nat)
    requires OwnersOk(s) && UsageOk(s) && p in s.large
    ensures var s1 := s.(large := s.large - {p});
            OwnersOk(s1) && UsageOk(s1) && p in s.spans && s.spans[p] == s.large[p] && p !in s.zones && p !in s.retired
  {
    hide Distinct, Marked;
  }

  lemma ReleaseKeeps(s: State)
    requires Sound(s) && |s.retired| <= RELEASE_THRESH + 1
    ensures Inv(Release(s))
  {
    hide Sound, ZoneInv, PagesOk, ListsOk, ZonesOk, Distinct, Marked, OwnersOk, UsageOk, Freed, MarkUnused;
    SoundParts(s);
    if |s.retired| > RELEASE_THRESH {
      var z, s1 := s.retired[0], s.(retired := s.retired[1..]);
      FirstRetired(s);
      MarkUnusedIs(s.usage, z, ZonePages(s));
      IsSound(s1);
      SpanGiven(s1, z, MarkUnused(s.usage, z, ZonePages(s)));
    }
  }

  lemma ListsWithout(lists: seq<seq<nat>>, zones: map<nat, Zone>, z: nat)
    requires ListsOk(lists, zones) && z in zones && zones[z].index < NZONES
    ensures ListsOk(lists[zones[z].index := Without(lists[zones[z].index], z)], zones - {z})
  {
    WithoutDistinct(lists[zones[z].index], z);
    hide Distinct;
  }

  lemma ZoneRemoved(s: State, z: nat)
    requires Sound(s) && z in s.zones && |s.lists| == NZONES && s.zones[z].index < NZONES
    ensures var index := s.zones[z].index;
            Sound(s.(zones := s.zones - {z}, lists := s.lists[index := Without(s.lists[index], z)],
              retired := [z] + s.retired))
  {
    var index := s.zones[z].index;
    var s' := s.(zones := s.zones - {z}, lists := s.lists[index := Without(s.lists[index], z)],
      retired := [z] + s.retired);
    ListsWithout(s.lists, s.zones, z);
    OwnersRetired(s, s', z);
    hide PagesOk, ListsOk, Without, OwnersOk, UsageOk, ZoneInv;
    assert ZonesOk(s'.zones, s'.zoneSize);
    hide ZonesOk;
  }

  lemma ListWith(q: seq<nat>, z: nat)
    requires Distinct(q) && z !in q
    ensures Distinct([z] + q) && forall y :: y in [z] + q <==> y == z || y in q
  {
  }

  lemma OwnersRetired(s: State, s': State, z: nat)
    requires OwnersOk(s) && UsageOk(s) && z in s.zones
    requires s' == s.(zones := s.zones - {z}, lists := s'.lists, retired := [z] + s.retired)
    ensures OwnersOk(s') && UsageOk(s')
  {
    hide Distinct, Marked;
    ListWith(s.retired, z);
  }

  lemma OwnersEntered(s: State, s': State, z: nat)
    requires OwnersOk(s) && UsageOk(s) && z in s.spans && s.spans[z] == ZonePages(s)
    requires z !in s.zones && z !in s.retired && z !in s.large && Marked(s.usage, z, ZonePages(s))
    requires s' == s.(zones := s'.zones, lists := s'.lists) && s'.zones.Keys == s.zones.Keys + {z}
    ensures OwnersOk(s') && UsageOk(s')
  {
    hide Distinct, Marked;
    assert forall y :: y in s'.zones <==> y == z || y in s.zones;
  }

  lemma RetireKeeps(s: State, z: nat)
    requires Inv(s) && z in s.zones
    ensures s.zones[z].index < NZONES == |s.lists| && Inv(Retire(s, z))
  {
    assert ZoneInv(z, s.zones[z], s.zoneSize);
    ZoneRemoved(s, z);
    var index := s.zones[z].index;
    hide Sound, Release;
    ReleaseKeeps(s.(zones := s.zones - {z}, lists := s.lists[index := Without(s.lists[index], z)],
      retired := [z] + s.retired));
  }

  lemma GivenKeeps(s: State, z: nat, a: nat)
    requires Inv(s) && z in s.zones && a in s.zones[z].live
    ensures s.zones[z].index < NZONES == |s.lists| && Inv(Given(s, z, a))
    ensures Given(s, z, a).zones[z].nfree > 0
  {
    var was, zn := s.zones[z], GiveChunk(s.zones[z], a);
    assert ZoneInv(z, was, s.zoneSize);
    GiveChunkKeeps(z, was, s.zoneSize, a);
    var list := if was.nfree == 0 then [z] + s.lists[was.index] else s.lists[was.index];
    assert Distinct(list);
    hide Sound, ZoneInv, Distinct;
    assert forall y :: y in list <==> if y == z then zn.nfree > 0 else y in s.lists[zn.index] by {
      ListedExactly(s, z);
    }
    ZoneChanged(s, z, zn, list);
  }

  lemma FreeChunkKeeps(s: State, z: nat, a: nat)
    requires Inv(s) && z in s.zones && a in s.zones[z].live
    ensures s.zones[z].index < NZONES == |s.lists| && Inv(FreeChunk(s, z, a))
  {
    hide Inv, Retire;
    GivenKeeps(s, z, a);
    var next := Given(s, z, a);
    if next.zones[z].nfree == next.zones[z].nmax {
      RetireKeeps(next, z);
    }
  }

  lemma ListedExactly(s: State, z: nat)
    requires Inv(s) && z in s.zones
    ensures |s.lists| == NZONES && s.zones[z].index < NZONES
    ensures z in s.lists[s.zones[z].index] <==> s.zones[z].nfree > 0
  {
    assert ZoneInv(z, s.zones[z], s.zoneSize);
  }

  lemma LiveInside(s: State, z: nat, a: nat)
    requires Sound(s) && z in s.zones && a in s.zones[z].live
    ensures s.zones[z].index < NZONES && z * 4096 <= a && a + Size(s.zones[z].index) <= (z + ZonePages(s)) * 4096
    ensures ZonePages(s) * 4096 == s.zoneSize
  {
    hide *;
    var zn := s.zones[z];
    SoundParts(s);
    LiveIsChunk(s.zones, s.zoneSize, z, a);
    var k := ChunkNumber(z, zn.index, zn.uindex + 1, a);
    ChunkInside(z, zn.index, k, s.zoneSize);
    PagesOfZone(s);
  }

  lemma LiveIsChunk(zones: map<nat, Zone>, zoneSize: nat, z: nat, a: nat)
    requires ZonesOk(zones, zoneSize) && z in zones && a in zones[z].live
    ensures var zn := zones[z];
            && ZoneInv(z, zn, zoneSize) && zn.index < NZONES && Roomy(zoneSize, zn.index)
               && Chunk(z, zn.index, zn.uindex + 1, a)
            && zn.uindex < zn.nmax == MaxChunks(zoneSize, Size(zn.index))
  {
    hide Chunk, Roomy, MaxChunks, Size;
    ZoneIndexIn(z, zones[z], zoneSize);
  }

  lemma ChunkNumber(z: nat, index: nat, n: nat, a: nat) returns (k: nat)
    requires index < NZONES && Chunk(z, index, n, a)
    ensures k < n && a == ChunkAt(z, index, k)
  {
    hide ChunkAt;
    k :| k < n && a == ChunkAt(z, index, k);
  }

  lemma PagesOfZone(s: State)
    requires ZoneSize(s.zoneSize)
    ensures ZonePages(s) > 0 && ZonePages(s) * 4096 == s.zoneSize
  {
  }

  ghost predicate OwnedBy(s: State, a: nat, len: nat, p: nat) {
    || (p in s.zones && a in s.zones[p].live && len == Size(s.zones[p].index))
    || (p in s.large && a == p * 4096 && len == s.large[p] * 4096)
  }

  // A block in use: a live chunk, or the pages of a large block.
  ghost predicate IsBlock(s: State, a: nat, len: nat) {
    exists p :: OwnedBy(s, a, len, p)
  }

  lemma BlockInSpan(s: State, a: nat, len: nat, p: nat)
    requires Sound(s) && OwnedBy(s, a, len, p)
    ensures p in s.spans && 0 < len && p * 4096 <= a && a + len <= (p + s.spans[p]) * 4096
  {
    if p in s.zones && a in s.zones[p].live {
      LiveInside(s, p, a);
      SizePositive(s.zones[p].index);
    } else {
      SpansApart(s, p);
      assert s.spans[p] > 0;
    }
    hide PagesOk, ZonesOk, ListsOk, UsageOk, Distinct, Size;
  }

  lemma OneOwner(s: State, a: nat, la: nat, p: nat, lb: nat, q: nat)
    requires Sound(s) && OwnedBy(s, a, la, p) && OwnedBy(s, a, lb, q)
    ensures p == q && la == lb
  {
    BlockInSpan(s, a, la, p);
    BlockInSpan(s, a, lb, q);
    SpansApart(s, p);
    assert p == q;
    hide PagesOk, ZonesOk, ListsOk, UsageOk, Distinct, Size;
  }

  /** Blocks in use never overlap. */
  lemma BlocksApart(s: State, a: nat, la: nat, b: nat, lb: nat)
    requires Inv(s) && IsBlock(s, a, la) && IsBlock(s, b, lb)
    ensures if a == b then la == lb else a + la <= b || b + lb <= a
  {
    hide Inv, Sound, OwnersOk, Size;
    InvParts(s);
    var p :| OwnedBy(s, a, la, p);
    var q :| OwnedBy(s, b, lb, q);
    BlockInSpan(s, a, la, p);
    BlockInSpan(s, b, lb, q);
    if p != q {
      SpansApart(s, p);
    } else if a == b {
      OneOwner(s, a, la, p, lb, q);
    } else if p in s.zones {
      InvSound(s);
      LiveApart(s, p, a, b);
    }
  }

  lemma LiveApart(s: State, z: nat, a: nat, b: nat)
    requires Sound(s) && z in s.zones && a in s.zones[z].live && b in s.zones[z].live && a != b
    ensures s.zones[z].index < NZONES
    ensures a + Size(s.zones[z].index) <= b || b + Size(s.zones[z].index) <= a
  {
    hide *;
    var zn := s.zones[z];
    SoundParts(s);
    LiveIsChunk(s.zones, s.zoneSize, z, a);
    LiveIsChunk(s.zones, s.zoneSize, z, b);
    var i := ChunkNumber(z, zn.index, zn.uindex + 1, a);
    var j := ChunkNumber(z, zn.index, zn.uindex + 1, b);
    if i < j {
      ChunksApart(z, zn.index, i, j);
    } else {
      ChunksApart(z, zn.index, j, i);
    }
  }

  // What the allocator finds in `memusage` for a block.
  lemma BlockUsage(s: State, a: nat, len: nat)
    requires Sound(s) && IsBlock(s, a, len)
    ensures a > 0 && a / 4096 in s.usage
    ensures match s.usage[a / 4096]
            case Unused => false
            case Small(page) => page <= a / 4096 && a / 4096 - page in s.zones && a in s.zones[a / 4096 - page].live
            case Large(n) => a / 4096 in s.large && s.large[a / 4096] == n && a == a / 4096 * 4096
  {
    hide Sound, PagesOk, ZonesOk, ListsOk, OwnersOk, Distinct, Size;
    var p :| OwnedBy(s, a, len, p);
    BlockInSpan(s, a, len, p);
    SoundParts(s);
    SpanPositive(s.runs, s.spans, p);
    if p in s.zones && a in s.zones[p].live {
      LiveInside(s, p, a);
      MarkedAt(s.usage, p, ZonePages(s), a / 4096);
    }
  }

  lemma MarkedAt(usage: map<nat, Usage>, z: nat, pages: nat, p: nat)
    requires Marked(usage, z, pages) && z <= p < z + pages
    ensures p in usage && usage[p] == Small(p - z)
  {
  }

  // What rt_free needs of the entry that it finds.
  ghost predicate Freeable(s: State, a: nat) {
    && a / 4096 in s.usage && s.usage[a / 4096] != Unused && |s.lists| == NZONES
    && (s.usage[a / 4096].Small? ==>
      var z := a / 4096 - s.usage[a / 4096].page;
      z >= 0 && z in s.zones && s.zones[z].index < NZONES && a in s.zones[z].live)
  }

  lemma BlockFreeable(s: State, a: nat)
    requires Inv(s) && exists len :: IsBlock(s, a, len)
    ensures Freeable(s, a)
  {
    hide Inv, Sound, IsBlock, PagesOk, OwnersOk, ZonesOk, ListsOk, UsageOk, Size;
    var len :| IsBlock(s, a, len);
    InvSound(s);
    BlockUsage(s, a, len);
    if s.usage[a / 4096].Small? {
      LiveInside(s, a / 4096 - s.usage[a / 4096].page, a);
    }
    SoundParts(s);
  }

  // rt_free
  function FreeBlock(s: State, a: nat): State
    requires Inv(s) && (a == 0 || exists len :: IsBlock(s, a, len))
  {
    if a == 0 then s
    else
      BlockFreeable(s, a);
      match s.usage[a / 4096]
      case Large(n) => FreeLarge(s, a / 4096, n)
      case Small(page) => FreeChunk(s, a / 4096 - page, a)
  }

  lemma FreeKeeps(s: State, a: nat)
    requires Inv(s) && (a == 0 || exists len :: IsBlock(s, a, len))
    ensures Inv(FreeBlock(s, a))
  {
    hide Inv, Sound, FreeLarge, FreeChunk, IsBlock;
    if a != 0 {
      var len :| IsBlock(s, a, len);
      InvSound(s);
      BlockUsage(s, a, len);
      match s.usage[a / 4096]
      case Large(n) => FreeLargeKeeps(s, a / 4096);
      case Small(page) => FreeChunkKeeps(s, a / 4096 - page, a);
    }
  }

  // The blocks of s', those of s, and one more at a.
  ghost predicate BlockAdded(s: State, s': State, a: nat, len: nat) {
    && (forall b, l :: IsBlock(s', b, l) ==> IsBlock(s, b, l) || (b == a && l == len))
    && (forall b, l :: IsBlock(s, b, l) ==> IsBlock(s', b, l) && b != a) && IsBlock(s', a, len)
  }

  lemma LiveAdded(s: State, s': State, z: nat, a: nat)
    requires Sound(s') && s'.large == s.large && z in s'.zones && z !in s'.large && a in s'.zones[z].live
    requires forall y :: y in s'.zones && y != z ==> y in s.zones && s.zones[y] == s'.zones[y]
    requires forall y :: y in s.zones ==> y in s'.zones && (y != z ==> s'.zones[y] == s.zones[y])
    requires z in s.zones ==>
      s'.zones[z].live == s.zones[z].live + {a} && s'.zones[z].index == s.zones[z].index && a !in s.zones[z].live
    requires z !in s.zones ==> s'.zones[z].live == {a}
    ensures BlockAdded(s, s', a, Size(s'.zones[z].index))
  {
    hide Sound, Size;
    var len := Size(s'.zones[z].index);
    assert OwnedBy(s', a, len, z);
    forall b, l | IsBlock(s', b, l) ensures IsBlock(s, b, l) || (b == a && l == len) {
      var p :| OwnedBy(s', b, l, p);
      if !(b == a && p == z) {
        assert OwnedBy(s, b, l, p);
      }
    }
    forall b, l | IsBlock(s, b, l) ensures IsBlock(s', b, l) && b != a {
      var p :| OwnedBy(s, b, l, p);
      assert OwnedBy(s', b, l, p);
      if b == a {
        OneOwner(s', a, l, p, len, z);
      }
    }
  }

  lemma LargeBlockAdded(s: State, s': State, p: nat)
    requires Sound(s') && s'.zones == s.zones && p !in s.large && p in s'.large && s'.large == s.large[p := s'.large[p]]
    requires p !in s.zones
    ensures BlockAdded(s, s', p * 4096, s'.large[p] * 4096)
  {
    hide Sound, Size;
    var a, len := p * 4096, s'.large[p] * 4096;
    assert OwnedBy(s', a, len, p);
    forall b, l | IsBlock(s', b, l) ensures IsBlock(s, b, l) || (b == a && l == len) {
      var q :| OwnedBy(s', b, l, q);
      if q != p {
        assert OwnedBy(s, b, l, q);
      }
    }
    forall b, l | IsBlock(s, b, l) ensures IsBlock(s', b, l) && b != a {
      var q :| OwnedBy(s, b, l, q);
      assert OwnedBy(s', b, l, q);
      if b == a {
        OneOwner(s', a, l, q, len, p);
      }
    }
  }

  function BlockSize(zoneSize: nat, size: nat): nat {
    if size >= ZoneLimit(zoneSize) then RoundUp(size, 4096) else ZoneIndex(size).1
  }

  lemma FirstListed(lists: seq<seq<nat>>, zones: map<nat, Zone>, index: nat)
    requires ListsOk(lists, zones) && index < NZONES && lists[index] != []
    ensures var z := lists[index][0]; z in zones && zones[z].index == index && zones[z].nfree > 0
  {
    assert lists[index][0] in lists[index];
    hide Distinct;
  }

  lemma FromZoneAdds(s: State, index: nat)
    requires Inv(s) && index < NZONES && s.lists[index] != []
    ensures var (s', r) := FromZone(s, index); Inv(s') && r.Some? && BlockAdded(s, s', r.value, Size(index))
  {
    hide Inv, Sound, TakeChunk, ZoneInv, BlockAdded, OwnersOk, PagesOk, ListsOk, UsageOk, Size;
    InvSound(s);
    InvParts(s);
    var z := s.lists[index][0];
    FirstListed(s.lists, s.zones, index);
    TakeChunkKeeps(z, s.zones[z], s.zoneSize);
    TakeChunkFields(z, s.zones[z]);
    FromZoneKeeps(s, index);
    var (s', r) := FromZone(s, index);
    InvSound(s');
    LiveAdded(s, s', z, r.value);
  }

  lemma InvSound(s: State)
    requires Inv(s)
    ensures Sound(s) && forall z :: z in s.zones ==> z !in s.large
  {
    hide PagesOk, ZonesOk, ListsOk, UsageOk, Distinct;
  }

  lemma FromNewZoneAdds(s: State, index: nat)
    requires Inv(s) && index < NZONES && Roomy(s.zoneSize, index)
    ensures var (s', r) := FromNewZone(s, index);
            Inv(s') && (r.None? ==> s' == s) && (r.Some? ==> BlockAdded(s, s', r.value, Size(index)))
  {
    hide Inv, Sound, ChunkAt, ZoneInv, BlockAdded, MarkSmall, Allocated, Size, MaxChunks, NewZone, OwnersOk, PagesOk,
      ZonesOk, ListsOk, UsageOk;
    InvParts(s);
    FromNewZoneKeeps(s, index);
    var (s', r) := FromNewZone(s, index);
    if r.Some? {
      var z := if s.retired != [] then s.retired[0] else Allocated(s.runs, ZonePages(s)).1.value;
      if s.retired != [] {
        FirstRetired(s);
      } else {
        PagesTaken(s.runs, s.spans, ZonePages(s));
        OwnersSpans(s);
      }
      NewZoneFields(z, index, s.zoneSize);
      InvSound(s');
      LiveAdded(s, s', z, r.value);
    }
  }

  lemma MallocLargeAdds(s: State, size: nat)
    requires Inv(s) && size > 0
    ensures var (s', r) := MallocLarge(s, size);
            && Inv(s') && (r.None? ==> s' == s) && RoundUp(size, 4096) >= size
            && (r.Some? ==> BlockAdded(s, s', r.value, RoundUp(size, 4096)))
  {
    MallocLargeKeeps(s, size);
    RoundUpIs(size, 4096);
    var n := RoundUp(size, 4096) / 4096;
    var (s', r) := MallocLarge(s, size);
    if r.Some? {
      PagesTaken(s.runs, s.spans, n);
      var p := Allocated(s.runs, n).1.value;
      assert p !in s.spans && p !in s.large && p !in s.zones;
      hide Inv, Sound, BlockAdded, Allocated, RoundUp;
      InvSound(s');
      LargeBlockAdded(s, s', p);
    }
  }

  /** rt_malloc adds one block of at least the requested size, which overlaps no block in use, or changes nothing. */
  lemma MallocAddsBlock(s: State, size: nat)
    requires Inv(s) && size > 0
    ensures var (s', r) := Malloc(s, size);
            && Inv(s') && (r.None? ==> s' == s) && BlockSize(s.zoneSize, size) >= size
            && (r.Some? ==> BlockAdded(s, s', r.value, BlockSize(s.zoneSize, size)))
  {
    if size >= ZoneLimit(s.zoneSize) {
      MallocLargeAdds(s, size);
    } else {
      RequestIsRoomy(s.zoneSize, size);
      var index := ZoneIndex(size).0;
      if s.lists[index] != [] {
        FromZoneAdds(s, index);
      } else {
        FromNewZoneAdds(s, index);
      }
    }
    hide Inv, FromZone, FromNewZone, MallocLarge, BlockAdded, Roomy, Size, ZoneIndex, RoundUp;
  }

  /** It fails only if there are not enough consecutive free pages, and a small request also only without
      other chunks. */
  lemma MallocFailsExactly(s: State, size: nat)
    requires Inv(s) && size > 0
    ensures var large := size >= ZoneLimit(s.zoneSize);
            var n := if large then RoundUp(size, 4096) / 4096 else ZonePages(s);
            Malloc(s, size).1 == None <==>
              && (forall start :: !AllFree(s.runs, start, n))
              && (large || (0 <= ZoneIndex(size).0 < |s.lists| && s.lists[ZoneIndex(size).0] == [] && s.retired == []))
  {
    var large := size >= ZoneLimit(s.zoneSize);
    var n := if large then RoundUp(size, 4096) / 4096 else ZonePages(s);
    RoundUpIs(size, 4096);
    if !large {
      RequestIsRoomy(s.zoneSize, size);
    }
    hide ZoneInv, Distinct, UsageOk, TakeChunk, RoundUp, ZoneIndex;
    AllocFailsExactly(s.runs, n);
  }

  lemma AllocFailsExactly(runs: seq<Run>, n: nat)
    requires Canonical(runs, 1) && n > 0
    ensures Allocated(runs, n).1 == None <==> forall start :: !AllFree(runs, start, n)
  {
    AllocatedWasFree(runs, 1, n);
    hide Canonical, Allocated, AllFree;
    forall start | AllFree(runs, start, n) ensures Allocated(runs, n).1 != None {
      AllocatedIsLowest(runs, 1, n, start);
    }
  }

  // The blocks of s', those of s without the one at a.
  ghost predicate BlockRemoved(s: State, s': State, a: nat) {
    && (forall b, l :: IsBlock(s', b, l) ==> IsBlock(s, b, l) && b != a)
    && (forall b, l :: IsBlock(s, b, l) && b != a ==> IsBlock(s', b, l))
  }

  lemma OwnersShrunk(s: State, s': State, a: nat, len: nat, p: nat)
    requires Sound(s) && OwnedBy(s, a, len, p)
    requires forall q, b, l :: q != p ==> (OwnedBy(s', b, l, q) <==> OwnedBy(s, b, l, q))
    requires forall b, l :: OwnedBy(s', b, l, p) <==> OwnedBy(s, b, l, p) && b != a
    ensures BlockRemoved(s, s', a)
  {
    hide Sound, OwnedBy;
    forall b, l | IsBlock(s', b, l) ensures IsBlock(s, b, l) && b != a {
      var q :| OwnedBy(s', b, l, q);
      assert OwnedBy(s, b, l, q);
      if b == a {
        OneOwner(s, a, len, p, l, q);
      }
    }
    forall b, l | IsBlock(s, b, l) && b != a ensures IsBlock(s', b, l) {
      var q :| OwnedBy(s, b, l, q);
      assert OwnedBy(s', b, l, q);
    }
  }

  lemma FreeLargeRemoves(s: State, p: nat)
    requires Inv(s) && p in s.large
    ensures BlockRemoved(s, FreeLarge(s, p, s.large[p]), p * 4096)
  {
    InvSound(s);
    hide Inv, Sound, BlockRemoved;
    OwnersShrunk(s, FreeLarge(s, p, s.large[p]), p * 4096, s.large[p] * 4096, p);
  }

  lemma FreeChunkRemoves(s: State, z: nat, a: nat)
    requires Inv(s) && z in s.zones && a in s.zones[z].live && s.zones[z].index < |s.lists|
    ensures BlockRemoved(s, FreeChunk(s, z, a), a)
  {
    InvSound(s);
    assert ZoneInv(z, s.zones[z], s.zoneSize);
    GiveChunkKeeps(z, s.zones[z], s.zoneSize, a);
    ReleaseOwners(s, z, a);
    hide Inv, Sound, BlockRemoved, FreeChunk;
    OwnersShrunk(s, FreeChunk(s, z, a), a, Size(s.zones[z].index), z);
  }

  // A free changes the blocks of its zone alone, and the zone is retired only when it has none.
  lemma ReleaseOwners(s: State, z: nat, a: nat)
    requires z in s.zones && s.zones[z].index < |s.lists| && z !in s.large
    requires var zn := GiveChunk(s.zones[z], a); zn.nfree == zn.nmax ==> zn.live == {}
    ensures var s' := FreeChunk(s, z, a);
            && (forall q, b, l :: q != z ==> (OwnedBy(s', b, l, q) <==> OwnedBy(s, b, l, q)))
            && (forall b, l :: OwnedBy(s', b, l, z) <==> OwnedBy(s, b, l, z) && b != a)
  {
    hide Size, Freed, MarkUnused, Without;
    var s', zn := FreeChunk(s, z, a), GiveChunk(s.zones[z], a);
    assert s'.large == s.large;
    if z in s'.zones {
      assert s'.zones == s.zones[z := zn];
    } else {
      assert s'.zones == s.zones - {z};
      assert forall b :: b in s.zones[z].live && b != a ==> b in zn.live;
    }
  }

  /** rt_free removes exactly the block it is given. */
  lemma FreeRemovesBlock(s: State, a: nat, len: nat)
    requires Inv(s) && IsBlock(s, a, len)
    ensures Inv(FreeBlock(s, a)) && BlockRemoved(s, FreeBlock(s, a), a)
  {
    hide Inv, Sound, IsBlock, FreeLarge, FreeChunk, BlockRemoved;
    FreeKeeps(s, a);
    InvSound(s);
    BlockUsage(s, a, len);
    match s.usage[a / 4096] {
      case Large(n) => FreeLargeRemoves(s, a / 4096);
      case Small(page) =>
        BlockFreeable(s, a);
        FreeChunkRemoves(s, a / 4096 - page, a);
    }
  }

  // The free pages gain these pages, or lose them, and no others change.
  ghost predicate PagesBack(runs: seq<Run>, after: seq<Run>, start: nat, n: nat) {
    forall p: nat :: Free(after, p) <==> Free(runs, p) || start <= p < start + n
  }

  ghost predicate PagesOut(runs: seq<Run>, after: seq<Run>, start: nat, n: nat) {
    forall p: nat :: Free(after, p) <==> Free(runs, p) && !(start <= p < start + n)
  }

  /** An allocation takes pages exactly when it says so: those of a large block, or those of a zone if none with a chunk
      is listed and none is retired. */
  lemma MallocPages(s: State, size: nat)
    requires Inv(s) && size > 0 && Malloc(s, size).1.Some?
    ensures var s', a := Malloc(s, size).0, Malloc(s, size).1.value;
            var index := ZoneIndex(size).0;
            if size >= ZoneLimit(s.zoneSize) then
              a % 4096 == 0 && PagesOut(s.runs, s'.runs, a / 4096, RoundUp(size, 4096) / 4096)
            else if 0 <= index < |s.lists| && s.lists[index] == [] && s.retired == [] then
              exists z: nat :: z !in s.zones && z in s'.zones && PagesOut(s.runs, s'.runs, z, ZonePages(s))
            else s'.runs == s.runs
  {
    hide Inv, RoundUp, ZoneIndex, TakeChunk, NewZone, MarkSmall, Canonical, Free, Allocated, ChunkAt, MaxChunks, Size;
    InvParts(s);
    if size >= ZoneLimit(s.zoneSize) {
      RoundUpIs(size, 4096);
      AllocatedOut(s.runs, s.spans, RoundUp(size, 4096) / 4096);
      DivOfMultiple(Allocated(s.runs, RoundUp(size, 4096) / 4096).1.value, 4096);
    } else {
      RequestIsRoomy(s.zoneSize, size);
      var index := ZoneIndex(size).0;
      if s.lists[index] == [] && s.retired == [] {
        AllocatedOut(s.runs, s.spans, ZonePages(s));
        OwnersSpans(s);
        var z := Allocated(s.runs, ZonePages(s)).1.value;
        assert z in Malloc(s, size).0.zones;
      }
    }
  }

  lemma AllocatedOut(runs: seq<Run>, spans: map<nat, nat>, n: nat)
    requires PagesOk(runs, spans) && n > 0
    ensures var (after, start) := Allocated(runs, n);
            start.Some? ==> start.value !in spans && PagesOut(runs, after, start.value, n)
  {
    hide Canonical, Free, NoneFree, Apart;
    AllocatedKeeps(runs, 1, n);
    if Allocated(runs, n).1.Some? {
      PagesTaken(runs, spans, n);
    }
  }

  /** A free of a large block gives back its pages. */
  lemma FreeGivesBack(s: State, a: nat, len: nat)
    requires Inv(s) && IsBlock(s, a, len) && a / 4096 in s.large && a == a / 4096 * 4096
    ensures len == s.large[a / 4096] * 4096 && PagesBack(s.runs, FreeBlock(s, a).runs, a / 4096, s.large[a / 4096])
  {
    hide Inv, Sound, Canonical, Free, Freed, Size;
    InvParts(s);
    InvSound(s);
    var p := a / 4096;
    assert OwnedBy(s, a, s.large[p] * 4096, p);
    BlocksApart(s, a, len, a, s.large[p] * 4096);
    BlockUsage(s, a, len);
    LargeSpan(s, p);
    LargeBack(s, p);
    LargeUsed(s, p);
  }

  lemma LargeUsed(s: State, p: nat)
    requires Sound(s) && p in s.large
    ensures p in s.usage && s.usage[p] == Large(s.large[p])
  {
    hide PagesOk, ZonesOk, ListsOk, OwnersOk;
  }

  lemma LargeBack(s: State, p: nat)
    requires Sound(s) && p in s.large
    ensures PagesBack(s.runs, Freed(s.runs, p, s.large[p]), p, s.large[p])
  {
    hide UsageOk, ZonesOk, ListsOk, Distinct, Free;
    LargeSpan(s, p);
    SoundParts(s);
    FreedKeeps(s.runs, 1, p, s.large[p]);
  }

  /** A free of a chunk retires its zone exactly if no other chunk of it is in use and another zone is on the list of
      its index. Up to two retired zones are kept, and with two already there the pages are given back. */
  lemma RetiresExactly(s: State, z: nat, a: nat)
    requires Inv(s) && z in s.zones && a in s.zones[z].live
    ensures s.zones[z].index < NZONES == |s.lists|
    ensures var s', zn := FreeChunk(s, z, a), s.zones[z];
            var retires := zn.live == {a} && exists y :: y in s.lists[zn.index] && y != z;
            && (forall y :: y in s.zones && y != z ==> y in s'.zones && s'.zones[y] == s.zones[y])
            && (z in s'.zones <==> !retires) && (!retires ==> s'.runs == s.runs && s'.retired == s.retired)
            && (retires && |s.retired| < RELEASE_THRESH ==> s'.retired == [z] + s.retired && s'.runs == s.runs)
            && (retires && |s.retired| == RELEASE_THRESH ==> s'.retired == s.retired && z !in s'.spans)
            && (retires && |s.retired| == RELEASE_THRESH ==>
                 PagesBack(s.runs, s'.runs, z, ZonePages(s)))
  {
    hide Inv, Sound, Freed, MarkUnused, Without, Canonical, Free, ZoneInv;
    InvParts(s);
    GivenKeeps(s, z, a);
    GivenCount(s, z, a);
    OthersListed(s, z, a);
    ZoneSpan(s, z);
    ZoneFreed(s, z);
    assert ([z] + s.retired)[1..] == s.retired;
  }

  // With the chunk back, the zone's count is full exactly if no other chunk is in use.
  lemma GivenCount(s: State, z: nat, a: nat)
    requires Inv(s) && z in s.zones && a in s.zones[z].live && s.zones[z].index < |s.lists|
    ensures var zn := Given(s, z, a).zones[z]; zn.nfree == zn.nmax <==> s.zones[z].live == {a}
  {
    InvParts(s);
    assert ZoneInv(z, s.zones[z], s.zoneSize);
    var live := s.zones[z].live;
    assert |live - {a}| == |live| - 1;
    assert live == {a} <==> live - {a} == {};
    hide PagesOk, OwnersOk, ListsOk, UsageOk, Chunk, Roomy;
  }

  // With the chunk back, the zone is alone on its list exactly if no other zone was on it.
  lemma OthersListed(s: State, z: nat, a: nat)
    requires Inv(s) && z in s.zones && a in s.zones[z].live && s.zones[z].index < |s.lists|
    ensures var index := s.zones[z].index;
            Given(s, z, a).lists[index] != [z] <==> exists y :: y in s.lists[index] && y != z
  {
    InvParts(s);
    ListedExactly(s, z);
    var index := s.zones[z].index;
    ListDistinct(s, index);
    var list := s.lists[index];
    if Given(s, z, a).lists[index] != [z] && |list| > 0 {
      if list[0] == z {
        assert list != [z] ==> |list| > 1 && list[1] in list && list[1] != z;
      } else {
        assert list[0] in list;
      }
    }
    hide PagesOk, OwnersOk, ZonesOk, UsageOk, ListsOk;
  }

  lemma ZoneFreed(s: State, z: nat)
    requires Inv(s) && z in s.zones
    ensures PagesBack(s.runs, Freed(s.runs, z, ZonePages(s)), z, ZonePages(s))
  {
    hide UsageOk, ZonesOk, ListsOk, Distinct;
    ZoneSpan(s, z);
    InvParts(s);
    FreedKeeps(s.runs, 1, z, ZonePages(s));
  }

  datatype Step = MallocStep(size: nat) | FreeStep(a: nat)

  // Only blocks in use, or a null pointer, are freed.
  ghost predicate Enabled(s: State, step: Step) {
    step.FreeStep? ==> step.a == 0 || exists len :: IsBlock(s, step.a, len)
  }

  function Apply(s: State, step: Step): State
    requires Inv(s) && Enabled(s, step)
  {
    match step
    case MallocStep(size) => Malloc(s, size).0
    case FreeStep(a) => FreeBlock(s, a)
  }

  lemma StepKeeps(s: State, step: Step)
    requires Inv(s) && Enabled(s, step)
    ensures Inv(Apply(s, step))
  {
    hide Inv, IsBlock, Malloc, FreeBlock;
    match step
    case MallocStep(size) => MallocKeeps(s, size);
    case FreeStep(a) => FreeKeeps(s, a);
  }

  ghost predicate History(s: State, steps: seq<Step>)
    requires Inv(s)
    decreases |steps|
  {
    steps == [] || (Enabled(s, steps[0]) && (StepKeeps(s, steps[0]); History(Apply(s, steps[0]), steps[1..])))
  }

  ghost function After(s: State, steps: seq<Step>): State
    requires Inv(s) && History(s, steps)
    decreases |steps|
  {
    if steps == [] then s else (StepKeeps(s, steps[0]); After(Apply(s, steps[0]), steps[1..]))
  }

  /** After every history the invariant holds, so no two of the blocks in use overlap. */
  lemma {:induction false} HistoryKeeps(s: State, steps: seq<Step>)
    requires Inv(s) && History(s, steps)
    ensures Inv(After(s, steps))
    decreases |steps|
  {
    hide Inv, Apply, Enabled;
    if steps != [] {
      StepKeeps(s, steps[0]);
      HistoryKeeps(Apply(s, steps[0]), steps[1..]);
    }
  }

  // The pages of a block in use are not free.
  lemma LargeIsUsed(s: State, a: nat)
    requires Inv(s) && a / 4096 in s.usage && s.usage[a / 4096].Large? && exists len :: IsBlock(s, a, len)
    ensures var n := s.usage[a / 4096].pages; a / 4096 > 0 && n > 0 && NoneFree(s.runs, a / 4096, n)
  {
    hide Inv, Sound, IsBlock;
    var len :| IsBlock(s, a, len);
    InvSound(s);
    BlockUsage(s, a, len);
    LargeSpan(s, a / 4096);
  }

  lemma LargeSpan(s: State, p: nat)
    requires Sound(s) && p in s.large
    ensures p > 0 && s.large[p] > 0 && NoneFree(s.runs, p, s.large[p])
  {
    hide UsageOk, ZonesOk, ListsOk, Distinct, Canonical, NoneFree;
  }

  function Empty(zoneSize: nat, runs: seq<Run>, spans: map<nat, nat>): State {
    State(zoneSize, runs, spans, map[], seq(NZONES, i => []), [], map[], map[])
  }

  lemma EmptyInv(zoneSize: nat, runs: seq<Run>, spans: map<nat, nat>)
    requires ZoneSize(zoneSize) && PagesOk(runs, spans)
    ensures Inv(Empty(zoneSize, runs, spans))
  {
  }

  method TakeFromZone(z: nat, zn: Zone) returns (after: Zone, chunk: nat)
    requires zn.index < NZONES && zn.nfree > 0 && (zn.uindex + 1 == zn.nmax ==> zn.chunks != [])
    ensures (after, chunk) == TakeChunk(z, zn)
  {
    after := zn.(nfree := zn.nfree - 1);
    if zn.uindex + 1 != zn.nmax {
      after := after.(uindex := zn.uindex + 1);
      chunk := ChunkAt(z, zn.index, after.uindex);
    } else {
      chunk := zn.chunks[0];
      after := after.(chunks := zn.chunks[1..]);
    }
    after := after.(live := zn.live + {chunk});
  }

  method MarkZone(usage: map<nat, Usage>, z: nat, pages: nat) returns (after: map<nat, Usage>)
    ensures after == MarkSmall(usage, z, pages)
  {
    after := usage;
    for off := 0 to pages
      invariant after == MarkSmall(usage, z, off)
    {
      after := after[z + off := Small(off)];
    }
  }

  method UnmarkZone(usage: map<nat, Usage>, z: nat, pages: nat) returns (after: map<nat, Usage>)
    ensures after == MarkUnused(usage, z, pages)
  {
    after := usage;
    for i := 0 to pages
      invariant after == MarkUnused(usage, z, i)
    {
      after := after[z + i := Unused];
    }
  }

  lemma ZoneSpan(s: State, z: nat)
    requires Inv(s) && z in s.zones
    ensures z > 0 && ZonePages(s) > 0 && NoneFree(s.runs, z, ZonePages(s))
  {
    hide UsageOk, ZonesOk, ListsOk, Distinct, Canonical, NoneFree;
  }

  lemma ListDistinct(s: State, index: nat)
    requires Inv(s) && index < NZONES
    ensures |s.lists| == NZONES && Distinct(s.lists[index])
  {
    InvParts(s);
    hide PagesOk, OwnersOk, ZonesOk, UsageOk;
  }

  // The search for a zone on its list, and its removal.
  method Unlink(list: seq<nat>, z: nat) returns (after: seq<nat>)
    requires z in list
    ensures exists k :: 0 <= k < |list| && list[k] == z && z !in list[..k] && after == Dropped(list, k)
    ensures Distinct(list) ==> after == Without(list, z)
  {
    var i := 0;
    while list[i] != z
      invariant 0 <= i < |list| && forall j :: 0 <= j < i ==> list[j] != z
      decreases |list| - i
    {
      i := i + 1;
    }
    if Distinct(list) {
      WithoutAt(list, z, i);
    }
    after := list[..i] + list[i + 1..];
    assert after == Dropped(list, i);
  }

  // The zone size for a heap: doubled until it is a 2048th of the heap, or at its largest.
  function FirstZoneSize(npages: nat): nat {
    if 4 * npages <= 65536 then 32768 else if 4 * npages <= 131072 then 65536 else 131072
  }

  function UsagePages(npages: nat): nat {
    RoundUp(npages * 4, 4096) / 4096
  }

  // The state after rt_system_heap_init: the first pages are taken for `memusage`.
  function Initial(start: nat, npages: nat): State {
    Empty(FirstZoneSize(npages), Allocated([Run(start, npages)], UsagePages(npages)).0,
      map[start := UsagePages(npages)])
  }

  lemma InitialInv(start: nat, npages: nat)
    requires start > 0 && npages > 0
    ensures Inv(Initial(start, npages)) && Allocated([Run(start, npages)], UsagePages(npages)).1 == Some(start)
  {
    var n, runs := UsagePages(npages), [Run(start, npages)];
    DivOfMultiple((npages * 4 + 4095) / 4096, 4096);
    assert n == (npages * 4 + 4095) / 4096;
    assert 0 < n <= npages;
    ghost var none: map<nat, nat> := map[];
    assert runs[1..] == [] && Canonical(runs, 1);
    assert forall p :: p !in none;
    PagesTaken(runs, none, n);
    assert map[start := n] == none[start := n];
    EmptyInv(FirstZoneSize(npages), Allocated(runs, n).0, none[start := n]);
    hide Inv, PagesOk;
  }

  class Slab {
    const pages: PageAllocator
    const zoneSize: nat
    var zones: map<nat, Zone>
    var lists: seq<seq<nat>>
    var retired: seq<nat>
    var usage: map<nat, Usage>
    ghost var spans: map<nat, nat>
    ghost var large: map<nat, nat>

    ghost function View(): State
      reads this, pages
    {
      State(zoneSize, pages.runs, spans, zones, lists, retired, large, usage)
    }

    ghost predicate Valid()
      reads this, pages
    {
      pages.Valid() && Inv(View())
    }

    // rt_system_heap_init, with the heap already aligned to pages. The zone size grows with the heap.
    constructor (start: nat, npages: nat)
      requires start > 0 && npages > 0
      ensures Valid() && fresh(pages) && View() == Initial(start, npages)
    {
      InitialInv(start, npages);
      var size := 32768;
      while size < 131072 && 2 * size < npages * 4096 / 1024
        invariant ZoneSize(size) && (size == 32768 || size < npages * 4096 / 1024)
        decreases 131072 - size
      {
        size := 2 * size;
      }
      assert size == FirstZoneSize(npages);
      var allocator := new PageAllocator(start, npages);
      var n := RoundUp(npages * 4, 4096) / 4096;
      RoundUpIs(npages * 4, 4096);
      var memusage := allocator.AllocPages(n);
      pages, zoneSize := allocator, size;
      zones, lists, retired, usage := map[], seq(NZONES, i => []), [], map[];
      spans, large := map[memusage.value := n], map[];
      new;
      assert View() == Initial(start, npages);
    }

    // rt_malloc
    method MallocBytes(size: nat) returns (r: Option<nat>)
      requires Valid()
      modifies this, pages
      ensures Valid() && (View(), r) == Malloc(old(View()), size)
    {
      MallocKeeps(View(), size);
      if size == 0 {
        return None;
      }
      if size >= ZoneLimit(zoneSize) {
        r := MallocPages(size);
        return;
      }
      RequestIsRoomy(zoneSize, size);
      assert |lists| == NZONES;
      var index := ZoneIndex(size).0;
      if lists[index] != [] {
        r := TakeFromList(index);
      } else {
        r := MakeZone(index);
      }
    }

    method MallocPages(size: nat) returns (r: Option<nat>)
      requires pages.Valid() && size > 0
      modifies this, pages
      ensures pages.Valid() && (View(), r) == MallocLarge(old(View()), size)
    {
      RoundUpIs(size, 4096);
      var n := RoundUp(size, 4096) / 4096;
      AllocatedKeeps(pages.runs, 1, n);
      var page := pages.AllocPages(n);
      if page.None? {
        return None;
      }
      var p := page.value;
      usage := usage[p := Large(n)];
      spans, large := spans[p := n], large[p := n];
      return Some(p * 4096);
    }

    // From the first zone on the list of this index.
    method TakeFromList(index: nat) returns (r: Option<nat>)
      requires Valid() && index < NZONES == |lists| && lists[index] != []
      modifies this
      ensures pages.Valid() && (View(), r) == FromZone(old(View()), index)
    {
      var z := lists[index][0];
      assert z in lists[index];
      TakeChunkKeeps(z, zones[z], zoneSize);
      hide Inv, ZoneInv, ChunkAt;
      var zn, chunk := TakeFromZone(z, zones[z]);
      if zn.nfree == 0 {
        lists := lists[index := lists[index][1..]];
      }
      zones := zones[z := zn];
      return Some(chunk);
    }

    // From a retired zone, or from new pages.
    method MakeZone(index: nat) returns (r: Option<nat>)
      requires pages.Valid() && Roomy(zoneSize, index) && index < |lists| && zoneSize >= 4096
      modifies this, pages
      ensures pages.Valid() && (View(), r) == FromNewZone(old(View()), index)
    {
      var z: nat;
      if retired != [] {
        z := retired[0];
        retired := retired[1..];
      } else {
        AllocatedKeeps(pages.runs, 1, zoneSize / 4096);
        var page := pages.AllocPages(zoneSize / 4096);
        if page.None? {
          return None;
        }
        z := page.value;
        spans := spans[z := zoneSize / 4096];
        usage := MarkZone(usage, z, zoneSize / 4096);
      }
      var nmax := MaxChunks(zoneSize, Size(index));
      var chunk := ChunkAt(z, index, 0);
      zones := zones[z := Zone(index, nmax, nmax - 1, 0, [], {chunk})];
      lists := lists[index := [z] + lists[index]];
      return Some(chunk);
    }

    // rt_free
    method FreeBytes(a: nat)
      requires Valid() && (a == 0 || exists len :: IsBlock(View(), a, len))
      modifies this, pages
      ensures Valid() && View() == FreeBlock(old(View()), a)
    {
      FreeKeeps(View(), a);
      hide Inv, Sound, IsBlock, FreeLarge, FreeChunk;
      if a == 0 {
        return;
      }
      BlockFreeable(View(), a);
      var page := a / 4096;
      match usage[page]
      case Large(n) =>
        LargeIsUsed(View(), a);
        FreeLargePages(page, n);
      case Small(offset) =>
        FreeToZone(page - offset, a);
    }

    method FreeLargePages(page: nat, n: nat)
      requires pages.Valid() && page > 0 && n > 0 && NoneFree(pages.runs, page, n)
      modifies this, pages
      ensures pages.Valid() && View() == FreeLarge(old(View()), page, n)
    {
      usage := usage[page := Large(0)];
      spans, large := spans - {page}, large - {page};
      pages.FreePages(page, n);
    }

    method FreeToZone(z: nat, a: nat)
      requires Valid() && |lists| == NZONES && z in zones && zones[z].index < NZONES && a in zones[z].live
      modifies this, pages
      ensures pages.Valid() && View() == FreeChunk(old(View()), z, a)
    {
      GivenKeeps(View(), z, a);
      hide Inv, Given, Retire;
      GiveToZone(z, a);
      ListedExactly(View(), z);
      if zones[z].nfree == zones[z].nmax && lists[zones[z].index] != [z] {
        RetireZone(z);
      }
    }

    method GiveToZone(z: nat, a: nat)
      requires |lists| == NZONES && z in zones && zones[z].index < NZONES
      modifies this`zones, this`lists
      ensures View() == Given(old(View()), z, a)
    {
      var zn := zones[z];
      zones := zones[z := zn.(chunks := [a] + zn.chunks, live := zn.live - {a}, nfree := zn.nfree + 1)];
      if zn.nfree == 0 {
        lists := lists[zn.index := [z] + lists[zn.index]];
      } else {
        assert lists == lists[zn.index := lists[zn.index]];
      }
    }

    method RetireZone(z: nat)
      requires Valid() && |lists| == NZONES && z in zones && zones[z].index < NZONES && z in lists[zones[z].index]
      modifies this, pages
      ensures pages.Valid() && View() == Retire(old(View()), z)
    {
      hide Inv, Without, Freed, MarkUnused, NoneFree;
      ZoneSpan(View(), z);
      var index := zones[z].index;
      ListDistinct(View(), index);
      var list := Unlink(lists[index], z);
      lists := lists[index := list];
      zones := zones - {z};
      retired := [z] + retired;
      ReleaseZone();
    }

    // The zone retired last is given back if there are three of them.
    method ReleaseZone()
      requires pages.Valid() && retired != [] && retired[0] > 0 && zoneSize / 4096 > 0
      requires NoneFree(pages.runs, retired[0], zoneSize / 4096)
      modifies this, pages
      ensures pages.Valid() && View() == Release(old(View()))
    {
      hide Freed, MarkUnused, NoneFree;
      if |retired| > RELEASE_THRESH {
        var y := retired[0];
        retired := retired[1..];
        usage := UnmarkZone(usage, y, zoneSize / 4096);
        spans := spans - {y};
        pages.FreePages(y, zoneSize / 4096);
      }
    }
  }
}
