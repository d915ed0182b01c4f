/** The size classes of rt-smart/src/slab.c, and how a zone of equal chunks is laid out for one of them. */
module SizeClass {
  const NZONES := 72

  // sizeof(slab_zone) on the 64-bit boards
  const ZONE_HEADER := 56

  // A mask with the low bits of a power of two cleared rounds down to its multiples.
  function RoundUp(n: nat, unit: nat): (r: nat)
    requires unit > 0
  {
    (n + unit - 1) / unit * unit
  }

  lemma RoundUpIs(n: nat, unit: nat)
    requires unit > 0
    ensures var r := RoundUp(n, unit); r == r / unit * unit && n <= r < n + unit && (n % unit == 0 ==> r == n)
  {
    var q := (n + unit - 1) / unit;
    DivOfMultiple(q, unit);
    assert (n + unit - 1) == q * unit + (n + unit - 1) % unit;
    if n % unit == 0 {
      var p := n / unit;
      assert n + unit - 1 == p * unit + (unit - 1);
      if q != p {
        assert q >= p + 1 || q <= p - 1;
        if q >= p + 1 {
          MultipleMonotone(p + 1, q, unit);
        } else {
          MultipleMonotone(q, p - 1, unit);
        }
      }
    }
  }

  lemma DivOfMultiple(q: nat, unit: nat)
    requires unit > 0
    ensures q * unit / unit == q && q * unit % unit == 0
  {
    var d := q * unit / unit;
    assert q * unit == d * unit + q * unit % unit;
    if d < q {
      MultipleMonotone(d + 1, q, unit);
    } else if d > q {
      MultipleMonotone(q + 1, d, unit);
    }
  }

  lemma {:induction false} MultipleMonotone(a: int, b: int, unit: nat)
    requires a <= b
    ensures a * unit <= b * unit
  {
    assert (b - a) * unit >= 0;
  }

  // The distance of the chunk sizes near a request, and what that class adds to its index.
  function Unit(bytes: nat): (nat, int) {
    if bytes < 128 then (8, -1)
    else if bytes < 256 then (16, 7)
    else if bytes < 512 then (32, 15)
    else if bytes < 1024 then (64, 23)
    else if bytes < 2048 then (128, 31)
    else if bytes < 4096 then (256, 39)
    else if bytes < 8192 then (512, 47)
    else (1024, 55)
  }

  // zoneindex: the index of the zone, and the chunk size that the request is rounded up to.
  function ZoneIndex(bytes: nat): (int, nat) {
    if bytes < 16384 then
      var (unit, base) := Unit(bytes);
      var n := RoundUp(bytes, unit);
      (n / unit + base, n)
    else (0, bytes)
  }

  // The chunk size of each zone index.
  function ChunkSize(index: int): int {
    if index < 16 then 8 * (index + 1)
    else if index < 24 then 16 * (index - 7)
    else if index < 32 then 32 * (index - 15)
    else if index < 40 then 64 * (index - 23)
    else if index < 48 then 128 * (index - 31)
    else if index < 56 then 256 * (index - 39)
    else if index < 64 then 512 * (index - 47)
    else 1024 * (index - 55)
  }

  // A request's chunk is large enough, wastes less than eight bytes or an eighth, and depends on the index only.
  lemma ZoneIndexFits(n: nat)
    requires 1 <= n < 16384
    ensures var (index, bytes) := ZoneIndex(n);
            && 0 <= index < NZONES && bytes == ChunkSize(index) && bytes % 8 == 0
            && n <= bytes <= 16384 && (bytes - n < 8 || (bytes - n) * 8 < n)
  {
    var (unit, base) := Unit(n);
    RoundUpIs(n, unit);
    var q := RoundUp(n, unit) / unit;
    IndexOf(n, q);
    hide RoundUp;
  }

  // The steps that round a request up are within its class.
  lemma IndexOf(n: nat, q: nat)
    requires 1 <= n < 16384 && n <= q * Unit(n).0 < n + Unit(n).0
    ensures var (unit, base) := Unit(n);
            && 0 <= q + base < NZONES && q * unit == ChunkSize(q + base) && q * unit % 8 == 0
            && q * unit <= 16384 && (unit == 8 || unit * 8 <= n)
  {
  }

  /** Larger requests have no smaller index, and requests of one index share their chunk size. */
  lemma ZoneIndexMonotone(m: nat, n: nat)
    requires 1 <= m <= n < 16384
    ensures ZoneIndex(m).0 <= ZoneIndex(n).0
    ensures ZoneIndex(m).0 == ZoneIndex(n).0 <==> ZoneIndex(m).1 == ZoneIndex(n).1
  {
    ZoneIndexFits(m);
    ZoneIndexFits(n);
    IndexBelow(m);
    IndexBelow(n);
    if ZoneIndex(m).0 > ZoneIndex(n).0 {
      ChunkSizeIncreases(ZoneIndex(n).0, ZoneIndex(m).0);
    }
    if ZoneIndex(m).0 < ZoneIndex(n).0 {
      ChunkSizeIncreases(ZoneIndex(m).0, ZoneIndex(n).0);
    }
  }

  // The next smaller chunk would not be large enough.
  lemma IndexBelow(n: nat)
    requires 1 <= n < 16384
    ensures var index := ZoneIndex(n).0; index > 0 ==> ChunkSize(index - 1) < n
  {
  }

  lemma ChunkSizeIncreases(i: int, j: int)
    requires 0 <= i < j < NZONES
    ensures ChunkSize(i) < ChunkSize(j)
  {
  }

  predicate PowerOfTwo(n: nat) {
    n == 1 || (n > 1 && n % 2 == 0 && PowerOfTwo(n / 2))
  }

  // Where the chunks of a zone begin, from the zone's own address.
  function Offset(size: nat): nat
    requires size > 0
  {
    if PowerOfTwo(size) then RoundUp(ZONE_HEADER, size) else RoundUp(ZONE_HEADER, 8)
  }

  ghost predicate ZoneSize(zoneSize: nat) {
    zoneSize == 32768 || zoneSize == 65536 || zoneSize == 131072
  }

  // Requests from this size on get pages of their own.
  function ZoneLimit(zoneSize: nat): nat {
    if zoneSize / 4 > 16384 then 16384 else zoneSize / 4
  }

  // The largest request that stays below the limit when it is rounded up.
  function LargestRounded(zoneSize: nat): nat {
    if ZoneLimit(zoneSize) == 8192 then 7680 else 15360
  }

  /** Rounding a rounded request again leaves it in its class exactly if it is not so large that it rounds to the limit
      itself, from which on requests are for pages. */
  lemma RoundedTwice(zoneSize: nat, n: nat)
    requires ZoneSize(zoneSize) && 1 <= n < ZoneLimit(zoneSize)
    ensures var bytes := ZoneIndex(n).1;
            (bytes < ZoneLimit(zoneSize) && ZoneIndex(bytes) == ZoneIndex(n)) <==> n <= LargestRounded(zoneSize)
    ensures n > LargestRounded(zoneSize) ==> ZoneIndex(n).1 == ZoneLimit(zoneSize)
  {
    var (index, bytes) := ZoneIndex(n);
    ZoneIndexFits(n);
    IndexBelow(n);
    RoundedToLimit(zoneSize, n);
    if bytes < ZoneLimit(zoneSize) {
      var (again, _) := ZoneIndex(bytes);
      ZoneIndexFits(bytes);
      IndexBelow(bytes);
      hide ZoneIndex;
      if again < index {
        ChunkSizeIncreases(again, index);
      } else if index < again - 1 {
        ChunkSizeIncreases(index, again - 1);
      }
    }
  }

  lemma RoundedToLimit(zoneSize: nat, n: nat)
    requires ZoneSize(zoneSize) && 1 <= n < ZoneLimit(zoneSize)
    ensures if n <= LargestRounded(zoneSize) then ZoneIndex(n).1 < ZoneLimit(zoneSize)
      else ZoneIndex(n).1 == ZoneLimit(zoneSize)
  {
  }

  // One such request for each limit.
  lemma RoundedToPages()
    ensures ZoneIndex(7681).1 == 8192 == ZoneLimit(32768)
    ensures ZoneIndex(15361).1 == 16384 == ZoneLimit(65536)
  {
  }

  // z_nmax
  function MaxChunks(zoneSize: nat, size: nat): int
    requires size > 0
  {
    (zoneSize - Offset(size)) / size
  }

  lemma MultipleOfEight(q: nat, size: nat)
    requires size % 8 == 0
    ensures q * size % 8 == 0
  {
    assert q * size == q * (size / 8) * 8;
  }

  lemma OffsetIs(size: nat)
    requires size > 0 && size % 8 == 0
    ensures ZONE_HEADER <= Offset(size) && Offset(size) % 8 == 0 && Offset(size) <= if size < 56 then 111 else size
    ensures PowerOfTwo(size) ==> Offset(size) % size == 0
  {
    hide RoundUp, PowerOfTwo;
    RoundUpIs(ZONE_HEADER, size);
    RoundUpIs(ZONE_HEADER, 8);
    var q := RoundUp(ZONE_HEADER, size) / size;
    MultipleOfEight(q, size);
    DivOfMultiple(q, size);
    if size >= 56 && q >= 2 {
      MultipleMonotone(2, q, size);
    }
  }

  /** A new zone has at least three chunks, so it is never exhausted by the chunk that it was made for, and as many as
      there is room for. */
  lemma ZoneHasRoom(zoneSize: nat, n: nat)
    requires ZoneSize(zoneSize) && 1 <= n < ZoneLimit(zoneSize)
    ensures var size := ZoneIndex(n).1;
            size > 0 && MaxChunks(zoneSize, size) >= 3 && Offset(size) + MaxChunks(zoneSize, size) * size <= zoneSize
    ensures var size := ZoneIndex(n).1; zoneSize < Offset(size) + MaxChunks(zoneSize, size) * size + size
  {
    ZoneIndexFits(n);
    SizeBelowLimit(zoneSize, n);
    var size := ZoneIndex(n).1;
    OffsetIs(size);
    Quotient(zoneSize - Offset(size), size);
  }

  lemma Quotient(room: nat, size: nat)
    requires size > 0 && 3 * size <= room
    ensures room / size >= 3 && room / size * size <= room < room / size * size + size
  {
    var max := room / size;
    assert room == max * size + room % size;
    if max < 3 {
      MultipleMonotone(max + 1, 3, size);
    }
  }

  lemma SizeBelowLimit(zoneSize: nat, n: nat)
    requires ZoneSize(zoneSize) && 1 <= n < ZoneLimit(zoneSize)
    ensures ZoneIndex(n).1 <= ZoneLimit(zoneSize)
  {
  }
}
