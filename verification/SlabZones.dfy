/** Size classes and chunk geometry of the slab allocator (rt-thread/src/slab.c). */
module SlabZones {
  import opened Alignment
  import opened Words

  const PAGE := 4096
  const NZONES := 72
  const MIN_ZONE_SIZE := 32 * 1024
  const MAX_ZONE_SIZE := 128 * 1024
  const MAX_ZONE_LIMIT := 16 * 1024
  const ZONE_RELEASE_THRESH := 2

  /** What does not change after initialisation.  `header` is the aligned-free size of
      the in-band zone header, `metaPages` the pages taken by the memusage array. */
  datatype Config = Config(npages: nat, metaPages: nat, zoneSize: nat, header: nat) {
    ghost predicate Ok() {
      && (zoneSize == MIN_ZONE_SIZE || zoneSize == 2 * MIN_ZONE_SIZE || zoneSize == MAX_ZONE_SIZE)
      && 8 <= header <= 64
      && 0 < npages * PAGE < WORD
    }

    function ZonePages(): nat { zoneSize / PAGE }

    function ZoneLimit(): nat {
      if zoneSize / 4 > MAX_ZONE_LIMIT then MAX_ZONE_LIMIT else zoneSize / 4
    }

    /** Offset of the chunk array: past the header, aligned up to the chunk size when
        that is a power of two and to eight bytes otherwise. */
    function ChunkOffset(size: nat): nat
      requires size > 0
    {
      if PowerOfTwo(size) then RoundUp(header, size) else RoundUp(header, 8)
    }

    function ChunkCount(size: nat): nat
      requires size > 0 && ChunkOffset(size) <= zoneSize
    {
      Quotient(zoneSize - ChunkOffset(size), size)
    }
  }

  /** How many times d goes into n. */
  function Quotient(n: nat, d: nat): nat
    requires d > 0
  {
    n / d
  }

  function RoundUp(n: nat, a: nat): nat
    requires a > 0
  {
    (n + a - 1) / a * a
  }

  /** RT_ALIGN to a page on a 32-bit size: the addition wraps. */
  function AlignPage(size: nat): nat {
    (size + PAGE - 1) % WORD / PAGE * PAGE
  }

  /** The chunk sizes that are powers of two, as the source's bit test finds them. */
  predicate PowerOfTwo(n: nat) {
    n == 8 || n == 16 || n == 32 || n == 64 || n == 128 || n == 256 || n == 512
    || n == 1024 || n == 2048 || n == 4096 || n == 8192 || n == 16384
  }

  /** The source's test `(n | (n - 1)) + 1 == (n << 1)` is the enumeration above. */
  lemma PowerOfTwoTest(n: bv16)
    requires 8 <= n <= 16384
    ensures (n | (n - 1)) + 1 == n << 1 <==>
            (n == 8 || n == 16 || n == 32 || n == 64 || n == 128 || n == 256 || n == 512
             || n == 1024 || n == 2048 || n == 4096 || n == 8192 || n == 16384)
  {
    assert (n | (n - 1)) + 1 == n << 1 <==> n & (n - 1) == 0;
    assert n & (n - 1) == 0 <==>
           (n == 8 || n == 16 || n == 32 || n == 64 || n == 128 || n == 256 || n == 512
            || n == 1024 || n == 2048 || n == 4096 || n == 8192 || n == 16384);
  }

  /** Zone index and chunk size for a request, branch by branch. */
  function ZoneIndex(n: nat): (int, nat)
    requires 0 < n < MAX_ZONE_LIMIT
  {
    if n < 128 then var m := RoundUp(n, 8); (m / 8 - 1, m)
    else if n < 256 then var m := RoundUp(n, 16); (m / 16 + 7, m)
    else if n < 8192 then
      if n < 512 then var m := RoundUp(n, 32); (m / 32 + 15, m)
      else if n < 1024 then var m := RoundUp(n, 64); (m / 64 + 23, m)
      else if n < 2048 then var m := RoundUp(n, 128); (m / 128 + 31, m)
      else if n < 4096 then var m := RoundUp(n, 256); (m / 256 + 39, m)
      else var m := RoundUp(n, 512); (m / 512 + 47, m)
    else var m := RoundUp(n, 1024); (m / 1024 + 55, m)
  }

  /** The chunking of each size range, and how far its lists are displaced. */
  ghost function Grain(n: nat): (nat, int) {
    if n < 128 then (8, -1) else if n < 256 then (16, 7) else if n < 512 then (32, 15)
    else if n < 1024 then (64, 23) else if n < 2048 then (128, 31) else if n < 4096 then (256, 39)
    else if n < 8192 then (512, 47) else (1024, 55)
  }

  lemma RoundUpExact(n: nat, a: nat) returns (q: nat)
    requires a > 0
    ensures RoundUp(n, a) == q * a && n <= q * a < n + a
  {
    q := (n + a - 1) / a;
    assert n + a - 1 == q * a + (n + a - 1) % a;
  }

  /** All eight branches have one shape. */
  lemma ZoneIndexShape(n: nat) returns (q: nat)
    requires 0 < n < MAX_ZONE_LIMIT
    ensures var (g, shift) := Grain(n);
      ZoneIndex(n) == (q + shift, q * g) && n <= q * g < n + g
  {
    hide RoundUp;
    if n < 128 { q := RoundUpExact(n, 8); }
    else if n < 256 { q := RoundUpExact(n, 16); }
    else if n < 512 { q := RoundUpExact(n, 32); }
    else if n < 1024 { q := RoundUpExact(n, 64); }
    else if n < 2048 { q := RoundUpExact(n, 128); }
    else if n < 4096 { q := RoundUpExact(n, 256); }
    else if n < 8192 { q := RoundUpExact(n, 512); }
    else { q := RoundUpExact(n, 1024); }
  }

  /** The chunk size served by each zone list. */
  function ChunkSize(zi: int): int {
    if zi < 16 then (zi + 1) * 8
    else if zi < 24 then (zi - 7) * 16
    else if zi < 32 then (zi - 15) * 32
    else if zi < 40 then (zi - 23) * 64
    else if zi < 48 then (zi - 31) * 128
    else if zi < 56 then (zi - 39) * 256
    else if zi < 64 then (zi - 47) * 512
    else (zi - 55) * 1024
  }

  /** Every request gets one of the 72 lists, whose chunk size fits it with bounded
      waste and is the chunk size of that list whichever request led there. */
  lemma ZoneIndexFits(n: nat)
    requires 0 < n < MAX_ZONE_LIMIT
    ensures var (zi, m) := ZoneIndex(n);
      && 0 <= zi < NZONES
      && n <= m == ChunkSize(zi)
      && (n > 128 ==> 8 * (m - n) < n)
      && m % 8 == 0
  {
    var q := ZoneIndexShape(n);
    var (g, shift) := Grain(n);
    ShapeFits(n, g, shift, q);
  }

  lemma ShapeFits(n: nat, g: nat, shift: int, q: nat)
    requires 0 < n < MAX_ZONE_LIMIT && (g, shift) == Grain(n) && n <= q * g < n + g
    ensures 0 <= q + shift < NZONES && q * g == ChunkSize(q + shift)
    ensures (n > 128 ==> 8 * (q * g - n) < n) && q * g % 8 == 0
  {
    if n < 128 { assert 1 <= q <= 16; }
    else if n < 256 { assert 8 <= q <= 16; }
    else if n < 512 { assert 8 <= q <= 16; }
    else if n < 1024 { assert 8 <= q <= 16; }
    else if n < 2048 { assert 8 <= q <= 16; }
    else if n < 4096 { assert 8 <= q <= 16; }
    else if n < 8192 { assert 8 <= q <= 16; }
    else { assert 8 <= q <= 16; }
  }

  /** Chunk sizes grow strictly along the lists, so index and size determine each other. */
  lemma ChunkSizeStrict(i: int, j: int)
    requires 0 <= i < j < NZONES
    ensures 8 <= ChunkSize(i) < ChunkSize(j) <= MAX_ZONE_LIMIT
  {
  }

  /** The chunk size of the list before is too small. */
  lemma ShapeAbove(n: nat, g: nat, shift: int, q: nat)
    requires 0 < n < MAX_ZONE_LIMIT && (g, shift) == Grain(n) && n <= q * g < n + g && q + shift > 0
    ensures ChunkSize(q + shift - 1) < n
  {
    if n < 128 { assert 1 <= q <= 16; }
    else if n < 256 { assert 8 <= q <= 16; }
    else if n < 512 { assert 8 <= q <= 16; }
    else if n < 1024 { assert 8 <= q <= 16; }
    else if n < 2048 { assert 8 <= q <= 16; }
    else if n < 4096 { assert 8 <= q <= 16; }
    else if n < 8192 { assert 8 <= q <= 16; }
    else { assert 8 <= q <= 16; }
  }

  lemma ZoneIndexAbove(n: nat)
    requires 0 < n < MAX_ZONE_LIMIT && ZoneIndex(n).0 > 0
    ensures ChunkSize(ZoneIndex(n).0 - 1) < n
  {
    hide ChunkSize;
    var q := ZoneIndexShape(n);
    var (g, shift) := Grain(n);
    ShapeAbove(n, g, shift, q);
  }

  /** Each list serves exactly the requests above the previous list's chunk size. */
  lemma ZoneIndexTight(n: nat, i: int)
    requires 0 < n < MAX_ZONE_LIMIT && 0 <= i < NZONES
    ensures ZoneIndex(n).0 == i <==> (if i == 0 then 0 else ChunkSize(i - 1)) < n <= ChunkSize(i)
  {
    hide ZoneIndex, ChunkSize;
    ZoneIndexFits(n);
    var zi := ZoneIndex(n).0;
    if zi > 0 { ZoneIndexAbove(n); }
    if zi < i - 1 { ChunkSizeStrict(zi, i - 1); }
    if i < zi - 1 { ChunkSizeStrict(i, zi - 1); }
  }

  /** A request below the zone limit rounds to at most a quarter of the zone, so a new
      zone always holds at least three chunks after its header. */
  lemma NewZoneHoldsThree(c: Config, n: nat)
    requires c.Ok() && 0 < n < c.ZoneLimit()
    ensures var size := ZoneIndex(n).1;
      && 0 < size <= c.ZoneLimit()
      && c.header <= c.ChunkOffset(size) <= c.zoneSize
      && c.ChunkCount(size) >= 3
  {
    hide ZoneIndex, RoundUp;
    var size := ZoneIndex(n).1;
    ZoneIndexFits(n);
    assert size <= c.ZoneLimit() by {
      ZoneIndexTight(c.ZoneLimit() - 1, if c.ZoneLimit() == 8192 then 63 else 71);
      ClassMonotone(n, c.ZoneLimit() - 1);
    }
    var off := c.ChunkOffset(size);
    if PowerOfTwo(size) {
      var q := RoundUpExact(c.header, size);
      if size >= 64 { RoundUpOnce(c.header, size); }
    } else {
      var q := RoundUpExact(c.header, 8);
    }
    DivAtLeast(c.zoneSize - off, size, 3);
  }

  /** A larger request never gets a smaller chunk. */
  lemma ClassMonotone(n: nat, m: nat)
    requires 0 < n <= m < MAX_ZONE_LIMIT
    ensures ZoneIndex(n).0 <= ZoneIndex(m).0 && ZoneIndex(n).1 <= ZoneIndex(m).1
  {
    ZoneIndexFits(n);
    ZoneIndexFits(m);
    var i, j := ZoneIndex(n).0, ZoneIndex(m).0;
    ZoneIndexTight(n, i);
    ZoneIndexTight(m, j);
    if j < i {
      ChunkSizeStrict(j, i);
      if j < i - 1 { ChunkSizeStrict(j, i - 1); }
    } else if i < j {
      ChunkSizeStrict(i, j);
    }
  }

  lemma RoundUpOnce(n: nat, a: nat)
    requires 0 < n <= a
    ensures RoundUp(n, a) == a
  {
    assert (n + a - 1) / a == 1;
  }

  lemma DivAtLeast(x: nat, d: nat, q: nat)
    requires d > 0 && q * d <= x
    ensures x / d >= q
  {
    var r := x / d;
    assert x == r * d + x % d;
    assert r < q ==> (r + 1) * d <= q * d;
  }

  /** Address of chunk k, counted from the base of the chunk array. */
  ghost function SlotAddr(base: nat, size: nat, k: nat): nat {
    if k == 0 then base else SlotAddr(base, size, k - 1) + size
  }

  lemma {:induction false} SlotAddrIs(base: nat, size: nat, k: nat)
    ensures SlotAddr(base, size, k) == base + k * size
  {
    if k > 0 {
      SlotAddrIs(base, size, k - 1);
      assert k * size == (k - 1) * size + size;
    }
  }

  /** Different chunks do not overlap. */
  lemma {:induction false} SlotsApart(base: nat, size: nat, k: nat, l: nat)
    requires k < l
    ensures SlotAddr(base, size, k) + size <= SlotAddr(base, size, l)
  {
    if k + 1 < l {
      SlotsApart(base, size, k, l - 1);
    }
  }

  /** Every chunk lies between the array's base and the end of the zone. */
  lemma SlotInside(base: nat, size: nat, k: nat, room: nat)
    requires size > 0 && k < room / size
    ensures base <= SlotAddr(base, size, k)
    ensures SlotAddr(base, size, k) + size <= base + room
  {
    var q := room / size;
    assert room == q * size + room % size;
    SlotAddrIs(base, size, q);
    SlotsApart(base, size, k, q);
    SlotAtBase(base, size, k);
  }

  lemma {:induction false} SlotAtBase(base: nat, size: nat, k: nat)
    ensures base <= SlotAddr(base, size, k)
  {
    if k > 0 { SlotAtBase(base, size, k - 1); }
  }

  // ------------------------------------------------------- what the layout is

  function TwoTo(k: nat): nat { if k == 0 then 1 else 2 * TwoTo(k - 1) }

  lemma PowerOfTwoExactly(n: nat)
    ensures PowerOfTwo(n) <==> exists k: nat :: 3 <= k <= 14 && n == TwoTo(k)
  {
    assert TwoTo(3) == 8 && TwoTo(4) == 16 && TwoTo(5) == 32 && TwoTo(6) == 64;
    assert TwoTo(7) == 128 && TwoTo(8) == 256 && TwoTo(9) == 512 && TwoTo(10) == 1024;
    assert TwoTo(11) == 2048 && TwoTo(12) == 4096 && TwoTo(13) == 8192 && TwoTo(14) == 16384;
  }

  /** The chunks of a zone start behind the header, at the first multiple of their size if that
      is a power of two and of 8 otherwise, and there are as many as fit. */
  lemma LayoutExactly(c: Config, size: nat)
    requires c.Ok() && size > 0 && c.ChunkOffset(size) <= c.zoneSize
    ensures var off, n, a := c.ChunkOffset(size), c.ChunkCount(size), if PowerOfTwo(size) then size else 8;
      && off % a == 0 && c.header <= off < c.header + a
      && off + n * size <= c.zoneSize < off + (n + 1) * size
  {
    hide RoundUp, PowerOfTwo;
    var off, n, a := c.ChunkOffset(size), c.ChunkCount(size), if PowerOfTwo(size) then size else 8;
    var q := RoundUpExact(c.header, a);
    TimesMod(q, a);
    assert q * a == a * q;
    Remaining(c.zoneSize - off, size);
  }

  lemma Remaining(x: nat, d: nat)
    requires d > 0
    ensures x / d * d <= x < (x / d + 1) * d
  {
    assert x == x / d * d + x % d;
  }

  lemma LimitExactly(c: Config)
    requires c.Ok()
    ensures c.ZoneLimit() == if c.zoneSize == MIN_ZONE_SIZE then 8192 else 16384
    ensures c.ZonePages() * PAGE == c.zoneSize
  {
  }
}
