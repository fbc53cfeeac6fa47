/** The slab allocator as a transition system on values (rt-thread/src/slab.c).

    Addresses are byte offsets from the page-aligned start of the heap.  Besides the
    allocator's own structures (page list, per-page usage table, in-band zone headers,
    72 zone lists, cached zones, statistics) a state carries a ledger that the code does
    not have: the blocks the client holds, and one owner for every page.
 */
module SlabState {
  import opened Wrappers
  import opened Words
  import opened Lists
  import opened SlabPages
  import opened SlabZones

  const ZONE_MAGIC := 0x51ab51ab
  const DEAD_MAGIC := 0xffff_ffff

  datatype PageType = FreeType | SmallType | LargeType

  datatype Usage = Usage(kind: PageType, size: nat)

  datatype Zone = Zone(magic: nat, nfree: nat, nmax: nat, base: nat, uindex: nat,
                       chunkSize: nat, zoneIndex: nat, freeChunks: seq<nat>)
  {
    ghost predicate InUse() { magic == ZONE_MAGIC }
  }

  datatype Block = Large(req: nat, npages: nat) | Chunk(req: nat, zone: nat, size: nat)
  {
    ghost function Footprint(): nat {
      match this
      case Large(_, n) => n * PAGE
      case Chunk(_, _, size) => size
    }
  }

  datatype Owner = Meta | FreePage | ZonePage(zone: nat) | LargePage(first: nat)

  datatype State = State(pages: seq<Run>, usage: seq<Usage>, zones: map<nat, Zone>,
                         zoneArray: seq<seq<nat>>, zoneFree: seq<nat>, zoneFreeCnt: int,
                         used: int, max: int,
                         live: map<nat, Block>, owner: seq<Owner>)

  // ---------------------------------------------------------------- transitions

  ghost function SetOwner(owner: seq<Owner>, s: nat, n: nat, o: Owner): (r: seq<Owner>)
    ensures |r| == |owner|
  {
    seq(|owner|, p requires 0 <= p < |owner| => if s <= p < s + n then o else owner[p])
  }

  /** The table entries of a new zone: each page knows its distance from the header. */
  ghost function MarkZone(usage: seq<Usage>, zp: nat, n: nat): (r: seq<Usage>)
    ensures |r| == |usage|
  {
    seq(|usage|, p requires 0 <= p < |usage| => if zp <= p < zp + n then Usage(SmallType, p - zp) else usage[p])
  }

  ghost function MarkFree(usage: seq<Usage>, zp: nat, n: nat): (r: seq<Usage>)
    ensures |r| == |usage|
  {
    seq(|usage|, p requires 0 <= p < |usage| => if zp <= p < zp + n then Usage(FreeType, 0) else usage[p])
  }

  ghost function SetUsage(usage: seq<Usage>, p: nat, u: Usage): (r: seq<Usage>)
    ensures |r| == |usage|
  {
    if p < |usage| then usage[p := u] else usage
  }

  ghost function AllocLarge(s: State, req: nat): (Option<nat>, State) {
    var n := AlignPage(req) / PAGE;
    if n == 0 then (None, s)
    else
      var (r, l) := AllocRun(s.pages, n);
      if r.None? then (None, s)
      else
        var p := r.value;
        (Some(p * PAGE),
         s.(pages := l, usage := SetUsage(s.usage, p, Usage(LargeType, n)),
            used := s.used + n * PAGE, max := Max(s.max, s.used + n * PAGE),
            live := s.live[p * PAGE := Large(req, n)],
            owner := SetOwner(s.owner, p, n, LargePage(p))))
  }

  /** The first zone of list zi has a chunk to hand out. */
  ghost predicate ChunkReady(s: State, zi: nat) {
    && zi < |s.zoneArray| && s.zoneArray[zi] != [] && s.zoneArray[zi][0] in s.zones
    && var z := s.zones[s.zoneArray[zi][0]];
      z.nfree > 0 && (z.uindex + 1 == z.nmax ==> z.freeChunks != [])
  }

  /** Allocation from the first zone of a non-empty list: untouched space first, then
      the zone's list of returned chunks. */
  ghost function AllocChunk(s: State, zi: nat, req: nat): (Option<nat>, State)
    requires ChunkReady(s, zi)
  {
    var zp := s.zoneArray[zi][0];
    var z := s.zones[zp];
    var z1 := if z.uindex + 1 != z.nmax
              then z.(nfree := z.nfree - 1, uindex := z.uindex + 1)
              else z.(nfree := z.nfree - 1, freeChunks := z.freeChunks[1..]);
    var a := if z.uindex + 1 != z.nmax then SlotAddr(z.base, z.chunkSize, z.uindex + 1) else z.freeChunks[0];
    (Some(a),
     s.(zones := s.zones[zp := z1],
        zoneArray := if z1.nfree == 0 then s.zoneArray[zi := s.zoneArray[zi][1..]] else s.zoneArray,
        used := s.used + z.chunkSize, max := Max(s.max, s.used + z.chunkSize),
        live := s.live[a := Chunk(req, zp, z.chunkSize)]))
  }

  const BLANK := Zone(DEAD_MAGIC, 0, 0, 0, 0, 0, 0, [])

  /** Take a cached zone, or carve one from the free pages. */
  ghost function TakeZone(c: Config, s: State): (Option<nat>, State) {
    if s.zoneFree != [] then
      (Some(s.zoneFree[0]), s.(zoneFree := s.zoneFree[1..], zoneFreeCnt := s.zoneFreeCnt - 1))
    else
      var (r, l) := AllocRun(s.pages, c.ZonePages());
      if r.None? then (None, s)
      else
        (r, s.(pages := l, usage := MarkZone(s.usage, r.value, c.ZonePages()),
               zones := s.zones[r.value := BLANK],
               owner := SetOwner(s.owner, r.value, c.ZonePages(), ZonePage(r.value))))
  }

  /** Write a fresh header and hand out chunk 0. */
  ghost function FormatZone(c: Config, s: State, zp: nat, zi: nat, size: nat, req: nat): (Option<nat>, State)
    requires c.Ok() && zi < |s.zoneArray|
    requires size > 0 && c.ChunkOffset(size) <= c.zoneSize && c.ChunkCount(size) >= 3
  {
    var base := zp * PAGE + c.ChunkOffset(size);
    var nmax := c.ChunkCount(size);
    (Some(base),
     s.(zones := s.zones[zp := Zone(ZONE_MAGIC, nmax - 1, nmax, base, 0, size, zi, [])],
        zoneArray := s.zoneArray[zi := [zp] + s.zoneArray[zi]],
        used := s.used + size, max := Max(s.max, s.used + size),
        live := s.live[base := Chunk(req, zp, size)]))
  }

  ghost function Alloc(c: Config, s: State, req: nat): (Option<nat>, State)
    requires c.Ok() && Inv(c, s)
  {
    if req == 0 then (None, s)
    else if req >= c.ZoneLimit() then
      AllocLarge(s, req)
    else
      var (zi, size) := ZoneIndex(req);
      ZoneIndexFits(req);
      NewZoneHoldsThree(c, req);
      if s.zoneArray[zi] != [] then
        ChunkIsReady(c, s, zi);
        AllocChunk(s, zi, req)
      else
        var (r, s1) := TakeZone(c, s);
        if r.None? then (None, s) else FormatZone(c, s1, r.value, zi, size, req)
  }

  ghost function FreeLarge(s: State, a: nat): State
    requires a in s.live && s.live[a].Large?
  {
    var page := a / PAGE;
    var n := s.live[a].npages;
    s.(pages := FreeRun(s.pages, page, n), usage := SetUsage(s.usage, page, Usage(LargeType, 0)),
       used := s.used - n * PAGE, live := s.live - {a},
       owner := SetOwner(s.owner, page, n, FreePage))
  }

  /** Put one chunk back on its zone; a zone that was full returns to its list. */
  ghost function ReturnChunk(s: State, zp: nat, a: nat): State
    requires zp in s.zones && s.zones[zp].zoneIndex < |s.zoneArray|
  {
    var z := s.zones[zp];
    s.(zones := s.zones[zp := z.(freeChunks := [a] + z.freeChunks, nfree := z.nfree + 1)],
       zoneArray := if z.nfree == 0 then s.zoneArray[z.zoneIndex := [zp] + s.zoneArray[z.zoneIndex]] else s.zoneArray,
       used := s.used - z.chunkSize, live := s.live - {a})
  }

  /** Move an entirely free zone from its list to the cache. */
  ghost function CacheZone(s: State, zp: nat): State
    requires zp in s.zones && s.zones[zp].zoneIndex < |s.zoneArray|
  {
    var z := s.zones[zp];
    s.(zoneArray := s.zoneArray[z.zoneIndex := Without(s.zoneArray[z.zoneIndex], zp)],
       zones := s.zones[zp := z.(magic := DEAD_MAGIC)],
       zoneFree := [zp] + s.zoneFree, zoneFreeCnt := s.zoneFreeCnt + 1)
  }

  /** Give the most recently cached zone back to the page list. */
  ghost function ReleaseZone(c: Config, s: State): State
    requires s.zoneFree != []
  {
    var zp := s.zoneFree[0];
    s.(zoneFree := s.zoneFree[1..], zoneFreeCnt := s.zoneFreeCnt - 1,
       usage := MarkFree(s.usage, zp, c.ZonePages()),
       pages := FreeRun(s.pages, zp, c.ZonePages()),
       zones := s.zones - {zp},
       owner := SetOwner(s.owner, zp, c.ZonePages(), FreePage))
  }

  ghost function Retire(c: Config, s: State, zp: nat): State
    requires zp in s.zones && s.zones[zp].zoneIndex < |s.zoneArray|
  {
    var s1 := CacheZone(s, zp);
    if s1.zoneFreeCnt > ZONE_RELEASE_THRESH then ReleaseZone(c, s1) else s1
  }

  /** The zone is whole and is not the only zone on its list. */
  ghost predicate Spare(s: State, zp: nat)
    requires zp in s.zones && s.zones[zp].zoneIndex < |s.zoneArray|
  {
    var l := s.zoneArray[s.zones[zp].zoneIndex];
    s.zones[zp].nfree == s.zones[zp].nmax && l != [] && (l[|l| - 1] != zp || l[0] != zp)
  }

  ghost function Free(c: Config, s: State, a: nat): State
    requires c.Ok() && Inv(c, s) && a in s.live
  {
    LiveIndices(c, s, a);
    if s.live[a].Large? then FreeLarge(s, a)
    else
      var zp := s.live[a].zone;
      var s1 := ReturnChunk(s, zp, a);
      if !Spare(s1, zp) then s1 else Retire(c, s1, zp)
  }

  // ------------------------------------------------------------------ invariant

  /** a is one of the chunks the zone has ever handed out. */
  ghost predicate Carved(z: Zone, a: nat) {
    exists k: nat :: k <= z.uindex && a == SlotAddr(z.base, z.chunkSize, k)
  }

  ghost predicate ZoneShape(c: Config, zp: nat, z: Zone)
    requires c.Ok()
  {
    && z.chunkSize > 0 && z.zoneIndex < NZONES && z.chunkSize == ChunkSize(z.zoneIndex)
    && c.header <= c.ChunkOffset(z.chunkSize) <= c.zoneSize
    && z.base == zp * PAGE + c.ChunkOffset(z.chunkSize)
    && z.nmax == c.ChunkCount(z.chunkSize) >= 3
    && z.uindex < z.nmax
    && z.nfree == z.nmax - 1 - z.uindex + |z.freeChunks|
    && Distinct(z.freeChunks)
    && (forall f :: f in z.freeChunks ==> Carved(z, f))
  }

  /** A chunk that was handed out is either on the zone's free list or with the client. */
  ghost predicate ChunksOk(s: State, z: Zone) {
    forall a :: Carved(z, a) ==> (a in z.freeChunks <==> a !in s.live)
  }

  ghost predicate ZonePagesOk(c: Config, s: State, zp: nat) {
    && zp + c.ZonePages() <= |s.owner| == |s.usage|
    && forall p :: zp <= p < zp + c.ZonePages() ==> s.owner[p] == ZonePage(zp) && s.usage[p] == Usage(SmallType, p - zp)
  }

  ghost predicate ZonesOk(c: Config, s: State)
    requires c.Ok()
  {
    forall zp :: zp in s.zones ==>
      && ZonePagesOk(c, s, zp)
      && (s.zones[zp].InUse() ==> ZoneShape(c, zp, s.zones[zp]) && ChunksOk(s, s.zones[zp]))
  }

  ghost predicate LargeOk(c: Config, s: State, a: nat, req: nat, n: nat) {
    && a % PAGE == 0 && n > 0 && 0 < req <= n * PAGE
    && a / PAGE + n <= |s.owner| == |s.usage|
    && s.usage[a / PAGE] == Usage(LargeType, n)
    && forall p :: a / PAGE <= p < a / PAGE + n ==> s.owner[p] == LargePage(a / PAGE)
  }

  ghost predicate ChunkOk(s: State, a: nat, req: nat, zp: nat, size: nat) {
    && zp in s.zones && s.zones[zp].InUse() && size == s.zones[zp].chunkSize
    && 0 < req <= size && Carved(s.zones[zp], a)
  }

  ghost predicate BlockOk(c: Config, s: State, a: nat, b: Block) {
    if b.Large? then LargeOk(c, s, a, b.req, b.npages) else ChunkOk(s, a, b.req, b.zone, b.size)
  }

  ghost predicate LiveOk(c: Config, s: State) {
    forall a :: a in s.live ==> BlockOk(c, s, a, s.live[a])
  }

  /** The page list is the canonical form of the set of pages nobody owns. */
  ghost predicate FreeListOk(s: State) {
    && Canonical(s.pages)
    && forall p :: Has(s.pages, p) <==> 0 <= p < |s.owner| && s.owner[p] == FreePage
  }

  ghost predicate OwnersOk(c: Config, s: State) {
    && (forall p :: 0 <= p < |s.owner| ==> (s.owner[p] == Meta <==> p < c.metaPages))
    && (forall p :: 0 <= p < |s.owner| && s.owner[p].ZonePage? ==>
          s.owner[p].zone in s.zones && s.owner[p].zone <= p < s.owner[p].zone + c.ZonePages())
    && (forall p :: 0 <= p < |s.owner| && s.owner[p].LargePage? ==> LargeOwner(s, p, s.owner[p].first))
  }

  /** Page p belongs to the large block that starts on page q. */
  ghost predicate LargeOwner(s: State, p: nat, q: nat) {
    q * PAGE in s.live && s.live[q * PAGE].Large? && q <= p < q + s.live[q * PAGE].npages
  }

  ghost predicate PagesOk(c: Config, s: State) {
    |s.owner| == c.npages == |s.usage| && c.metaPages <= c.npages && FreeListOk(s) && OwnersOk(c, s)
  }

  /** Zone list i holds, once each, exactly the zones of that class with room. */
  ghost predicate ListOk(s: State, i: nat, l: seq<nat>) {
    && Distinct(l)
    && forall zp :: zp in l <==>
         zp in s.zones && s.zones[zp].InUse() && s.zones[zp].zoneIndex == i && s.zones[zp].nfree > 0
  }

  /** The cache holds, once each, exactly the zones whose header is retired. */
  ghost predicate CacheOk(s: State, loose: set<nat>) {
    && Distinct(s.zoneFree)
    && s.zoneFreeCnt == |s.zoneFree|
    && forall zp :: zp in s.zoneFree <==> zp in s.zones && !s.zones[zp].InUse() && zp !in loose
  }

  ghost predicate ListsOk(s: State, loose: set<nat>) {
    && |s.zoneArray| == NZONES
    && (forall i :: 0 <= i < NZONES ==> ListOk(s, i, s.zoneArray[i]))
    && CacheOk(s, loose)
  }

  /** Bytes charged for the blocks the client holds. */
  ghost function Total(live: map<nat, Block>): nat
    decreases |live|
  {
    if live == map[] then 0
    else var a :| a in live; live[a].Footprint() + Total(live - {a})
  }

  ghost predicate CountsOk(s: State) {
    s.used == Total(s.live) && s.used <= s.max
  }

  ghost predicate InvBut(c: Config, s: State, loose: set<nat>)
    requires c.Ok()
  {
    PagesOk(c, s) && ZonesOk(c, s) && LiveOk(c, s) && ListsOk(s, loose) && CountsOk(s)
  }

  ghost predicate Inv(c: Config, s: State)
    requires c.Ok()
  {
    InvBut(c, s, {}) && s.zoneFreeCnt <= ZONE_RELEASE_THRESH
  }

  lemma TakenPages(c: Config, s: State, n: nat)
    requires c.Ok() && Inv(c, s) && n > 0
    ensures var (r, l) := AllocRun(s.pages, n);
      r.Some? ==> r.value + n <= c.npages && forall p :: r.value <= p < r.value + n ==> s.owner[p] == FreePage
  {
    AllocRunExact(s.pages, n);
    var (r, l) := AllocRun(s.pages, n);
    if r.Some? {
      assert Has(s.pages, r.value + n - 1);
    }
  }

  lemma ChunkIsReady(c: Config, s: State, zi: nat)
    requires c.Ok() && Inv(c, s) && zi < NZONES && s.zoneArray[zi] != []
    ensures ChunkReady(s, zi) && s.zones[s.zoneArray[zi][0]].chunkSize == ChunkSize(zi)
  {
    var zp := s.zoneArray[zi][0];
    assert ListOk(s, zi, s.zoneArray[zi]) && zp in s.zoneArray[zi];
    assert ZoneShape(c, zp, s.zones[zp]);
  }

  lemma LiveIndices(c: Config, s: State, a: nat)
    requires c.Ok() && Inv(c, s) && a in s.live
    ensures if s.live[a].Large? then a / PAGE + s.live[a].npages <= |s.usage|
            else s.live[a].zone in s.zones && s.zones[s.live[a].zone].zoneIndex < |s.zoneArray|
  {
    assert BlockOk(c, s, a, s.live[a]);
    if s.live[a].Chunk? { assert ZoneShape(c, s.live[a].zone, s.zones[s.live[a].zone]); }
  }
}
