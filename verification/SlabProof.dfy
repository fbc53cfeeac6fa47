/** Every operation of the slab allocator keeps the invariant. */
module SlabProof {
  import opened Wrappers
  import opened Words
  import opened Lists
  import opened SlabPages
  import opened SlabZones
  import opened SlabState
  import opened SlabGeometry

  // ------------------------------------------------------- large allocations

  lemma AllocLargePages(c: Config, s: State, req: nat)
    requires c.Ok() && Inv(c, s) && req > 0 && AllocLarge(s, req).0.Some?
    ensures PagesOk(c, AllocLarge(s, req).1)
  {
    var n := AlignPage(req) / PAGE;
    var s' := AllocLarge(s, req).1;
    TakenPages(c, s, n);
    AllocRunExact(s.pages, n);
    var p := AllocRun(s.pages, n).0.value;
    FreePageNotLive(c, s, p);
    forall q | 0 <= q < |s'.owner| && s'.owner[q].LargePage?
      ensures LargeOwner(s', q, s'.owner[q].first)
    {
      if !(p <= q < p + n) { assert s'.owner[q] == s.owner[q]; }
    }
  }

  /** The rounded size never falls short of the request: when the addition wraps, it
      wraps to zero pages. */
  lemma AlignPageFits(req: nat)
    requires 0 < req < WORD
    ensures AlignPage(req) % PAGE == 0
    ensures AlignPage(req) == 0 || req <= AlignPage(req) < req + PAGE
    ensures AlignPage(req) == 0 <==> req > WORD - PAGE
  {
  }

  lemma AllocLargeZones(c: Config, s: State, req: nat)
    requires c.Ok() && Inv(c, s) && req > 0 && AllocLarge(s, req).0.Some?
    ensures ZonesOk(c, AllocLarge(s, req).1)
  {
    var n := AlignPage(req) / PAGE;
    var s' := AllocLarge(s, req).1;
    TakenPages(c, s, n);
    var p := AllocRun(s.pages, n).0.value;
    FreePageNotLive(c, s, p);
    forall zp | zp in s'.zones
      ensures ZonePagesOk(c, s', zp)
      ensures s'.zones[zp].InUse() ==> ZoneShape(c, zp, s'.zones[zp]) && ChunksOk(s', s'.zones[zp])
    {
      assert ZonePagesOk(c, s, zp);
      ZoneFreeApart(c, s, zp, p, n);
    }
  }

  lemma AllocLargeLive(c: Config, s: State, req: nat)
    requires c.Ok() && Inv(c, s) && 0 < req < WORD && AllocLarge(s, req).0.Some?
    ensures LiveOk(c, AllocLarge(s, req).1) && CountsOk(AllocLarge(s, req).1)
  {
    hide Total, AllocRun;
    var n := AlignPage(req) / PAGE;
    var s' := AllocLarge(s, req).1;
    AlignPageFits(req);
    TakenPages(c, s, n);
    var p := AllocRun(s.pages, n).0.value;
    FreePageNotLive(c, s, p);
    TotalAdd(s.live, p * PAGE, Large(req, n));
    forall a | a in s'.live ensures BlockOk(c, s', a, s'.live[a]) {
      if a != p * PAGE {
        assert BlockOk(c, s, a, s.live[a]);
        if s.live[a].Large? { LargeFreeApart(c, s, a, p, n); }
      }
    }
  }

  lemma AllocLargeInv(c: Config, s: State, req: nat)
    requires c.Ok() && Inv(c, s) && 0 < req < WORD
    ensures Inv(c, AllocLarge(s, req).1)
  {
    if AllocLarge(s, req).0.Some? {
      AllocLargePages(c, s, req);
      AllocLargeZones(c, s, req);
      AllocLargeLive(c, s, req);
    }
  }

  /** Freeing a large block: its pages become free, nothing else moves. */
  lemma FreeLargeList(c: Config, s: State, a: nat)
    requires c.Ok() && Inv(c, s) && a in s.live && s.live[a].Large?
    ensures FreeListOk(FreeLarge(s, a))
  {
    var n, page := s.live[a].npages, a / PAGE;
    assert BlockOk(c, s, a, s.live[a]);
    assert forall p :: page <= p < page + n ==> s.owner[p] == LargePage(page);
    FreeRunExact(s.pages, page, n);
  }

  lemma FreeLargeOwners(c: Config, s: State, a: nat)
    requires c.Ok() && Inv(c, s) && a in s.live && s.live[a].Large?
    ensures OwnersOk(c, FreeLarge(s, a))
  {
    var s' := FreeLarge(s, a);
    var n, page := s.live[a].npages, a / PAGE;
    assert BlockOk(c, s, a, s.live[a]);
    forall q | 0 <= q < |s'.owner| && s'.owner[q].LargePage? ensures LargeOwner(s', q, s'.owner[q].first) {
      assert s'.owner[q] == s.owner[q];
      assert LargeOwner(s, q, s.owner[q].first);
      var f := s.owner[q].first;
      assert f * PAGE / PAGE == f;
    }
    forall q | 0 <= q < |s'.owner| && s'.owner[q].ZonePage?
      ensures s'.owner[q].zone in s'.zones && s'.owner[q].zone <= q < s'.owner[q].zone + c.ZonePages()
    {
      assert s'.owner[q] == s.owner[q];
    }
    forall p | 0 <= p < |s'.owner| ensures s'.owner[p] == Meta <==> p < c.metaPages {
      assert page <= p < page + n ==> s.owner[p] == LargePage(page);
    }
  }

  lemma FreeLargeZones(c: Config, s: State, a: nat)
    requires c.Ok() && Inv(c, s) && a in s.live && s.live[a].Large?
    ensures ZonesOk(c, FreeLarge(s, a))
  {
    var s' := FreeLarge(s, a);
    assert BlockOk(c, s, a, s.live[a]);
    forall zp | zp in s'.zones
      ensures ZonePagesOk(c, s', zp)
      ensures s'.zones[zp].InUse() ==> ZoneShape(c, zp, s'.zones[zp]) && ChunksOk(s', s'.zones[zp])
    {
      assert ZonePagesOk(c, s, zp);
      LargeZoneApart(c, s, a, zp);
      if s.zones[zp].InUse() && Carved(s.zones[zp], a) { CarvedPage(c, s, zp, a); }
    }
  }

  lemma FreeLargeLive(c: Config, s: State, a: nat)
    requires c.Ok() && Inv(c, s) && a in s.live && s.live[a].Large?
    ensures LiveOk(c, FreeLarge(s, a)) && CountsOk(FreeLarge(s, a))
  {
    var s' := FreeLarge(s, a);
    assert BlockOk(c, s, a, s.live[a]);
    TotalRemove(s.live, a);
    forall b | b in s'.live ensures BlockOk(c, s', b, s'.live[b]) {
      assert BlockOk(c, s, b, s.live[b]);
      if s.live[b].Large? { LargesApart(c, s, a, b); }
    }
  }

  lemma FreeLargeInv(c: Config, s: State, a: nat)
    requires c.Ok() && Inv(c, s) && a in s.live && s.live[a].Large?
    ensures Inv(c, FreeLarge(s, a))
  {
    FreeLargeList(c, s, a);
    FreeLargeOwners(c, s, a);
    FreeLargeZones(c, s, a);
    FreeLargeLive(c, s, a);
  }

  // ------------------------------------------------- chunks of existing zones

  /** What handing out a chunk does to its zone. */
  lemma TakeChunkShape(c: Config, zp: nat, z: Zone) returns (z1: Zone, a: nat)
    requires c.Ok() && ZoneShape(c, zp, z) && z.nfree > 0
    ensures z1 == if z.uindex + 1 != z.nmax
              then z.(nfree := z.nfree - 1, uindex := z.uindex + 1)
              else z.(nfree := z.nfree - 1, freeChunks := z.freeChunks[1..])
    ensures z.uindex + 1 == z.nmax ==> z.freeChunks != []
    ensures a == if z.uindex + 1 != z.nmax then SlotAddr(z.base, z.chunkSize, z.uindex + 1) else z.freeChunks[0]
    ensures ZoneShape(c, zp, z1) && Carved(z1, a) && a !in z1.freeChunks
    ensures forall b :: Carved(z1, b) <==> Carved(z, b) || b == a
    ensures forall b :: b in z.freeChunks <==> b in z1.freeChunks || (b == a && Carved(z, a))
  {
    if z.uindex + 1 != z.nmax {
      z1 := z.(nfree := z.nfree - 1, uindex := z.uindex + 1);
      a := SlotAddr(z.base, z.chunkSize, z.uindex + 1);
      NextSlotFresh(z);
      forall b ensures Carved(z1, b) <==> Carved(z, b) || b == a {
        if Carved(z1, b) {
          var k: nat :| k <= z1.uindex && b == SlotAddr(z.base, z.chunkSize, k);
        }
        if Carved(z, b) {
          var k: nat :| k <= z.uindex && b == SlotAddr(z.base, z.chunkSize, k);
          assert k <= z1.uindex && b == SlotAddr(z1.base, z1.chunkSize, k);
        }
      }
    } else {
      z1 := z.(nfree := z.nfree - 1, freeChunks := z.freeChunks[1..]);
      a := z.freeChunks[0];
      assert forall b :: Carved(z1, b) <==> Carved(z, b);
    }
  }

  /** The next chunk of the untouched space is not one already handed out. */
  lemma NextSlotFresh(z: Zone)
    requires z.chunkSize > 0
    ensures !Carved(z, SlotAddr(z.base, z.chunkSize, z.uindex + 1))
  {
    forall k: nat | k <= z.uindex
      ensures SlotAddr(z.base, z.chunkSize, k) != SlotAddr(z.base, z.chunkSize, z.uindex + 1)
    {
      SlotsApart(z.base, z.chunkSize, k, z.uindex + 1);
    }
  }

  /** A chunk of one zone is no chunk of another. */
  lemma CarvedForeign(c: Config, s: State, zp: nat, z1: Zone, a: nat, zq: nat)
    requires c.Ok() && ZonesOk(c, s) && zp in s.zones && zq in s.zones && zp != zq
    requires ZoneShape(c, zp, z1) && Carved(z1, a)
    requires s.zones[zq].InUse()
    ensures !Carved(s.zones[zq], a)
  {
    CarvedInside(c, zp, z1, a);
    ZonesApart(c, s, zp, zq);
    if Carved(s.zones[zq], a) { CarvedInside(c, zq, s.zones[zq], a); }
  }

  /** Changing one in-use zone's header and the ledger entry of one of its chunks leaves
      every other zone and block as it was. */
  lemma OneZoneChanged(c: Config, s: State, s': State, zp: nat, a: nat)
    requires c.Ok() && ZonesOk(c, s) && LiveOk(c, s) && zp in s.zones
    requires s'.owner == s.owner && s'.usage == s.usage
    requires zp in s'.zones && s'.zones == s.zones[zp := s'.zones[zp]]
    requires s'.zones[zp].InUse() && ZoneShape(c, zp, s'.zones[zp]) && ChunksOk(s', s'.zones[zp])
    requires Carved(s'.zones[zp], a)
    requires forall b :: b != a ==> (b in s.live <==> b in s'.live)
    requires forall b :: b in s.live && b != a ==> s'.live[b] == s.live[b]
    requires a in s'.live ==> ChunkOk(s', a, s'.live[a].req, zp, s'.zones[zp].chunkSize)
    requires a in s'.live ==> s'.live[a] == Chunk(s'.live[a].req, zp, s'.zones[zp].chunkSize)
    requires s.zones[zp].InUse() ==> s'.zones[zp].chunkSize == s.zones[zp].chunkSize
    requires s.zones[zp].InUse() ==> forall b :: Carved(s.zones[zp], b) ==> Carved(s'.zones[zp], b)
    requires !s.zones[zp].InUse() ==> forall b :: b in s.live && s.live[b].Chunk? ==> s.live[b].zone != zp
    ensures ZonesOk(c, s') && LiveOk(c, s')
  {
    forall zq | zq in s'.zones
      ensures ZonePagesOk(c, s', zq)
      ensures s'.zones[zq].InUse() ==> ZoneShape(c, zq, s'.zones[zq]) && ChunksOk(s', s'.zones[zq])
    {
      assert ZonePagesOk(c, s, zq);
      if zq != zp && s.zones[zq].InUse() {
        assert ZoneShape(c, zq, s.zones[zq]) && ChunksOk(s, s.zones[zq]);
        CarvedForeign(c, s, zp, s'.zones[zp], a, zq);
      }
    }
    forall b | b in s'.live ensures BlockOk(c, s', b, s'.live[b]) {
      if b != a { assert BlockOk(c, s, b, s.live[b]); }
    }
  }

  /** The zone at the head of a list has room and is of the class of the list. */
  lemma HeadZone(c: Config, s: State, zi: nat)
    requires c.Ok() && Inv(c, s) && zi < NZONES && s.zoneArray[zi] != []
    ensures var zp := s.zoneArray[zi][0];
      && zp in s.zones && s.zones[zp].InUse() && s.zones[zp].zoneIndex == zi && s.zones[zp].nfree > 0
      && ZoneShape(c, zp, s.zones[zp]) && ChunksOk(s, s.zones[zp])
  {
    hide PagesOk, Distinct, ZoneShape, ChunksOk;
    var zp := s.zoneArray[zi][0];
    assert ListOk(s, zi, s.zoneArray[zi]) && zp in s.zoneArray[zi];
  }

  /** The chunk handed out was not with the client already. */
  lemma AllocChunkFresh(c: Config, s: State, zi: nat)
    requires c.Ok() && Inv(c, s) && zi < NZONES && s.zoneArray[zi] != []
    ensures AllocChunk(s, zi, 0).0.Some? && AllocChunk(s, zi, 0).0.value !in s.live
  {
    hide PagesOk, ListOk, CacheOk, CountsOk, Distinct, Carved, ChunkSize;
    HeadZone(c, s, zi);
    var zp := s.zoneArray[zi][0];
    var z1, a := TakeChunkShape(c, zp, s.zones[zp]);
    CarvedInside(c, zp, z1, a);
    if a in s.live { BlockInZone(c, s, zp, a); }
  }

  lemma AllocChunkZones(c: Config, s: State, zi: nat, req: nat)
    requires c.Ok() && Inv(c, s) && zi < NZONES && s.zoneArray[zi] != [] && 0 < req <= ChunkSize(zi)
    ensures var (r, s') := AllocChunk(s, zi, req);
      && r.Some? && r.value !in s.live
      && ZonesOk(c, s') && LiveOk(c, s') && CountsOk(s')
  {
    hide PagesOk, Distinct, LargeOk, InRun, ChunkSize, ZonesOk, LiveOk, ListOk, CacheOk, Carved, Total;
    HeadZone(c, s, zi);
    AllocChunkFresh(c, s, zi);
    var zp := s.zoneArray[zi][0];
    var z, s' := s.zones[zp], AllocChunk(s, zi, req).1;
    var z1, a := TakeChunkShape(c, zp, z);
    TotalAdd(s.live, a, Chunk(req, zp, z.chunkSize));
    assert ChunksOk(s', z1);
    OneZoneChanged(c, s, s', zp, a);
  }

  lemma AllocChunkPages(c: Config, s: State, zi: nat, req: nat)
    requires c.Ok() && Inv(c, s) && zi < NZONES && s.zoneArray[zi] != []
    requires AllocChunk(s, zi, req).0.value !in s.live
    ensures PagesOk(c, AllocChunk(s, zi, req).1)
  {
    assert ListOk(s, zi, s.zoneArray[zi]) && s.zoneArray[zi][0] in s.zoneArray[zi];
    var s' := AllocChunk(s, zi, req).1;
    forall q | 0 <= q < |s'.owner| && s'.owner[q].LargePage? ensures LargeOwner(s', q, s'.owner[q].first) {
      assert LargeOwner(s, q, s.owner[q].first);
    }
  }

  lemma AllocChunkLists(c: Config, s: State, zi: nat, req: nat)
    requires c.Ok() && Inv(c, s) && zi < NZONES && s.zoneArray[zi] != []
    ensures ListsOk(AllocChunk(s, zi, req).1, {})
  {
    var l := s.zoneArray[zi];
    var zp := l[0];
    assert ListOk(s, zi, l) && zp in l;
    TailMembers(l);
    var s' := AllocChunk(s, zi, req).1;
    forall i | 0 <= i < NZONES ensures ListOk(s', i, s'.zoneArray[i]) {
      assert ListOk(s, i, s.zoneArray[i]);
    }
  }

  lemma AllocChunkInv(c: Config, s: State, zi: nat, req: nat)
    requires c.Ok() && Inv(c, s) && zi < NZONES && s.zoneArray[zi] != [] && 0 < req <= ChunkSize(zi)
    ensures Inv(c, AllocChunk(s, zi, req).1)
  {
    AllocChunkZones(c, s, zi, req);
    AllocChunkPages(c, s, zi, req);
    AllocChunkLists(c, s, zi, req);
  }

  // ---------------------------------------------------------------- new zones

  lemma TakeCachedLists(c: Config, s: State)
    requires c.Ok() && Inv(c, s) && s.zoneFree != []
    ensures ListsOk(TakeZone(c, s).1, {s.zoneFree[0]})
  {
    var s1 := TakeZone(c, s).1;
    TailMembers(s.zoneFree);
    forall i | 0 <= i < NZONES ensures ListOk(s1, i, s1.zoneArray[i]) {
      assert ListOk(s, i, s.zoneArray[i]);
    }
  }

  lemma TakeCachedRest(c: Config, s: State)
    requires c.Ok() && Inv(c, s) && s.zoneFree != []
    ensures var s1 := TakeZone(c, s).1;
      PagesOk(c, s1) && ZonesOk(c, s1) && LiveOk(c, s1) && CountsOk(s1)
  {
    var s1 := TakeZone(c, s).1;
    forall zp | zp in s1.zones
      ensures ZonePagesOk(c, s1, zp)
      ensures s1.zones[zp].InUse() ==> ZoneShape(c, zp, s1.zones[zp]) && ChunksOk(s1, s1.zones[zp])
    {
      assert ZonePagesOk(c, s, zp);
    }
    forall a | a in s1.live ensures BlockOk(c, s1, a, s1.live[a]) {
      assert BlockOk(c, s, a, s.live[a]);
    }
    forall q | 0 <= q < |s1.owner| && s1.owner[q].LargePage? ensures LargeOwner(s1, q, s1.owner[q].first) {
      assert LargeOwner(s, q, s.owner[q].first);
    }
  }

  lemma GrabZonePages(c: Config, s: State)
    requires c.Ok() && Inv(c, s) && s.zoneFree == [] && TakeZone(c, s).0.Some?
    ensures PagesOk(c, TakeZone(c, s).1) && TakeZone(c, s).0.value !in s.zones
  {
    var n := c.ZonePages();
    var (r, s1) := TakeZone(c, s);
    TakenPages(c, s, n);
    AllocRunExact(s.pages, n);
    var p := r.value;
    assert s.owner[p] == FreePage;
    assert p in s.zones ==> ZonePagesOk(c, s, p);
    forall q | 0 <= q < |s1.owner| && s1.owner[q].LargePage?
      ensures LargeOwner(s1, q, s1.owner[q].first)
    {
      assert s1.owner[q] == s.owner[q];
    }
    forall q | 0 <= q < |s1.owner| && s1.owner[q].ZonePage?
      ensures s1.owner[q].zone in s1.zones && s1.owner[q].zone <= q < s1.owner[q].zone + n
    {
      if !(p <= q < p + n) { assert s1.owner[q] == s.owner[q]; }
    }
  }

  lemma GrabZoneZones(c: Config, s: State)
    requires c.Ok() && Inv(c, s) && s.zoneFree == [] && TakeZone(c, s).0.Some?
    ensures ZonesOk(c, TakeZone(c, s).1)
  {
    var (r, s1) := TakeZone(c, s);
    TakenPages(c, s, c.ZonePages());
    forall zp | zp in s1.zones
      ensures ZonePagesOk(c, s1, zp)
      ensures s1.zones[zp].InUse() ==> ZoneShape(c, zp, s1.zones[zp]) && ChunksOk(s1, s1.zones[zp])
    {
      if zp != r.value {
        assert ZonePagesOk(c, s, zp);
        ZoneFreeApart(c, s, zp, r.value, c.ZonePages());
      }
    }
  }

  lemma GrabZoneLive(c: Config, s: State)
    requires c.Ok() && Inv(c, s) && s.zoneFree == [] && TakeZone(c, s).0.Some?
    ensures LiveOk(c, TakeZone(c, s).1) && CountsOk(TakeZone(c, s).1)
  {
    var (r, s1) := TakeZone(c, s);
    TakenPages(c, s, c.ZonePages());
    GrabZonePages(c, s);
    forall a | a in s1.live ensures BlockOk(c, s1, a, s1.live[a]) {
      assert BlockOk(c, s, a, s.live[a]);
      if s.live[a].Large? { LargeFreeApart(c, s, a, r.value, c.ZonePages()); }
    }
  }

  lemma GrabZoneLists(c: Config, s: State)
    requires c.Ok() && Inv(c, s) && s.zoneFree == [] && TakeZone(c, s).0.Some?
    ensures ListsOk(TakeZone(c, s).1, {TakeZone(c, s).0.value})
  {
    var s1 := TakeZone(c, s).1;
    GrabZonePages(c, s);
    forall i | 0 <= i < NZONES ensures ListOk(s1, i, s1.zoneArray[i]) {
      assert ListOk(s, i, s.zoneArray[i]);
    }
  }

  /** The zone taken is out of use, off every list and holds no block. */
  lemma TakeZoneInv(c: Config, s: State)
    requires c.Ok() && Inv(c, s)
    ensures var (r, s1) := TakeZone(c, s);
      if r.None? then s1 == s
      else InvBut(c, s1, {r.value}) && r.value in s1.zones && !s1.zones[r.value].InUse()
           && s1.zoneFreeCnt <= ZONE_RELEASE_THRESH
  {
    if s.zoneFree != [] {
      assert s.zoneFree[0] in s.zoneFree;
      TakeCachedLists(c, s);
      TakeCachedRest(c, s);
    } else if TakeZone(c, s).0.Some? {
      GrabZonePages(c, s);
      GrabZoneZones(c, s);
      GrabZoneLive(c, s);
      GrabZoneLists(c, s);
    }
  }

  lemma FormatZoneFresh(c: Config, s: State, zp: nat, zi: nat, req: nat)
    requires c.Ok() && InvBut(c, s, {zp}) && zp in s.zones && !s.zones[zp].InUse()
    requires zi < NZONES && ChunkSize(zi) > 0
    requires c.header <= c.ChunkOffset(ChunkSize(zi)) <= c.zoneSize && c.ChunkCount(ChunkSize(zi)) >= 3
    ensures var (r, s') := FormatZone(c, s, zp, zi, ChunkSize(zi), req);
      && r.Some? && r.value !in s.live && ZoneShape(c, zp, s'.zones[zp])
      && (forall b :: Carved(s'.zones[zp], b) <==> b == r.value)
  {
    var (r, s') := FormatZone(c, s, zp, zi, ChunkSize(zi), req);
    var a, z := r.value, s'.zones[zp];
    assert SlotAddr(z.base, z.chunkSize, 0) == a;
    assert ChunkSize(zi) == z.chunkSize;
    CarvedInside(c, zp, z, a);
    if a in s.live { BlockInZone(c, s, zp, a); }
  }

  lemma FormatZoneZones(c: Config, s: State, zp: nat, zi: nat, req: nat)
    requires c.Ok() && InvBut(c, s, {zp}) && zp in s.zones && !s.zones[zp].InUse()
    requires zi < NZONES && 0 < req <= ChunkSize(zi)
    requires c.header <= c.ChunkOffset(ChunkSize(zi)) <= c.zoneSize && c.ChunkCount(ChunkSize(zi)) >= 3
    ensures var s' := FormatZone(c, s, zp, zi, ChunkSize(zi), req).1;
      ZonesOk(c, s') && LiveOk(c, s') && CountsOk(s')
  {
    var size := ChunkSize(zi);
    var (r, s') := FormatZone(c, s, zp, zi, size, req);
    FormatZoneFresh(c, s, zp, zi, req);
    TotalAdd(s.live, r.value, Chunk(req, zp, size));
    forall b | b in s.live && s.live[b].Chunk? ensures s.live[b].zone != zp {
      assert BlockOk(c, s, b, s.live[b]);
    }
    OneZoneChanged(c, s, s', zp, r.value);
  }

  lemma FormatZoneLists(c: Config, s: State, zp: nat, zi: nat, req: nat)
    requires c.Ok() && InvBut(c, s, {zp}) && zp in s.zones && !s.zones[zp].InUse()
    requires zi < NZONES && ChunkSize(zi) > 0
    requires c.header <= c.ChunkOffset(ChunkSize(zi)) <= c.zoneSize && c.ChunkCount(ChunkSize(zi)) >= 3
    ensures var s' := FormatZone(c, s, zp, zi, ChunkSize(zi), req).1;
      ListsOk(s', {}) && PagesOk(c, s')
  {
    var s' := FormatZone(c, s, zp, zi, ChunkSize(zi), req).1;
    FormatZoneFresh(c, s, zp, zi, req);
    forall i | 0 <= i < NZONES ensures ListOk(s', i, s'.zoneArray[i]) {
      assert ListOk(s, i, s.zoneArray[i]);
    }
    forall q | 0 <= q < |s'.owner| && s'.owner[q].LargePage? ensures LargeOwner(s', q, s'.owner[q].first) {
      assert LargeOwner(s, q, s.owner[q].first);
    }
  }

  lemma FormatZoneInv(c: Config, s: State, zp: nat, zi: nat, req: nat)
    requires c.Ok() && InvBut(c, s, {zp}) && zp in s.zones && !s.zones[zp].InUse()
    requires zi < NZONES && 0 < req <= ChunkSize(zi)
    requires c.header <= c.ChunkOffset(ChunkSize(zi)) <= c.zoneSize && c.ChunkCount(ChunkSize(zi)) >= 3
    ensures InvBut(c, FormatZone(c, s, zp, zi, ChunkSize(zi), req).1, {})
    ensures FormatZone(c, s, zp, zi, ChunkSize(zi), req).0.value !in s.live
  {
    FormatZoneFresh(c, s, zp, zi, req);
    FormatZoneZones(c, s, zp, zi, req);
    FormatZoneLists(c, s, zp, zi, req);
  }

  /** Allocation keeps the invariant, whichever of its paths it takes. */
  lemma AllocInv(c: Config, s: State, req: nat)
    requires c.Ok() && Inv(c, s) && req < WORD
    ensures Inv(c, Alloc(c, s, req).1)
  {
    if req >= c.ZoneLimit() {
      AllocLargeInv(c, s, req);
    } else if req > 0 {
      var (zi, size) := ZoneIndex(req);
      ZoneIndexFits(req);
      NewZoneHoldsThree(c, req);
      if s.zoneArray[zi] != [] {
        AllocChunkInv(c, s, zi, req);
      } else {
        TakeZoneInv(c, s);
        var (r, s1) := TakeZone(c, s);
        if r.Some? { FormatZoneInv(c, s1, r.value, zi, req); }
      }
    }
  }

  // ------------------------------------------------------------- freeing chunks

  lemma ReturnChunkZones(c: Config, s: State, a: nat)
    requires c.Ok() && Inv(c, s) && a in s.live && s.live[a].Chunk?
    ensures var s' := ReturnChunk(s, s.live[a].zone, a);
      ZonesOk(c, s') && LiveOk(c, s') && CountsOk(s')
  {
    var zp := s.live[a].zone;
    assert BlockOk(c, s, a, s.live[a]);
    var z := s.zones[zp];
    var s' := ReturnChunk(s, zp, a);
    var z1 := s'.zones[zp];
    assert forall b :: Carved(z1, b) <==> Carved(z, b);
    assert ZoneShape(c, zp, z) && ChunksOk(s, z);
    FreeFits(c, zp, z, a);
    TotalRemove(s.live, a);
    OneZoneChanged(c, s, s', zp, a);
  }

  lemma ReturnChunkLists(c: Config, s: State, a: nat)
    requires c.Ok() && Inv(c, s) && a in s.live && s.live[a].Chunk?
    ensures ListsOk(ReturnChunk(s, s.live[a].zone, a), {})
  {
    hide ChunkSize, ChunksOk, CountsOk, Total, PowerOfTwo, RoundUp, Quotient;
    assert BlockOk(c, s, a, s.live[a]);
    var s' := ReturnChunk(s, s.live[a].zone, a);
    forall i | 0 <= i < NZONES ensures ListOk(s', i, s'.zoneArray[i]) {
      assert ListOk(s, i, s.zoneArray[i]);
    }
  }

  lemma ReturnChunkPages(c: Config, s: State, a: nat)
    requires c.Ok() && Inv(c, s) && a in s.live && s.live[a].Chunk?
    ensures PagesOk(c, ReturnChunk(s, s.live[a].zone, a))
  {
    assert BlockOk(c, s, a, s.live[a]);
    var s' := ReturnChunk(s, s.live[a].zone, a);
    forall q | 0 <= q < |s'.owner| && s'.owner[q].LargePage? ensures LargeOwner(s', q, s'.owner[q].first) {
      assert LargeOwner(s, q, s.owner[q].first);
    }
  }

  lemma ReturnChunkInv(c: Config, s: State, a: nat)
    requires c.Ok() && Inv(c, s) && a in s.live && s.live[a].Chunk?
    ensures Inv(c, ReturnChunk(s, s.live[a].zone, a))
  {
    ReturnChunkPages(c, s, a);
    ReturnChunkZones(c, s, a);
    ReturnChunkLists(c, s, a);
  }

  /** A zone with a chunk outside its free list is not full of free chunks. */
  lemma FreeFits(c: Config, zp: nat, z: Zone, a: nat)
    requires c.Ok() && ZoneShape(c, zp, z) && Carved(z, a) && a !in z.freeChunks
    ensures |z.freeChunks| <= z.uindex && z.nfree < z.nmax
  {
    DistinctCount(z.freeChunks);
    SlotsCount(z, z.uindex + 1);
    var es, ss := Elements(z.freeChunks), Slots(z, z.uindex + 1);
    forall x | x in es + {a} ensures x in ss {
      assert Carved(z, x);
    }
    SubsetCount(es + {a}, ss);
  }

  lemma SubsetCount(a: set<nat>, b: set<nat>)
    requires a <= b
    ensures |a| <= |b|
  {
    assert b == a + (b - a);
  }

  lemma CacheZoneZones(c: Config, s: State, zp: nat)
    requires c.Ok() && Inv(c, s) && zp in s.zones && s.zones[zp].InUse() && s.zones[zp].nfree == s.zones[zp].nmax
    ensures s.zones[zp].zoneIndex < NZONES && ZonesOk(c, CacheZone(s, zp)) && LiveOk(c, CacheZone(s, zp))
  {
    var z := s.zones[zp];
    assert ZoneShape(c, zp, z) && ChunksOk(s, z);
    var s' := CacheZone(s, zp);
    forall zq | zq in s'.zones
      ensures ZonePagesOk(c, s', zq)
      ensures s'.zones[zq].InUse() ==> ZoneShape(c, zq, s'.zones[zq]) && ChunksOk(s', s'.zones[zq])
    {
      assert ZonePagesOk(c, s, zq);
    }
    forall b | b in s'.live ensures BlockOk(c, s', b, s'.live[b]) {
      assert BlockOk(c, s, b, s.live[b]);
      if s.live[b].Chunk? && s.live[b].zone == zp { WholeZone(c, zp, z, b); }
    }
  }

  lemma CacheZoneLists(c: Config, s: State, zp: nat)
    requires c.Ok() && Inv(c, s) && zp in s.zones && s.zones[zp].InUse() && s.zones[zp].nfree > 0
    ensures s.zones[zp].zoneIndex < NZONES && ListsOk(CacheZone(s, zp), {}) && PagesOk(c, CacheZone(s, zp))
  {
    var z := s.zones[zp];
    assert ZoneShape(c, zp, z);
    var s' := CacheZone(s, zp);
    assert ListOk(s, z.zoneIndex, s.zoneArray[z.zoneIndex]);
    WithoutMembers(s.zoneArray[z.zoneIndex], zp);
    ConsMembers(zp, s.zoneFree);
    forall i | 0 <= i < NZONES ensures ListOk(s', i, s'.zoneArray[i]) {
      assert ListOk(s, i, s.zoneArray[i]);
    }
    forall q | 0 <= q < |s'.owner| && s'.owner[q].LargePage? ensures LargeOwner(s', q, s'.owner[q].first) {
      assert LargeOwner(s, q, s.owner[q].first);
    }
  }

  lemma CacheZoneInv(c: Config, s: State, zp: nat)
    requires c.Ok() && Inv(c, s) && zp in s.zones && s.zones[zp].InUse() && s.zones[zp].nfree == s.zones[zp].nmax
    ensures s.zones[zp].zoneIndex < NZONES && InvBut(c, CacheZone(s, zp), {})
  {
    assert ZoneShape(c, zp, s.zones[zp]);
    CacheZoneZones(c, s, zp);
    CacheZoneLists(c, s, zp);
  }

  lemma ReleaseFreeList(c: Config, s: State)
    requires c.Ok() && InvBut(c, s, {}) && s.zoneFree != []
    ensures FreeListOk(ReleaseZone(c, s))
  {
    var zp, n := s.zoneFree[0], c.ZonePages();
    assert zp in s.zoneFree;
    assert ZonePagesOk(c, s, zp);
    assert forall p :: zp <= p < zp + n ==> s.owner[p] == ZonePage(zp);
    FreeRunExact(s.pages, zp, n);
  }

  lemma ReleaseOwners(c: Config, s: State)
    requires c.Ok() && InvBut(c, s, {}) && s.zoneFree != []
    ensures OwnersOk(c, ReleaseZone(c, s))
  {
    var zp, n := s.zoneFree[0], c.ZonePages();
    assert zp in s.zoneFree;
    assert ZonePagesOk(c, s, zp);
    var s' := ReleaseZone(c, s);
    forall q | 0 <= q < |s'.owner| && s'.owner[q].LargePage? ensures LargeOwner(s', q, s'.owner[q].first) {
      assert s'.owner[q] == s.owner[q];
      assert LargeOwner(s, q, s.owner[q].first);
    }
    forall q | 0 <= q < |s'.owner| && s'.owner[q].ZonePage?
      ensures s'.owner[q].zone in s'.zones && s'.owner[q].zone <= q < s'.owner[q].zone + n
    {
      assert s'.owner[q] == s.owner[q];
      assert s.owner[q].zone in s.zones && s.owner[q].zone <= q < s.owner[q].zone + n;
    }
    forall p | 0 <= p < |s'.owner| ensures s'.owner[p] == Meta <==> p < c.metaPages {
      assert zp <= p < zp + n ==> s.owner[p] == ZonePage(zp);
    }
  }

  lemma ReleaseZoneInv(c: Config, s: State)
    requires c.Ok() && InvBut(c, s, {}) && s.zoneFree != []
    ensures InvBut(c, ReleaseZone(c, s), {})
  {
    hide ZoneShape, FreeRun, Canonical, Total, InRun, OwnersOk, Apart, SlotAddr;
    var zp, n := s.zoneFree[0], c.ZonePages();
    assert zp in s.zoneFree;
    TailMembers(s.zoneFree);
    ReleaseFreeList(c, s);
    ReleaseOwners(c, s);
    var s' := ReleaseZone(c, s);
    forall i | 0 <= i < NZONES ensures ListOk(s', i, s'.zoneArray[i]) {
      assert ListOk(s, i, s.zoneArray[i]);
    }
    forall zq | zq in s'.zones
      ensures ZonePagesOk(c, s', zq)
      ensures s'.zones[zq].InUse() ==> ZoneShape(c, zq, s'.zones[zq]) && ChunksOk(s', s'.zones[zq])
    {
      assert ZonePagesOk(c, s, zq);
      ZonesApart(c, s, zp, zq);
    }
    assert ZonePagesOk(c, s, zp);
    forall b | b in s'.live ensures BlockOk(c, s', b, s'.live[b]) {
      assert BlockOk(c, s, b, s.live[b]);
      if s.live[b].Large? { LargeZoneApart(c, s, b, zp); }
    }
  }

  /** Freeing a block the client holds keeps the invariant, including the bound on the
      cache, through every combination of list, cache and release. */
  lemma FreeInv(c: Config, s: State, a: nat)
    requires c.Ok() && Inv(c, s) && a in s.live
    ensures Inv(c, Free(c, s, a))
  {
    if s.live[a].Large? {
      FreeLargeInv(c, s, a);
    } else {
      var zp := s.live[a].zone;
      assert BlockOk(c, s, a, s.live[a]);
      ReturnChunkInv(c, s, a);
      var s1 := ReturnChunk(s, zp, a);
      if Spare(s1, zp) {
        CacheZoneInv(c, s1, zp);
        var s2 := CacheZone(s1, zp);
        if s2.zoneFreeCnt > ZONE_RELEASE_THRESH { ReleaseZoneInv(c, s2); }
      }
    }
  }
}
