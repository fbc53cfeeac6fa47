/** Which chunk, zone or pages a call of the slab allocator takes or gives up, exactly
    (rt-thread/src/slab.c), and what that makes of the zones over every run. */
module SlabExact {
  import opened Wrappers
  import opened Words
  import opened Alignment
  import opened Lists
  import opened SlabPages
  import opened SlabZones
  import opened SlabState
  import opened SlabGeometry
  import opened SlabProof
  import opened SlabTheorems

  // ------------------------------------------------------------ who has room

  /** A zone of class i with a chunk to hand out. */
  ghost predicate HasRoom(s: State, i: nat, zp: nat) {
    zp in s.zones && s.zones[zp].InUse() && s.zones[zp].zoneIndex == i && s.zones[zp].nfree > 0
  }

  /** A zone in use with every one of its chunks free. */
  ghost predicate Whole(s: State, zp: nat) {
    zp in s.zones && s.zones[zp].InUse() && s.zones[zp].nfree == s.zones[zp].nmax
  }

  lemma Listed(c: Config, s: State, i: nat, zp: nat)
    requires c.Ok() && Inv(c, s) && i < NZONES
    ensures zp in s.zoneArray[i] <==> HasRoom(s, i, zp)
  {
    assert ListOk(s, i, s.zoneArray[i]);
  }

  // -------------------------------------------------------------- allocation

  /** A request of pages takes the lowest run that is long enough, and no zone. */
  lemma AllocLargeExactly(c: Config, s: State, req: nat)
    requires c.Ok() && Inv(c, s) && c.ZoneLimit() <= req < WORD && Alloc(c, s, req).0.Some?
    ensures var (r, s') := Alloc(c, s, req); var n := AlignPage(req) / PAGE;
      && r.value % PAGE == 0 && AllFree(s.pages, r.value / PAGE, n)
      && (forall p: nat :: AllFree(s.pages, p, n) ==> r.value / PAGE <= p)
      && (forall p :: Has(s'.pages, p) <==> Has(s.pages, p) && !(r.value / PAGE <= p < r.value / PAGE + n))
      && s'.zones == s.zones && s'.zoneArray == s.zoneArray && s'.zoneFree == s.zoneFree
  {
    AlignPageFits(req);
    AllocRunExact(s.pages, AlignPage(req) / PAGE);
  }

  /** Where some zone of the class has room, the first on the list of the class serves the
      request: its lowest chunk never handed out, or when there is none left the chunk given
      back last.  The zone leaves the list when this was its last; nothing else moves. */
  lemma AllocChunkExactly(c: Config, s: State, req: nat, zq: nat)
    requires c.Ok() && Inv(c, s) && 0 < req < c.ZoneLimit() && HasRoom(s, ZoneIndex(req).0, zq)
    ensures ZoneIndex(req).0 < NZONES == |s.zoneArray| && s.zoneArray[ZoneIndex(req).0] != []
    ensures var (r, s') := Alloc(c, s, req); var zi := ZoneIndex(req).0; var l := s.zoneArray[zi];
      && HasRoom(s, zi, l[0]) && l[0] in s'.zones
      && var z, z' := s.zones[l[0]], s'.zones[l[0]];
      && s'.zones == s.zones[l[0] := z'] && z'.nfree == z.nfree - 1
      && z == z'.(nfree := z.nfree, uindex := z.uindex, freeChunks := z.freeChunks)
      && (if z.uindex + 1 < z.nmax
          then r == Some(SlotAddr(z.base, z.chunkSize, z.uindex + 1)) && z'.uindex == z.uindex + 1
               && z'.freeChunks == z.freeChunks
          else z.freeChunks == [r.value] + z'.freeChunks && z'.uindex == z.uindex)
      && s'.zoneArray == (if z'.nfree == 0 then s.zoneArray[zi := l[1..]] else s.zoneArray)
      && s'.pages == s.pages && s'.zoneFree == s.zoneFree
  {
    hide PagesOk, ZonesOk, LiveOk, CountsOk, CacheOk;
    var zi := ZoneIndex(req).0;
    ZoneIndexFits(req);
    NewZoneHoldsThree(c, req);
    Listed(c, s, zi, zq);
    ChunkIsReady(c, s, zi);
    HeadShape(c, s, zi);
  }

  lemma HeadShape(c: Config, s: State, zi: nat)
    requires c.Ok() && Inv(c, s) && zi < NZONES && s.zoneArray[zi] != []
    ensures HasRoom(s, zi, s.zoneArray[zi][0])
    ensures var z := s.zones[s.zoneArray[zi][0]]; z.uindex < z.nmax
  {
    HeadZone(c, s, zi);
  }

  /** Zone zp is new to class zi and serves a request from its first chunk. */
  ghost predicate Formatted(c: Config, s: State, s': State, zp: nat, zi: nat, size: nat, r: Option<nat>)
    requires c.Ok() && size > 0 && zi < |s.zoneArray|
  {
    && zp in s'.zones
    && var z := s'.zones[zp];
    && r == Some(zp * PAGE + c.ChunkOffset(size)) && z.base == r.value
    && z.InUse() && z.zoneIndex == zi && z.chunkSize == size && z.freeChunks == []
    && z.uindex == 0 && z.nfree + 1 == z.nmax
    && s'.zones == s.zones[zp := z] && s'.zoneArray == s.zoneArray[zi := [zp]]
  }

  /** Zone zp was the one cached last, or else the lowest run of pages that is long enough. */
  ghost predicate Fetched(c: Config, s: State, s': State, zp: nat) {
    var n := c.ZonePages();
    if s.zoneFree != [] then s.zoneFree == [zp] + s'.zoneFree && s'.pages == s.pages
    else
      && zp !in s.zones && AllFree(s.pages, zp, n) && (forall p: nat :: AllFree(s.pages, p, n) ==> zp <= p)
      && (forall p :: Has(s'.pages, p) <==> Has(s.pages, p) && !(zp <= p < zp + n)) && s'.zoneFree == []
  }

  /** Where none has, the zone cached last is formatted for the class, or when none is cached
      the lowest run of a zone's pages: its first chunk serves the request, and it is alone on
      the list of the class. */
  lemma AllocZoneExactly(c: Config, s: State, req: nat) returns (zp: nat)
    requires c.Ok() && Inv(c, s) && 0 < req < c.ZoneLimit() && Alloc(c, s, req).0.Some?
    requires forall zq :: !HasRoom(s, ZoneIndex(req).0, zq)
    ensures var (r, s') := Alloc(c, s, req); var (zi, size) := ZoneIndex(req);
      && zi < |s.zoneArray| && size > 0
      && Formatted(c, s, s', zp, zi, size, r) && Fetched(c, s, s', zp)
  {
    hide PagesOk, ZonesOk, LiveOk, CountsOk, CacheOk, Fetched, Has;
    var (zi, size) := ZoneIndex(req);
    ZoneIndexFits(req);
    NewZoneHoldsThree(c, req);
    NobodyListed(c, s, zi);
    zp := TakeZone(c, s).0.value;
    TakenFetched(c, s);
    FetchedSame(c, s, TakeZone(c, s).1, Alloc(c, s, req).1, zp);
    TakenZones(c, s);
    FormattedIs(c, s, TakeZone(c, s).1, zp, zi, size, req);
  }

  lemma TakenZones(c: Config, s: State)
    requires TakeZone(c, s).0.Some?
    ensures var (r, s1) := TakeZone(c, s);
      s1.zoneArray == s.zoneArray && s1.zones - {r.value} == s.zones - {r.value}
  {
  }

  lemma SameButOne(m: map<nat, Zone>, m1: map<nat, Zone>, zp: nat, z: Zone)
    requires m1 - {zp} == m - {zp}
    ensures m1[zp := z] == m[zp := z]
  {
    forall x | x != zp ensures x in m1 <==> x in m { assert x in m1 - {zp} <==> x in m - {zp}; }
    forall x | x in m && x != zp ensures m1[x] == m[x] { assert (m1 - {zp})[x] == (m - {zp})[x]; }
  }

  lemma FormattedIs(c: Config, s: State, s1: State, zp: nat, zi: nat, size: nat, req: nat)
    requires c.Ok() && zi < |s.zoneArray| && s.zoneArray[zi] == []
    requires size > 0 && c.ChunkOffset(size) <= c.zoneSize && c.ChunkCount(size) >= 3
    requires s1.zoneArray == s.zoneArray && s1.zones - {zp} == s.zones - {zp}
    ensures var (r, s') := FormatZone(c, s1, zp, zi, size, req); Formatted(c, s, s', zp, zi, size, r)
  {
    var s' := FormatZone(c, s1, zp, zi, size, req).1;
    assert [zp] + [] == [zp];
    SameButOne(s.zones, s1.zones, zp, s'.zones[zp]);
  }

  lemma FetchedSame(c: Config, s: State, s1: State, s2: State, zp: nat)
    requires Fetched(c, s, s1, zp) && s1.pages == s2.pages && s1.zoneFree == s2.zoneFree
    ensures Fetched(c, s, s2, zp)
  {
  }

  lemma TakenFetched(c: Config, s: State)
    requires c.Ok() && Inv(c, s) && TakeZone(c, s).0.Some?
    ensures Fetched(c, s, TakeZone(c, s).1, TakeZone(c, s).0.value)
  {
    hide ZonesOk, LiveOk, CountsOk, CacheOk, OwnersOk, Has;
    if s.zoneFree == [] {
      AllocRunExact(s.pages, c.ZonePages());
      GrabZonePages(c, s);
    }
  }

  lemma NobodyListed(c: Config, s: State, i: nat)
    requires c.Ok() && Inv(c, s) && i < NZONES && forall zq :: !HasRoom(s, i, zq)
    ensures s.zoneArray[i] == []
  {
    hide PagesOk, ZonesOk, LiveOk, CountsOk, CacheOk;
    if s.zoneArray[i] != [] {
      assert s.zoneArray[i][0] in s.zoneArray[i];
      Listed(c, s, i, s.zoneArray[i][0]);
    }
  }

  // -------------------------------------------------------------------- free

  /** Giving pages back frees exactly those pages, and touches no zone. */
  lemma FreeLargeExactly(c: Config, s: State, a: nat)
    requires c.Ok() && Inv(c, s) && a in s.live && s.live[a].Large?
    ensures var s' := Free(c, s, a);
      && (forall p :: Has(s'.pages, p) <==> Has(s.pages, p) || a / PAGE <= p < a / PAGE + s.live[a].npages)
      && s'.zones == s.zones && s'.zoneArray == s.zoneArray && s'.zoneFree == s.zoneFree
  {
    var n, page := s.live[a].npages, a / PAGE;
    assert BlockOk(c, s, a, s.live[a]);
    assert forall p :: page <= p < page + n ==> s.owner[p] == LargePage(page);
    FreeRunExact(s.pages, page, n);
  }

  /** The zone that the chunk at a belongs to leaves use: this was the last chunk out, and
      another zone of its class has room. */
  ghost predicate LeavesUse(s: State, a: nat)
    requires a in s.live && s.live[a].Chunk? && s.live[a].zone in s.zones
  {
    var z := s.zones[s.live[a].zone];
    z.nfree + 1 == z.nmax && exists zq :: zq != s.live[a].zone && HasRoom(s, z.zoneIndex, zq)
  }

  lemma ChunkZone(c: Config, s: State, a: nat)
    requires c.Ok() && Inv(c, s) && a in s.live && s.live[a].Chunk?
    ensures var zp := s.live[a].zone;
      && zp in s.zones && s.zones[zp].InUse() && s.zones[zp].zoneIndex < NZONES == |s.zoneArray|
      && s.zones[zp].nmax >= 3
      && Distinct(s.zoneArray[s.zones[zp].zoneIndex])
  {
    assert BlockOk(c, s, a, s.live[a]);
    assert ZoneShape(c, s.live[a].zone, s.zones[s.live[a].zone]);
    assert ListOk(s, s.zones[s.live[a].zone].zoneIndex, s.zoneArray[s.zones[s.live[a].zone].zoneIndex]);
  }

  /** The test of the code, first or last on the list but not both, is whether any other zone
      of the class has room. */
  lemma SpareExactly(c: Config, s: State, a: nat)
    requires c.Ok() && Inv(c, s) && a in s.live && s.live[a].Chunk?
    ensures var zp := s.live[a].zone;
      && zp in s.zones && s.zones[zp].zoneIndex < |s.zoneArray|
      && (Spare(ReturnChunk(s, zp, a), zp) <==> LeavesUse(s, a))
  {
    hide PagesOk, ZonesOk, LiveOk, CountsOk, CacheOk, ListsOk;
    ChunkZone(c, s, a);
    var zp := s.live[a].zone;
    var z := s.zones[zp];
    var i := z.zoneIndex;
    Listed(c, s, i, zp);
    forall zq ensures zq in s.zoneArray[i] <==> HasRoom(s, i, zq) { Listed(c, s, i, zq); }
    if z.nfree > 0 {
      SomeOther(s.zoneArray[i], zp);
      if LeavesUse(s, a) { assert exists x :: x in s.zoneArray[i] && x != zp; }
    }
  }

  lemma SomeOther(l: seq<nat>, x: nat)
    requires Distinct(l) && x in l
    ensures (l[|l| - 1] != x || l[0] != x) <==> exists y :: y in l && y != x
  {
    if l[|l| - 1] != x { assert l[|l| - 1] in l; }
    if l[0] != x { assert l[0] in l; }
    if l[|l| - 1] == x == l[0] { assert |l| == 1; }
  }

  /** A chunk given back goes to the head of its zone's free chunks; a zone that had no room
      goes to the head of the list of its class.  While the zone stays in use nothing else
      moves. */
  lemma FreeChunkStays(c: Config, s: State, a: nat)
    requires c.Ok() && Inv(c, s) && a in s.live && s.live[a].Chunk?
    requires s.live[a].zone in s.zones && !LeavesUse(s, a)
    ensures var s', zp := Free(c, s, a), s.live[a].zone; var z := s.zones[zp];
      && z.zoneIndex < |s.zoneArray|
      && s'.zones == s.zones[zp := z.(freeChunks := [a] + z.freeChunks, nfree := z.nfree + 1)]
      && s'.zoneArray == (if z.nfree > 0 then s.zoneArray
                          else s.zoneArray[z.zoneIndex := [zp] + s.zoneArray[z.zoneIndex]])
      && s'.pages == s.pages && s'.zoneFree == s.zoneFree
  {
    SpareExactly(c, s, a);
  }

  /** A zone that leaves use leaves the list of its class.  It becomes the zone cached last
      when fewer than two are cached; otherwise its pages are free again and the cache is as
      it was. */
  lemma FreeChunkRetires(c: Config, s: State, a: nat)
    requires c.Ok() && Inv(c, s) && a in s.live && s.live[a].Chunk?
    requires s.live[a].zone in s.zones && LeavesUse(s, a)
    ensures var s', zp := Free(c, s, a), s.live[a].zone; var z := s.zones[zp]; var l := z.zoneIndex;
      && l < |s.zoneArray| && s'.zoneArray == s.zoneArray[l := Without(s.zoneArray[l], zp)]
      && (forall zq :: zq != zp ==> (zq in s.zones <==> zq in s'.zones))
      && (forall zq :: zq != zp && zq in s.zones ==> s'.zones[zq] == s.zones[zq])
      && (|s.zoneFree| < 2 ==>
           zp in s'.zones && !s'.zones[zp].InUse() && s'.zoneFree == [zp] + s.zoneFree && s'.pages == s.pages)
      && (|s.zoneFree| >= 2 ==>
           && zp !in s'.zones && s'.zoneFree == s.zoneFree
           && forall p :: Has(s'.pages, p) <==> Has(s.pages, p) || zp <= p < zp + c.ZonePages())
  {
    hide PagesOk, ZonesOk, LiveOk, CountsOk, CacheOk, ListsOk, FreeRun, Has;
    SpareExactly(c, s, a);
    ChunkZone(c, s, a);
    CacheCount(c, s);
    ZoneRunFreed(c, s, s.live[a].zone);
    var z := s.zones[s.live[a].zone];
    assert z.nfree > 0;
  }

  lemma CacheCount(c: Config, s: State)
    requires c.Ok() && Inv(c, s)
    ensures s.zoneFreeCnt == |s.zoneFree| <= 2
  {
  }

  lemma ZoneRunFreed(c: Config, s: State, zp: nat)
    requires c.Ok() && Inv(c, s) && zp in s.zones
    ensures forall p :: Has(FreeRun(s.pages, zp, c.ZonePages()), p) <==> Has(s.pages, p) || zp <= p < zp + c.ZonePages()
  {
    var n := c.ZonePages();
    assert ZonePagesOk(c, s, zp);
    assert forall p :: zp <= p < zp + n ==> s.owner[p] == ZonePage(zp);
    FreeRunExact(s.pages, zp, n);
  }

  /** After a chunk is given back its class has a zone with room. */
  lemma FreeLeavesRoom(c: Config, s: State, a: nat)
    requires c.Ok() && Inv(c, s) && a in s.live && s.live[a].Chunk?
    ensures var zp := s.live[a].zone;
      && zp in s.zones && s.zones[zp].zoneIndex < NZONES == |Free(c, s, a).zoneArray|
      && Free(c, s, a).zoneArray[s.zones[zp].zoneIndex] != []
      && exists zq :: HasRoom(Free(c, s, a), s.zones[zp].zoneIndex, zq)
  {
    hide PagesOk, ZonesOk, LiveOk, CountsOk, CacheOk, ListsOk;
    ChunkZone(c, s, a);
    var zp := s.live[a].zone;
    var i, s' := s.zones[zp].zoneIndex, Free(c, s, a);
    FreeInv(c, s, a);
    ListCount(c, s');
    var zq := zp;
    if LeavesUse(s, a) {
      FreeChunkRetires(c, s, a);
      zq :| zq != zp && HasRoom(s, i, zq);
    } else {
      FreeChunkStays(c, s, a);
    }
    assert HasRoom(s', i, zq);
    Listed(c, s', i, zq);
  }

  lemma ListCount(c: Config, s: State)
    requires c.Ok() && Inv(c, s)
    ensures |s.zoneArray| == NZONES
  {
  }

  // -------------------------------------------------------------- whole runs

  /** Of each class at most one zone in use is whole. */
  ghost predicate OneWhole(s: State) {
    forall zp, zq :: Whole(s, zp) && Whole(s, zq) && s.zones[zp].zoneIndex == s.zones[zq].zoneIndex ==> zp == zq
  }

  lemma WholeHasRoom(c: Config, s: State, zp: nat)
    requires c.Ok() && Inv(c, s) && Whole(s, zp)
    ensures HasRoom(s, s.zones[zp].zoneIndex, zp)
  {
    assert ZoneShape(c, zp, s.zones[zp]);
  }

  /** One zone changed, and is not whole. */
  lemma OneChanged(s: State, s': State, zp: nat)
    requires OneWhole(s) && zp in s'.zones && s'.zones == s.zones[zp := s'.zones[zp]] && !Whole(s', zp)
    ensures OneWhole(s')
  {
    forall zx, zy | Whole(s', zx) && Whole(s', zy) && s'.zones[zx].zoneIndex == s'.zones[zy].zoneIndex
      ensures zx == zy
    {
      assert Whole(s, zx) && Whole(s, zy);
    }
  }

  lemma AllocOneWhole(c: Config, s: State, req: nat)
    requires c.Ok() && Inv(c, s) && OneWhole(s) && req < WORD
    ensures OneWhole(Alloc(c, s, req).1)
  {
    hide Inv, OneWhole, Alloc, Granted, ZoneIndex, Added;
    if req == 0 {
      AllocNothing(c, s);
    } else {
      AllocEffect(c, s, req);
      var (r, s') := Alloc(c, s, req);
      if r.Some? { AllocSomeOneWhole(c, s, req); }
    }
  }

  lemma AllocNothing(c: Config, s: State)
    requires c.Ok() && Inv(c, s)
    ensures Alloc(c, s, 0) == (None, s)
  {
  }

  lemma AllocSomeOneWhole(c: Config, s: State, req: nat)
    requires c.Ok() && Inv(c, s) && OneWhole(s) && 0 < req < WORD && Alloc(c, s, req).0.Some?
    ensures OneWhole(Alloc(c, s, req).1)
  {
    hide Inv, OneWhole, Alloc, ZoneIndex, Has, AllFree, Fetched;
    if req < c.ZoneLimit() { ZoneIndexFits(req); }
    var (r, s') := Alloc(c, s, req);
    if req >= c.ZoneLimit() {
      AllocLargeExactly(c, s, req);
      SameZones(s, s');
    } else if exists zq :: HasRoom(s, ZoneIndex(req).0, zq) {
      var zq :| HasRoom(s, ZoneIndex(req).0, zq);
      AllocChunkExactly(c, s, req, zq);
      var zp := s.zoneArray[ZoneIndex(req).0][0];
      AtMost(c, s, zp);
      OneChanged(s, s', zp);
    } else {
      var zp := AllocZoneExactly(c, s, req);
      OneChanged(s, s', zp);
    }
  }

  lemma AtMost(c: Config, s: State, zp: nat)
    requires c.Ok() && Inv(c, s) && zp in s.zones && s.zones[zp].InUse()
    ensures s.zones[zp].nfree <= s.zones[zp].nmax
  {
    var z := s.zones[zp];
    assert ZoneShape(c, zp, z);
    DistinctCount(z.freeChunks);
    SlotsCount(z, z.uindex + 1);
    var es, ss := Elements(z.freeChunks), Slots(z, z.uindex + 1);
    forall x | x in es ensures x in ss { assert Carved(z, x); }
    SubsetCount(es, ss);
  }

  lemma SameZones(s: State, s': State)
    requires OneWhole(s) && s'.zones == s.zones
    ensures OneWhole(s')
  {
    assert forall zp :: Whole(s, zp) <==> Whole(s', zp);
  }

  lemma FreeOneWhole(c: Config, s: State, a: nat)
    requires c.Ok() && Inv(c, s) && OneWhole(s) && a in s.live
    ensures OneWhole(Free(c, s, a))
  {
    hide Inv, OneWhole, Free, Has;
    var s' := Free(c, s, a);
    if s.live[a].Large? {
      FreeLargeExactly(c, s, a);
      SameZones(s, s');
    } else {
      ChunkZone(c, s, a);
      if LeavesUse(s, a) {
        FreeChunkRetires(c, s, a);
        OneRetired(s, s', s.live[a].zone);
      } else {
        StaysOneWhole(c, s, a);
      }
    }
  }

  lemma OneRetired(s: State, s': State, zp: nat)
    requires OneWhole(s) && (zp in s'.zones ==> !s'.zones[zp].InUse())
    requires forall zq :: zq != zp ==> (zq in s.zones <==> zq in s'.zones)
    requires forall zq :: zq != zp && zq in s.zones ==> s'.zones[zq] == s.zones[zq]
    ensures OneWhole(s')
  {
    assert forall zq :: Whole(s', zq) ==> Whole(s, zq);
  }

  lemma StaysOneWhole(c: Config, s: State, a: nat)
    requires c.Ok() && Inv(c, s) && OneWhole(s) && a in s.live && s.live[a].Chunk?
    requires s.live[a].zone in s.zones && !LeavesUse(s, a)
    ensures OneWhole(Free(c, s, a))
  {
    hide Inv, Free;
    FreeChunkStays(c, s, a);
    var s', zp := Free(c, s, a), s.live[a].zone;
    forall zx, zy | Whole(s', zx) && Whole(s', zy) && s'.zones[zx].zoneIndex == s'.zones[zy].zoneIndex
      ensures zx == zy
    {
      if zx != zp { WholeHasRoom(c, s, zx); }
      if zy != zp { WholeHasRoom(c, s, zy); }
    }
  }

  /** Over every run, from a heap with no zones on, of each class at most one zone in use is
      whole. */
  lemma {:induction false} OneWholeEver(c: Config, s: State, ops: seq<Op>)
    requires c.Ok() && Inv(c, s) && (s.zones == map[] || OneWhole(s))
    ensures Inv(c, SlabTheorems.Run(c, s, ops)) && OneWhole(SlabTheorems.Run(c, s, ops))
    decreases |ops|
  {
    if ops != [] {
      StepInv(c, s, ops[0]);
      match ops[0] {
        case AllocOp(size) => AllocOneWhole(c, s, size % WORD);
        case FreeOp(a) => if a in s.live { FreeOneWhole(c, s, a); }
      }
      OneWholeEver(c, Step(c, s, ops[0]), ops[1..]);
    }
  }

  // --------------------------------------------------------------- alignment

  lemma ChunkSizeEights(zi: int)
    requires 0 <= zi < NZONES
    ensures ChunkSize(zi) % 8 == 0
  {
  }

  /** Where the chunks of a zone are, counted from the start of the zone: at multiples of their
      size if that is a power of two, of 8 otherwise. */
  lemma ChunkInZone(c: Config, zp: nat, z: Zone, a: nat)
    requires c.Ok() && ZoneShape(c, zp, z) && Carved(z, a)
    ensures a >= zp * PAGE && (a - zp * PAGE) % (if PowerOfTwo(z.chunkSize) then z.chunkSize else 8) == 0
  {
    hide ChunkSize, PowerOfTwo, RoundUp, Quotient;
    var k: nat :| k <= z.uindex && a == SlotAddr(z.base, z.chunkSize, k);
    var size, off := z.chunkSize, c.ChunkOffset(z.chunkSize);
    LayoutExactly(c, size);
    SlotAddrIs(z.base, size, k);
    ChunkSizeEights(z.zoneIndex);
    TimesMod(k, size);
    assert size * k == k * size;
    if PowerOfTwo(size) {
      SumMod(off, k * size, size);
    } else {
      EightTimes(k, size);
      SumMod(off, k * size, 8);
    }
  }

  lemma EightTimes(k: nat, size: nat)
    requires size % 8 == 0
    ensures (k * size) % 8 == 0
  {
    var q := size / 8;
    assert k * size == 8 * (k * q);
  }

  /** Every block the client holds is aligned to 8 bytes, counted from the start of the heap, and
      a chunk whose size is a power of two up to a page to its size; a larger one is so exactly
      when its zone is. */
  lemma LiveBlocksAligned(c: Config, s: State, a: nat)
    requires c.Ok() && Inv(c, s) && a in s.live
    ensures a % 8 == 0
    ensures s.live[a].Chunk? ==>
      var size := s.live[a].size;
      && size > 0 && (PowerOfTwo(size) && size <= PAGE ==> a % size == 0)
      && (PowerOfTwo(size) && size > PAGE ==> (a % size == 0 <==> s.live[a].zone * PAGE % size == 0))
  {
    hide InvBut, PowerOfTwo;
    if s.live[a].Chunk? {
      var zp, size := s.live[a].zone, s.live[a].size;
      ChunkAligned(c, s, a);
      FromZone(a, zp * PAGE, if PowerOfTwo(size) then size else 8);
      PageMultiple(zp, size);
      if PowerOfTwo(size) {
        EightDivides(a - zp * PAGE, size);
        FromZone(a, zp * PAGE, 8);
      }
    } else {
      LargeAligned(c, s, a);
    }
  }

  lemma ChunkAligned(c: Config, s: State, a: nat)
    requires c.Ok() && Inv(c, s) && a in s.live && s.live[a].Chunk?
    ensures var zp, size := s.live[a].zone, s.live[a].size;
      size > 0 && a >= zp * PAGE && (a - zp * PAGE) % (if PowerOfTwo(size) then size else 8) == 0
  {
    hide PowerOfTwo, ZoneShape, Carved;
    assert BlockOk(c, s, a, s.live[a]);
    var zp := s.live[a].zone;
    assert ZoneShape(c, zp, s.zones[zp]);
    ChunkInZone(c, zp, s.zones[zp], a);
    PositiveSize(c, zp, s.zones[zp]);
  }

  lemma PositiveSize(c: Config, zp: nat, z: Zone)
    requires c.Ok() && ZoneShape(c, zp, z)
    ensures z.chunkSize > 0
  {
  }

  lemma LargeAligned(c: Config, s: State, a: nat)
    requires c.Ok() && Inv(c, s) && a in s.live && s.live[a].Large?
    ensures a % 8 == 0
  {
    assert BlockOk(c, s, a, s.live[a]);
    assert a == PAGE * (a / PAGE);
    assert a == 8 * (512 * (a / PAGE));
  }

  lemma EightDivides(x: nat, size: nat)
    requires PowerOfTwo(size) && x % size == 0
    ensures x % 8 == 0
  {
    assert size % 8 == 0;
    var q := x / size;
    assert x == q * size;
    EightTimes(q, size);
  }

  /** An address and the start of its zone are aligned together. */
  lemma FromZone(a: nat, start: nat, m: nat)
    requires m > 0 && a >= start && (a - start) % m == 0
    ensures a % m == 0 <==> start % m == 0
  {
    if start % m == 0 { SumMod(a - start, start, m); }
    if a % m == 0 { DiffMod(a - start, start, m); }
  }

  lemma PageMultiple(zp: nat, size: nat)
    requires size > 0
    ensures zp * PAGE % 8 == 0
    ensures PowerOfTwo(size) ==> size % 8 == 0
    ensures PowerOfTwo(size) && size <= PAGE ==> zp * PAGE % size == 0
  {
    if PowerOfTwo(size) && size <= PAGE {
      var q := PAGE / size;
      assert zp * PAGE == size * (zp * q);
      TimesMod(zp * q, size);
    }
  }

  /** And it goes wrong at once: on a new heap with one page of table, a request that gets a
      chunk of 8192 bytes is served from the zone on page 1. */
  lemma BigChunkMisaligned(c: Config, s: State)
    requires c.Ok() && Inv(c, s) && s.zones == map[] && c.metaPages == 1 && c.npages > c.ZonePages()
    requires forall p :: Has(s.pages, p) <==> 1 <= p < c.npages
    ensures var r := Alloc(c, s, 8191).0;
      && ZoneIndex(8191).1 == 8192 && PowerOfTwo(8192) && r == Some(12288) && 12288 % 8192 != 0
  {
    hide Inv, Has, Alloc, AllFree;
    LimitExactly(c);
    BigClass();
    NewHeapServes(c, s);
    var zp := AllocZoneExactly(c, s, 8191);
    NoneCached(c, s);
    LowestIsOne(c, s, zp);
    LayoutExactly(c, 8192);
    assert c.ChunkOffset(8192) == 8192;
  }

  lemma BigClass()
    ensures ZoneIndex(8191).1 == 8192 && 0 <= ZoneIndex(8191).0
  {
    ZoneIndexFits(8191);
    assert RoundUp(8191, 512) == 8192;
  }

  lemma NewHeapServes(c: Config, s: State)
    requires c.Ok() && Inv(c, s) && s.zones == map[] && c.npages > c.ZonePages()
    requires forall p :: Has(s.pages, p) <==> 1 <= p < c.npages
    ensures 8191 < c.ZoneLimit() && Alloc(c, s, 8191).0.Some?
  {
    hide Inv, Has, Alloc;
    LimitExactly(c);
    AllocFailsExactly(c, s, 8191);
    assert AllFree(s.pages, 1, c.ZonePages());
  }

  lemma NoneCached(c: Config, s: State)
    requires c.Ok() && Inv(c, s) && s.zones == map[]
    ensures s.zoneFree == []
  {
    if s.zoneFree != [] { SomeMember(s.zoneFree); }
  }

  lemma SomeMember(l: seq<nat>)
    requires l != []
    ensures exists x :: x in l
  {
    assert l[0] in l;
  }

  lemma LowestIsOne(c: Config, s: State, zp: nat)
    requires c.Ok() && c.npages > c.ZonePages() && forall p :: Has(s.pages, p) <==> 1 <= p < c.npages
    requires AllFree(s.pages, zp, c.ZonePages()) && forall p: nat :: AllFree(s.pages, p, c.ZonePages()) ==> zp <= p
    ensures zp == 1
  {
    hide Has;
    assert AllFree(s.pages, 1, c.ZonePages());
    assert Has(s.pages, zp);
  }
}
