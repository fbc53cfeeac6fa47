/** What a client of the slab allocator may rely on, over every run. */
module SlabTheorems {
  import opened Wrappers
  import opened Words
  import opened SlabPages
  import opened SlabZones
  import opened SlabState
  import opened SlabGeometry
  import opened SlabProof

  // ----------------------------------------------------------- memory safety

  /** Two blocks the client holds never overlap. */
  lemma LiveBlocksApart(c: Config, s: State, a: nat, b: nat)
    requires c.Ok() && Inv(c, s) && a in s.live && b in s.live && a != b
    ensures Apart(a, s.live[a].Footprint(), b, s.live[b].Footprint())
  {
    var f, k, o := BlockPages(c, s, a);
    var g, l, q := BlockPages(c, s, b);
    assert BlockOk(c, s, a, s.live[a]) && BlockOk(c, s, b, s.live[b]);
    if o != q {
      OwnersApart(s.owner, a, s.live[a].Footprint(), f, k, o, b, s.live[b].Footprint(), g, l, q);
    } else if o.ZonePage? {
      CarvedApart(s.zones[o.zone], a, b);
    }
  }

  /** A block is at least as large as requested, and lies in the heap past the table. */
  lemma LiveBlockInside(c: Config, s: State, a: nat)
    requires c.Ok() && Inv(c, s) && a in s.live
    ensures 0 < s.live[a].req <= s.live[a].Footprint()
    ensures c.metaPages * PAGE <= a && a + s.live[a].Footprint() <= c.npages * PAGE
  {
    var f, k, o := BlockPages(c, s, a);
    assert BlockOk(c, s, a, s.live[a]);
    assert s.owner[f] != Meta;
  }

  lemma FreePageUnowned(c: Config, s: State, p: nat)
    requires c.Ok() && Inv(c, s) && Has(s.pages, p)
    ensures p < |s.owner| && s.owner[p] == FreePage
  {
    hide ZonesOk, LiveOk, ListsOk, CountsOk, OwnersOk, Canonical, Has;
  }

  /** No block overlaps a free page. */
  lemma FreePageApart(c: Config, s: State, a: nat, p: nat)
    requires c.Ok() && Inv(c, s) && a in s.live && Has(s.pages, p)
    ensures Apart(a, s.live[a].Footprint(), p * PAGE, PAGE)
  {
    hide PagesOk, ZonesOk, LiveOk, ListsOk, CountsOk, Has, Apart;
    FreePageUnowned(c, s, p);
    var f, k, o := BlockPages(c, s, a);
    OwnersApart(s.owner, a, s.live[a].Footprint(), f, k, o, p * PAGE, PAGE, p, 1, FreePage);
  }

  /** No block overlaps the in-band header of any zone, in use or cached. */
  lemma HeaderApart(c: Config, s: State, a: nat, zp: nat)
    requires c.Ok() && Inv(c, s) && a in s.live && zp in s.zones
    ensures Apart(a, s.live[a].Footprint(), zp * PAGE, c.header)
  {
    var f, k, o := BlockPages(c, s, a);
    assert ZonePagesOk(c, s, zp);
    if o != ZonePage(zp) {
      OwnersApart(s.owner, a, s.live[a].Footprint(), f, k, o, zp * PAGE, c.header, zp, c.ZonePages(), ZonePage(zp));
    } else {
      assert BlockOk(c, s, a, s.live[a]);
      CarvedInside(c, zp, s.zones[zp], a);
    }
  }

  /** No block overlaps a chunk waiting on a zone's free list. */
  lemma FreeChunkApart(c: Config, s: State, a: nat, zp: nat, x: nat)
    requires c.Ok() && Inv(c, s) && a in s.live && zp in s.zones && s.zones[zp].InUse() && x in s.zones[zp].freeChunks
    ensures Apart(a, s.live[a].Footprint(), x, s.zones[zp].chunkSize)
  {
    var z := s.zones[zp];
    var f, k, o := BlockPages(c, s, a);
    assert ZonePagesOk(c, s, zp) && ZoneShape(c, zp, z) && ChunksOk(s, z);
    CarvedInside(c, zp, z, x);
    if o != ZonePage(zp) {
      OwnersApart(s.owner, a, s.live[a].Footprint(), f, k, o, x, z.chunkSize, zp, c.ZonePages(), ZonePage(zp));
    } else {
      assert BlockOk(c, s, a, s.live[a]);
      CarvedApart(z, a, x);
    }
  }

  /** The free chunks of one zone do not overlap one another either. */
  lemma FreeChunksApart(c: Config, s: State, zp: nat, i: nat, j: nat)
    requires c.Ok() && Inv(c, s) && zp in s.zones && s.zones[zp].InUse()
    requires i < j < |s.zones[zp].freeChunks|
    ensures Apart(s.zones[zp].freeChunks[i], s.zones[zp].chunkSize, s.zones[zp].freeChunks[j], s.zones[zp].chunkSize)
  {
    var z := s.zones[zp];
    assert ZoneShape(c, zp, z);
    assert z.freeChunks[i] in z.freeChunks && z.freeChunks[j] in z.freeChunks;
    CarvedApart(z, z.freeChunks[i], z.freeChunks[j]);
  }

  /** The per-page table leads from any chunk the client holds back to the header of its
      zone, and tells chunks from large blocks. */
  lemma UsageFindsZone(c: Config, s: State, a: nat)
    requires c.Ok() && Inv(c, s) && a in s.live
    ensures a / PAGE < |s.usage|
    ensures s.live[a].Large? <==> s.usage[a / PAGE].kind == LargeType
    ensures s.live[a].Large? ==> s.usage[a / PAGE].size == s.live[a].npages && a == a / PAGE * PAGE
    ensures s.live[a].Chunk? ==> a / PAGE - s.usage[a / PAGE].size == s.live[a].zone
  {
    assert BlockOk(c, s, a, s.live[a]);
    if s.live[a].Chunk? {
      CarvedPage(c, s, s.live[a].zone, a);
    }
  }

  // ------------------------------------------------------ effect of the calls

  /** The chunk size the request is served with, or the pages for a large one. */
  ghost function Granted(c: Config, req: nat): nat
    requires c.Ok() && 0 < req < WORD
  {
    if req >= c.ZoneLimit() then AlignPage(req) else ZoneIndex(req).1
  }

  /** s' is s with one more block, new to the client. */
  ghost predicate Added(s: State, s': State, a: nat, req: nat, size: nat) {
    && a !in s.live && a in s'.live
    && s'.live[a].req == req && s'.live[a].Footprint() == size
    && s'.live == s.live[a := s'.live[a]]
    && s'.used == s.used + size && s'.max == Max(s.max, s'.used)
  }

  lemma AllocLargeEffect(c: Config, s: State, req: nat)
    requires c.Ok() && Inv(c, s) && 0 < req < WORD
    ensures var (r, s') := AllocLarge(s, req);
      if r.None? then s' == s else Added(s, s', r.value, req, AlignPage(req))
  {
    var n := AlignPage(req) / PAGE;
    AlignPageFits(req);
    if AllocLarge(s, req).0.Some? {
      TakenPages(c, s, n);
      FreePageNotLive(c, s, AllocRun(s.pages, n).0.value);
    }
  }

  lemma AllocChunkEffect(c: Config, s: State, zi: nat, req: nat)
    requires c.Ok() && Inv(c, s) && zi < NZONES && s.zoneArray[zi] != [] && 0 < req <= ChunkSize(zi)
    ensures var (r, s') := AllocChunk(s, zi, req);
      r.Some? && Added(s, s', r.value, req, ChunkSize(zi))
  {
    AllocChunkZones(c, s, zi, req);
    var zp := s.zoneArray[zi][0];
    assert ListOk(s, zi, s.zoneArray[zi]) && zp in s.zoneArray[zi];
    assert ZoneShape(c, zp, s.zones[zp]);
  }

  lemma NewZoneEffect(c: Config, s: State, req: nat)
    requires c.Ok() && Inv(c, s) && 0 < req < c.ZoneLimit() && s.zoneArray[ZoneIndex(req).0] == []
    ensures var (r, s') := Alloc(c, s, req);
      if r.None? then s' == s else Added(s, s', r.value, req, ZoneIndex(req).1)
  {
    hide InvBut;
    var (zi, size) := ZoneIndex(req);
    ZoneIndexFits(req);
    NewZoneHoldsThree(c, req);
    TakeZoneInv(c, s);
    var (t, s1) := TakeZone(c, s);
    assert s1.live == s.live && s1.used == s.used && s1.max == s.max;
    if t.Some? { FormatZoneInv(c, s1, t.value, zi, req); }
  }

  /** A successful call adds one new block, of the granted size, and leaves every other
      block as it was; a failed call changes nothing at all. */
  lemma AllocEffect(c: Config, s: State, req: nat)
    requires c.Ok() && Inv(c, s) && 0 < req < WORD
    ensures var (r, s') := Alloc(c, s, req);
      if r.None? then s' == s else Added(s, s', r.value, req, Granted(c, req))
  {
    if req >= c.ZoneLimit() {
      AllocLargeEffect(c, s, req);
    } else {
      var (zi, size) := ZoneIndex(req);
      ZoneIndexFits(req);
      if s.zoneArray[zi] != [] {
        AllocChunkEffect(c, s, zi, req);
      } else {
        NewZoneEffect(c, s, req);
      }
    }
  }

  /** Allocation fails in exactly these cases.  A large request fails when its rounded
      size wraps or no run of that many pages is free.  A small one fails when no zone of
      its class has room, no zone is cached, and no run of a zone's pages is free. */
  lemma AllocFailsExactly(c: Config, s: State, req: nat)
    requires c.Ok() && Inv(c, s) && req < WORD
    ensures Alloc(c, s, req).0.None? <==>
      (req == 0
      || (req >= c.ZoneLimit() && (req > WORD - PAGE || forall p :: !AllFree(s.pages, p, AlignPage(req) / PAGE)))
      || (req < c.ZoneLimit()
          && (forall zp :: zp in s.zones ==>
               s.zones[zp].InUse() && !(s.zones[zp].chunkSize == ZoneIndex(req).1 && s.zones[zp].nfree > 0))
          && (forall p :: !AllFree(s.pages, p, c.ZonePages()))))
  {
    if req >= c.ZoneLimit() {
      AlignPageFits(req);
      if req <= WORD - PAGE { AllocRunExact(s.pages, AlignPage(req) / PAGE); }
    } else if req > 0 {
      var (zi, size) := ZoneIndex(req);
      ZoneIndexFits(req);
      ClassEmpty(c, s, zi);
      assert s.zoneFree == [] <==> forall zp :: zp in s.zones ==> s.zones[zp].InUse() by {
        if s.zoneFree != [] { assert s.zoneFree[0] in s.zoneFree; }
      }
      AllocRunExact(s.pages, c.ZonePages());
    }
  }

  /** A list is empty exactly when no zone with its chunk size has room. */
  lemma ClassEmpty(c: Config, s: State, zi: nat)
    requires c.Ok() && Inv(c, s) && zi < NZONES
    ensures s.zoneArray[zi] == [] <==>
      forall zp :: zp in s.zones ==>
        !(s.zones[zp].InUse() && s.zones[zp].chunkSize == ChunkSize(zi) && s.zones[zp].nfree > 0)
  {
    assert ListOk(s, zi, s.zoneArray[zi]);
    if s.zoneArray[zi] != [] {
      var zp := s.zoneArray[zi][0];
      assert zp in s.zoneArray[zi] && ZoneShape(c, zp, s.zones[zp]);
    }
    forall zp | zp in s.zones && s.zones[zp].InUse() && s.zones[zp].chunkSize == ChunkSize(zi) && s.zones[zp].nfree > 0
      ensures zp in s.zoneArray[zi]
    {
      assert ZoneShape(c, zp, s.zones[zp]);
      var zj := s.zones[zp].zoneIndex;
      if zj < zi { ChunkSizeStrict(zj, zi); } else if zi < zj { ChunkSizeStrict(zi, zj); }
    }
  }

  /** Freeing removes exactly that block from the client's holdings and its size from
      the bytes in use. */
  lemma FreeEffect(c: Config, s: State, a: nat)
    requires c.Ok() && Inv(c, s) && a in s.live
    ensures Free(c, s, a).live == s.live - {a}
    ensures Free(c, s, a).used == s.used - s.live[a].Footprint()
    ensures Free(c, s, a).max == s.max
  {
    LiveIndices(c, s, a);
    if s.live[a].Chunk? {
      assert ChunkOk(s, a, s.live[a].req, s.live[a].zone, s.live[a].size);
      var s1 := ReturnChunk(s, s.live[a].zone, a);
      assert s1.live == s.live - {a} && s1.used == s.used - s.live[a].size && s1.max == s.max;
    }
  }

  /** A block given straight back leaves every list as it was when it was large. */
  lemma LargeRoundTrip(c: Config, s: State, req: nat)
    requires c.Ok() && Inv(c, s) && c.ZoneLimit() <= req < WORD && Alloc(c, s, req).0.Some?
    ensures var (r, s1) := Alloc(c, s, req);
      Inv(c, s1) && r.value in s1.live
      && Free(c, s1, r.value) == s.(usage := s.usage[r.value / PAGE := Usage(LargeType, 0)], max := s1.max)
  {
    hide AllocChunk, Retire, ChunkOk, RoundUp, AlignPage, Quotient, PowerOfTwo, OwnersOk;
    var (r, s1) := Alloc(c, s, req);
    AllocInv(c, s, req);
    AllocEffect(c, s, req);
    var n := AlignPage(req) / PAGE;
    AlignPageFits(req);
    AllocFreeRestores(s.pages, n);
    TakenPages(c, s, n);
    var s2 := Free(c, s1, r.value);
    assert s2.live == s.live;
    assert s2.owner == s.owner;
    assert s2.usage == s.usage[r.value / PAGE := Usage(LargeType, 0)];
  }

  // -------------------------------------------------------------- whole runs

  datatype Op = AllocOp(size: nat) | FreeOp(addr: nat)

  /** One client call.  Freeing a pointer the client does not hold is outside the
      allocator's interface; the step leaves the state alone. */
  ghost function Step(c: Config, s: State, op: Op): State
    requires c.Ok() && Inv(c, s)
  {
    match op
    case AllocOp(size) => Alloc(c, s, size % WORD).1
    case FreeOp(a) => if a in s.live then Free(c, s, a) else s
  }

  /** Every call keeps the invariant. */
  lemma StepInv(c: Config, s: State, op: Op)
    requires c.Ok() && Inv(c, s)
    ensures Inv(c, Step(c, s, op))
  {
    match op
    case AllocOp(size) => AllocInv(c, s, size % WORD);
    case FreeOp(a) => if a in s.live { FreeInv(c, s, a); }
  }

  ghost function Run(c: Config, s: State, ops: seq<Op>): State
    requires c.Ok() && Inv(c, s)
    decreases |ops|
  {
    if ops == [] then s
    else
      StepInv(c, s, ops[0]);
      Run(c, Step(c, s, ops[0]), ops[1..])
  }

  /** After any sequence of calls the bookkeeping still agrees, no two blocks overlap,
      and the bytes in use are the sizes of the blocks held. */
  lemma {:induction false} RunSafe(c: Config, s: State, ops: seq<Op>)
    requires c.Ok() && Inv(c, s)
    ensures Inv(c, Run(c, s, ops))
    ensures var t := Run(c, s, ops);
      && t.used == Total(t.live)
      && (forall a, b :: a in t.live && b in t.live && a != b ==>
           Apart(a, t.live[a].Footprint(), b, t.live[b].Footprint()))
      && (forall zp :: zp in t.zones && t.zones[zp].InUse() ==>
            t.zones[zp].nfree == t.zones[zp].nmax - 1 - t.zones[zp].uindex + |t.zones[zp].freeChunks|)
    decreases |ops|
  {
    if ops == [] {
      forall a, b | a in s.live && b in s.live && a != b
        ensures Apart(a, s.live[a].Footprint(), b, s.live[b].Footprint())
      {
        LiveBlocksApart(c, s, a, b);
      }
      assert forall zp :: zp in s.zones && s.zones[zp].InUse() ==> ZoneShape(c, zp, s.zones[zp]);
    } else {
      StepInv(c, s, ops[0]);
      RunSafe(c, Step(c, s, ops[0]), ops[1..]);
    }
  }
}
