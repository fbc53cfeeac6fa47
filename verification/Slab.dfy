/** The slab allocator in the source's own form: an object whose lists, usage table and
    statistics are updated in place (rt-thread/src/slab.c).  Every method is tied to the
    transition of `SlabState` it performs.  Null pointers are `None`; the in-band zone
    headers are the map `zones`, and the singly linked zone and chunk lists are sequences. */
module Slab {
  import opened Wrappers
  import opened Words
  import opened Lists
  import opened SlabPages
  import opened SlabZones
  import opened SlabState
  import opened SlabProof
  import opened SlabTheorems

  const USAGE_ENTRY := 4

  class Slab {
    const cfg: Config
    var pageList: seq<Run>
    const memusage: array<Usage>
    var zones: map<nat, Zone>
    var zoneArray: seq<seq<nat>>
    var zoneFree: seq<nat>
    var zoneFreeCnt: int
    var used: int
    var max: int
    ghost var live: map<nat, Block>
    ghost var owner: seq<Owner>

    ghost function View(): State
      reads this, memusage
    {
      State(pageList, memusage[..], zones, zoneArray, zoneFree, zoneFreeCnt, used, max, live, owner)
    }

    ghost predicate Valid()
      reads this, memusage
    {
      cfg.Ok() && Inv(cfg, View())
    }

    /** `rt_slab_init` past its address checks: build the page list, then take the pages
        of the usage table from it.  The table itself is left uninitialised. */
    constructor (npages: nat, zoneSize: nat, header: nat, table: array<Usage>)
      requires Config(npages, 0, zoneSize, header).Ok() && table.Length == npages
      ensures Valid()
      ensures cfg == Config(npages, TablePages(npages), zoneSize, header) && memusage == table
      ensures live == map[] && used == 0 && zones == map[]
      ensures forall p :: Has(pageList, p) <==> TablePages(npages) <= p < npages
    {
      cfg := Config(npages, TablePages(npages), zoneSize, header);
      memusage := table;
      pageList := [];
      zones := map[];
      zoneArray := seq(NZONES, _ => []);
      zoneFree := [];
      zoneFreeCnt := 0;
      used := 0;
      max := 0;
      live := map[];
      owner := seq(npages, p requires 0 <= p < npages => if p < TablePages(npages) then Meta else FreePage);
      new;
      TableFits(npages);
      PageFree(0, npages);
      var t := PageAlloc(TablePages(npages));
      InitPages(npages, TablePages(npages));
      InitInv(cfg, View());
    }

    /** `rt_slab_page_alloc`: first fit over the page list. */
    method PageAlloc(npages: nat) returns (b: Option<nat>)
      modifies this`pageList
      ensures npages == 0 ==> b == None && pageList == old(pageList)
      ensures npages > 0 ==> (b, pageList) == AllocRun(old(pageList), npages)
      ensures b.None? ==> pageList == old(pageList)
    {
      if npages == 0 {
        return None;
      }
      var i := 0;
      assert pageList[0..] == pageList && pageList[..0] + AllocRun(pageList, npages).1 == AllocRun(pageList, npages).1;
      while i < |pageList|
        invariant i <= |pageList| && pageList == old(pageList)
        invariant AllocRun(pageList, npages) ==
          (AllocRun(pageList[i..], npages).0, pageList[..i] + AllocRun(pageList[i..], npages).1)
      {
        ghost var rest := pageList[i..];
        assert rest[0] == pageList[i] && rest[1..] == pageList[i + 1..];
        var r := pageList[i];
        if r.count > npages {
          // split: the tail of the run takes its place
          pageList := pageList[..i] + [Run(r.start + npages, r.count - npages)] + pageList[i + 1..];
          assert pageList == old(pageList)[..i] + ([Run(r.start + npages, r.count - npages)] + rest[1..]);
          return Some(r.start);
        }
        if r.count == npages {
          pageList := pageList[..i] + pageList[i + 1..];
          return Some(r.start);
        }
        assert pageList[..i] + ([r] + AllocRun(rest[1..], npages).1) ==
          pageList[..i + 1] + AllocRun(rest[1..], npages).1;
        i := i + 1;
      }
      assert pageList[i..] == [] && pageList[..i] + [] == pageList;
      return None;
    }

    /** `rt_slab_page_free`: insertion in address order with coalescing both ways. */
    method PageFree(addr: nat, npages: nat)
      requires npages > 0
      modifies this`pageList
      ensures pageList == FreeRun(old(pageList), addr, npages)
    {
      ghost var l := pageList;
      var i := 0;
      while i < |pageList|
        invariant i <= |pageList| && pageList == l
        invariant forall j :: 0 <= j < i ==> !Stops(l[j], addr, npages)
      {
        var b := pageList[i];
        if b.start + b.count == addr {
          if i + 1 < |pageList| && addr + npages == pageList[i + 1].start {
            pageList := pageList[..i] + ([Run(b.start, b.count + npages + pageList[i + 1].count)] + pageList[i + 2..]);
          } else {
            pageList := pageList[..i] + ([Run(b.start, b.count + npages)] + pageList[i + 1..]);
          }
          FreeRunAt(l, i, addr, npages);
          return;
        }
        if b.start == addr + npages {
          pageList := pageList[..i] + ([Run(addr, b.count + npages)] + pageList[i + 1..]);
          FreeRunAt(l, i, addr, npages);
          return;
        }
        if b.start > addr + npages {
          break;
        }
        i := i + 1;
      }
      pageList := pageList[..i] + ([Run(addr, npages)] + pageList[i..]);
      FreeRunAt(l, i, addr, npages);
    }

    /** The loop that labels the pages of a zone taken from the page list. */
    method MarkZonePages(zp: nat)
      requires cfg.Ok() && zp + cfg.ZonePages() <= memusage.Length
      modifies memusage
      ensures memusage[..] == MarkZone(old(memusage[..]), zp, cfg.ZonePages())
    {
      for off := 0 to cfg.ZonePages()
        invariant memusage[..] == MarkZone(old(memusage[..]), zp, off)
      {
        memusage[zp + off] := Usage(SmallType, off);
      }
    }

    /** The loop that clears the labels of a zone given back to the page list. */
    method ClearZonePages(zp: nat)
      requires cfg.Ok() && zp + cfg.ZonePages() <= memusage.Length
      modifies memusage
      ensures memusage[..] == MarkFree(old(memusage[..]), zp, cfg.ZonePages())
    {
      for i := 0 to cfg.ZonePages()
        invariant memusage[..] == MarkFree(old(memusage[..]), zp, i)
      {
        memusage[zp + i] := Usage(FreeType, 0);
      }
    }

    /** `rt_slab_alloc`. */
    method Alloc(size: nat) returns (chunk: Option<nat>)
      requires Valid() && size < WORD
      modifies this, memusage
      ensures Valid()
      ensures (chunk, View()) == SlabState.Alloc(cfg, old(View()), size)
      ensures size > 0 ==>
        if chunk.None? then View() == old(View())
        else Added(old(View()), View(), chunk.value, size, Granted(cfg, size))
    {
      ghost var s0 := View();
      AllocInv(cfg, s0, size);
      if size > 0 { AllocEffect(cfg, s0, size); }
      if size == 0 {
        return None;
      }
      if size >= cfg.ZoneLimit() {
        ghost var n := AlignPage(size) / PAGE;
        if n > 0 { TakenPages(cfg, s0, n); }
        chunk := AllocPages(size);
        return;
      }
      var (zi, bytes) := ZoneIndex(size);
      ZoneIndexFits(size);
      NewZoneHoldsThree(cfg, size);
      if zoneArray[zi] != [] {
        ChunkIsReady(cfg, s0, zi);
        chunk := AllocFromZone(zi, bytes, size);
      } else {
        TakenPages(cfg, s0, cfg.ZonePages());
        chunk := AllocFromNewZone(zi, bytes, size);
      }
    }

    /** The large case: whole pages, recorded in the usage table. */
    method AllocPages(req: nat) returns (chunk: Option<nat>)
      requires var n := AlignPage(req) / PAGE;
        n > 0 ==> var r := AllocRun(pageList, n).0; r.Some? ==> r.value < memusage.Length
      modifies this, memusage
      ensures (chunk, View()) == AllocLarge(old(View()), req)
    {
      var size := AlignPage(req);
      var n := size / PAGE;
      assert n * PAGE == size;
      var p := PageAlloc(n);
      if p.None? {
        return None;
      }
      memusage[p.value] := Usage(LargeType, n);
      used := used + size;
      if used > max { max := used; }
      live := live[p.value * PAGE := Large(req, n)];
      owner := SetOwner(owner, p.value, n, LargePage(p.value));
      return Some(p.value * PAGE);
    }

    /** Allocation from the head of a non-empty zone list. */
    method AllocFromZone(zi: nat, size: nat, ghost req: nat) returns (chunk: Option<nat>)
      requires ChunkReady(View(), zi) && zones[zoneArray[zi][0]].chunkSize == size
      modifies this
      ensures (chunk, View()) == AllocChunk(old(View()), zi, req)
    {
      var zp := zoneArray[zi][0];
      var z := zones[zp];
      z := z.(nfree := z.nfree - 1);
      if z.nfree == 0 {
        zoneArray := zoneArray[zi := zoneArray[zi][1..]];
      }
      var a: nat;
      if z.uindex + 1 != z.nmax {
        z := z.(uindex := z.uindex + 1);
        a := z.base + z.uindex * size;
        SlotAddrIs(z.base, size, z.uindex);
      } else {
        a := z.freeChunks[0];
        z := z.(freeChunks := z.freeChunks[1..]);
      }
      zones := zones[zp := z];
      used := used + z.chunkSize;
      if used > max { max := used; }
      live := live[a := Chunk(req, zp, z.chunkSize)];
      return Some(a);
    }

    /** Allocation from a cached zone, or else from one carved out of the page list. */
    method AllocFromNewZone(zi: nat, size: nat, ghost req: nat) returns (chunk: Option<nat>)
      requires cfg.Ok() && zi < |zoneArray|
      requires size > 0 && cfg.ChunkOffset(size) <= cfg.zoneSize && cfg.ChunkCount(size) >= 3
      requires var r := AllocRun(pageList, cfg.ZonePages()).0;
        r.Some? ==> r.value + cfg.ZonePages() <= memusage.Length
      modifies this, memusage
      ensures var (r, s1) := TakeZone(cfg, old(View()));
        (chunk, View()) == if r.None? then (None, old(View())) else FormatZone(cfg, s1, r.value, zi, size, req)
    {
      hide AllocRun;
      var zp := TakeOrCarve();
      if zp.None? {
        return None;
      }
      var off := cfg.ChunkOffset(size);
      var nmax := (cfg.zoneSize - off) / size;
      var base := zp.value * PAGE + off;
      zones := zones[zp.value := Zone(ZONE_MAGIC, nmax - 1, nmax, base, 0, size, zi, [])];
      zoneArray := zoneArray[zi := [zp.value] + zoneArray[zi]];
      used := used + size;
      if used > max { max := used; }
      live := live[base := Chunk(req, zp.value, size)];
      return Some(base);
    }

    method TakeOrCarve() returns (zp: Option<nat>)
      requires cfg.Ok()
      requires var r := AllocRun(pageList, cfg.ZonePages()).0;
        r.Some? ==> r.value + cfg.ZonePages() <= memusage.Length
      modifies this, memusage
      ensures (zp, View()) == TakeZone(cfg, old(View()))
    {
      if zoneFree != [] {
        zp := Some(zoneFree[0]);
        zoneFree := zoneFree[1..];
        zoneFreeCnt := zoneFreeCnt - 1;
      } else {
        zp := PageAlloc(cfg.zoneSize / PAGE);
        if zp.Some? {
          MarkZonePages(zp.value);
          zones := zones[zp.value := BLANK];
          owner := SetOwner(owner, zp.value, cfg.ZonePages(), ZonePage(zp.value));
        }
      }
    }

    /** `rt_slab_free`. */
    method Free(ptr: nat)
      requires Valid() && ptr in live
      modifies this, memusage
      ensures Valid()
      ensures View() == SlabState.Free(cfg, old(View()), ptr)
      ensures live == old(live) - {ptr} && used == old(used) - old(live)[ptr].Footprint()
    {
      ghost var s0 := View();
      FreeInv(cfg, s0, ptr);
      FreeEffect(cfg, s0, ptr);
      FreeIsReady(cfg, s0, ptr);
      FreeByTable(ptr);
    }

    /** The usage table says what the pointer is and, for a chunk, where its zone starts. */
    method FreeByTable(ptr: nat)
      requires FreeReady(cfg, View(), ptr)
      modifies this, memusage
      ensures View() == Freed(cfg, old(View()), ptr)
    {
      var page := ptr / PAGE;
      var kup := memusage[page];
      if kup.kind == LargeType {
        FreePages(ptr, kup.size);
      } else {
        FreeToZone(ptr, page - kup.size);
      }
    }

    method FreePages(ptr: nat, n: nat)
      requires ptr in live && live[ptr] == Large(live[ptr].req, n) && n > 0
      requires ptr / PAGE < memusage.Length && memusage[ptr / PAGE] == Usage(LargeType, n)
      modifies this, memusage
      ensures View() == FreeLarge(old(View()), ptr)
    {
      var page := ptr / PAGE;
      memusage[page] := memusage[page].(size := 0);
      used := used - n * PAGE;
      live := live - {ptr};
      owner := SetOwner(owner, page, n, FreePage);
      PageFree(page, n);
    }

    /** The small case: chunk to zone, zone to its list, spare zone to the cache, and one
        zone too many back to the page list. */
    method FreeToZone(ptr: nat, zp: nat)
      requires FreeFitsZone(cfg, View(), zp)
      modifies this, memusage
      ensures var s1 := ReturnChunk(old(View()), zp, ptr);
        View() == if !Spare(s1, zp) then s1 else Retire(cfg, s1, zp)
    {
      hide Retire;
      var z := zones[zp];
      z := z.(freeChunks := [ptr] + z.freeChunks);
      used := used - z.chunkSize;
      live := live - {ptr};
      if z.nfree == 0 {
        zoneArray := zoneArray[z.zoneIndex := [zp] + zoneArray[z.zoneIndex]];
      }
      z := z.(nfree := z.nfree + 1);
      zones := zones[zp := z];
      var l := zoneArray[z.zoneIndex];
      if z.nfree == z.nmax && (l[|l| - 1] != zp || l[0] != zp) {
        CacheAndRelease(zp);
      }
    }

    method CacheAndRelease(zp: nat)
      requires cfg.Ok() && zp in zones && zones[zp].zoneIndex < |zoneArray| && zp in zoneArray[zones[zp].zoneIndex]
      requires zp + cfg.ZonePages() <= memusage.Length
      modifies this, memusage
      ensures View() == Retire(cfg, old(View()), zp)
    {
      hide Without;
      var z := zones[zp];
      Unlink(z.zoneIndex, zp);
      zones := zones[zp := z.(magic := DEAD_MAGIC)];
      zoneFree := [zp] + zoneFree;
      zoneFreeCnt := zoneFreeCnt + 1;
      if zoneFreeCnt > ZONE_RELEASE_THRESH {
        var victim := zoneFree[0];
        zoneFree := zoneFree[1..];
        zoneFreeCnt := zoneFreeCnt - 1;
        ClearZonePages(victim);
        PageFree(victim, cfg.zoneSize / PAGE);
        zones := zones - {victim};
        owner := SetOwner(owner, victim, cfg.ZonePages(), FreePage);
      }
    }

    /** The scan along a zone list for the link that leads to zp. */
    method Unlink(zi: nat, zp: nat)
      requires zi < |zoneArray| && zp in zoneArray[zi]
      modifies this`zoneArray
      ensures zoneArray == old(zoneArray)[zi := Without(old(zoneArray)[zi], zp)]
    {
      var i := 0;
      ghost var l := zoneArray[zi];
      while zoneArray[zi][i] != zp
        invariant i < |l| && zoneArray == old(zoneArray) && zp in l[i..]
        invariant zp !in l[..i]
        decreases |l| - i
      {
        i := i + 1;
      }
      RemoveAt(l, zp, i);
      zoneArray := zoneArray[zi := zoneArray[zi][..i] + zoneArray[zi][i + 1..]];
    }
  }

  lemma {:induction false} RemoveAt(l: seq<nat>, x: nat, i: nat)
    requires i < |l| && l[i] == x && x !in l[..i]
    ensures Without(l, x) == l[..i] + l[i + 1..]
  {
    if i > 0 {
      assert l[..i][0] == l[0];
      assert l[1..][..i - 1] == l[..i][1..];
      RemoveAt(l[1..], x, i - 1);
      assert l[1..][i..] == l[i + 1..];
    }
  }

  /** The insertion loop ends at a run that touches, or lies past, the freed pages. */
  ghost predicate Stops(b: Run, s: nat, n: nat) {
    b.start + b.count == s || b.start >= s + n
  }

  /** What each way out of the insertion loop leaves from its i-th run on. */
  ghost function Landed(l: seq<Run>, i: nat, s: nat, n: nat): seq<Run>
    requires i <= |l|
  {
    if i < |l| && l[i].start + l[i].count == s then
      if i + 1 < |l| && s + n == l[i + 1].start
      then [Run(l[i].start, l[i].count + n + l[i + 1].count)] + l[i + 2..]
      else [Run(l[i].start, l[i].count + n)] + l[i + 1..]
    else if i < |l| && l[i].start == s + n then [Run(s, l[i].count + n)] + l[i + 1..]
    else [Run(s, n)] + l[i..]
  }

  /** The runs passed over stay in front. */
  lemma {:induction false} FreeRunSkips(l: seq<Run>, i: nat, s: nat, n: nat)
    requires i <= |l| && n > 0
    requires forall j :: 0 <= j < i ==> !Stops(l[j], s, n)
    ensures FreeRun(l, s, n) == l[..i] + FreeRun(l[i..], s, n)
    decreases i
  {
    if i > 0 {
      var t := l[1..];
      FreeRunSkips(t, i - 1, s, n);
      assert l[i..] == t[i - 1..] && l[..i] == [l[0]] + t[..i - 1];
    } else {
      assert l[0..] == l;
    }
  }

  lemma LandedIs(l: seq<Run>, i: nat, s: nat, n: nat)
    requires i <= |l| && n > 0
    requires i < |l| ==> Stops(l[i], s, n)
    ensures FreeRun(l[i..], s, n) == Landed(l, i, s, n)
  {
    var t := l[i..];
    if i < |l| { assert t[0] == l[i] && t[1..] == l[i + 1..]; }
    if i + 1 < |l| { assert t[1] == l[i + 1] && t[2..] == l[i + 2..]; }
  }

  /** Stopping at the first run that qualifies is what `FreeRun` does. */
  lemma FreeRunAt(l: seq<Run>, i: nat, s: nat, n: nat)
    requires i <= |l| && n > 0
    requires forall j :: 0 <= j < i ==> !Stops(l[j], s, n)
    requires i < |l| ==> Stops(l[i], s, n)
    ensures FreeRun(l, s, n) == l[..i] + Landed(l, i, s, n)
  {
    FreeRunSkips(l, i, s, n);
    LandedIs(l, i, s, n);
  }

  /** What the small case of `rt_slab_free` relies on. */
  ghost predicate FreeFitsZone(c: Config, s: State, zp: nat) {
    && c.Ok() && zp in s.zones && s.zones[zp].zoneIndex < |s.zoneArray|
    && zp + c.ZonePages() <= |s.usage|
    && (s.zones[zp].nfree > 0 ==> zp in s.zoneArray[s.zones[zp].zoneIndex])
  }

  /** The usage table agrees with the ledger about the block at a. */
  ghost predicate FreeReady(c: Config, s: State, a: nat) {
    && a in s.live && a / PAGE < |s.usage|
    && var u := s.usage[a / PAGE];
      if s.live[a].Large? then u == Usage(LargeType, s.live[a].npages) && u.size > 0
      else u.kind != LargeType && a / PAGE - u.size == s.live[a].zone && FreeFitsZone(c, s, s.live[a].zone)
  }

  ghost function Freed(c: Config, s: State, a: nat): State
    requires FreeReady(c, s, a)
  {
    if s.live[a].Large? then FreeLarge(s, a)
    else
      var zp := s.live[a].zone;
      var s1 := ReturnChunk(s, zp, a);
      if !Spare(s1, zp) then s1 else Retire(c, s1, zp)
  }

  lemma FreeIsReady(c: Config, s: State, a: nat)
    requires c.Ok() && Inv(c, s) && a in s.live
    ensures FreeReady(c, s, a) && Freed(c, s, a) == SlabState.Free(c, s, a)
  {
    UsageFindsZone(c, s, a);
    LiveIndices(c, s, a);
    assert BlockOk(c, s, a, s.live[a]);
    if s.live[a].Chunk? {
      var zp := s.live[a].zone;
      assert ZonePagesOk(c, s, zp) && ZoneShape(c, zp, s.zones[zp]);
      assert ListOk(s, s.zones[zp].zoneIndex, s.zoneArray[s.zones[zp].zoneIndex]);
    }
  }

  /** Pages needed by the usage table of a heap of n pages. */
  function TablePages(n: nat): nat {
    (n * USAGE_ENTRY + PAGE - 1) / PAGE
  }

  lemma TableFits(n: nat)
    requires n > 0
    ensures 0 < TablePages(n) <= n
    ensures (TablePages(n) - 1) * PAGE < n * USAGE_ENTRY <= TablePages(n) * PAGE
  {
  }

  /** Taking the table's pages from a wholly free heap takes the lowest ones. */
  lemma InitPages(n: nat, m: nat)
    requires 0 < m <= n
    ensures var (r, l) := AllocRun(FreeRun([], 0, n), m);
      r == Some(0) && Canonical(l) && forall p :: Has(l, p) <==> m <= p < n
  {
    FreeRunExact([], 0, n);
    var whole := FreeRun([], 0, n);
    AllocRunExact(whole, m);
    assert AllFree(whole, 0, m);
  }

  /** A heap with nothing allocated but the table is in a valid state. */
  lemma InitInv(c: Config, s: State)
    requires c.Ok() && |s.owner| == c.npages == |s.usage| && c.metaPages <= c.npages
    requires Canonical(s.pages) && forall p :: Has(s.pages, p) <==> c.metaPages <= p < c.npages
    requires forall p :: 0 <= p < c.npages ==> s.owner[p] == if p < c.metaPages then Meta else FreePage
    requires s.zones == map[] && s.live == map[] && s.zoneFree == [] && s.zoneFreeCnt == 0
    requires |s.zoneArray| == NZONES && forall i :: 0 <= i < NZONES ==> s.zoneArray[i] == []
    requires s.used == 0 == s.max
    ensures Inv(c, s)
  {
  }

  /** The largest zone size that is below a 1024th of the heap, or else the smallest. */
  ghost predicate ZoneSizeFits(limsize: nat, zoneSize: nat) {
    && (zoneSize == MIN_ZONE_SIZE || zoneSize == 2 * MIN_ZONE_SIZE || zoneSize == MAX_ZONE_SIZE)
    && (zoneSize > MIN_ZONE_SIZE ==> zoneSize < limsize / 1024)
    && (zoneSize < MAX_ZONE_SIZE ==> 2 * zoneSize >= limsize / 1024)
  }

  /** The zone size of `rt_slab_init`: doubled from 32 KiB while twice the size is below a
      thousandth of the heap, up to 128 KiB. */
  method ZoneSizeFor(limsize: nat) returns (zoneSize: nat)
    ensures ZoneSizeFits(limsize, zoneSize)
  {
    zoneSize := MIN_ZONE_SIZE;
    while zoneSize < MAX_ZONE_SIZE && zoneSize * 2 < limsize / 1024
      invariant zoneSize == MIN_ZONE_SIZE || zoneSize == 2 * MIN_ZONE_SIZE || zoneSize == MAX_ZONE_SIZE
      invariant zoneSize > MIN_ZONE_SIZE ==> zoneSize < limsize / 1024
    {
      zoneSize := zoneSize * 2;
    }
  }

  /** `rt_slab_init`: place the object and the heap in the given memory, or fail when no
      whole page is left. */
  method Init(begin: nat, size: nat, objectSize: nat, alignSize: nat, header: nat, fill: Usage)
    returns (slab: Slab?, heapStart: nat)
    requires alignSize > 0 && 8 <= header <= 64 && begin + size < WORD
    ensures var first := RoundUp(RoundUp(begin, alignSize) + objectSize, PAGE);
      var last := (begin + size) / PAGE * PAGE;
      && (slab == null <==> first >= last)
      && (slab != null ==>
            && heapStart == first && fresh(slab) && fresh(slab.memusage) && slab.Valid() && slab.live == map[]
            && slab.cfg.npages == (last - first) / PAGE && slab.cfg.header == header
            && slab.cfg.metaPages == TablePages(slab.cfg.npages) && ZoneSizeFits(last - first, slab.cfg.zoneSize)
            && slab.zones == map[] && slab.used == 0
            && (forall p :: Has(slab.pageList, p) <==> slab.cfg.metaPages <= p < slab.cfg.npages))
  {
    heapStart := RoundUp(RoundUp(begin, alignSize) + objectSize, PAGE);
    var last := (begin + size) / PAGE * PAGE;
    if heapStart >= last {
      return null, heapStart;
    }
    var limsize := last - heapStart;
    var npages := limsize / PAGE;
    assert npages * PAGE == limsize;
    var zoneSize := ZoneSizeFor(limsize);
    var table := new Usage[npages](_ => fill);
    slab := new Slab(npages, zoneSize, header, table);
  }
}
