/** Where the blocks, chunks and headers of a valid slab state lie. */
module SlabGeometry {
  import opened Wrappers
  import opened Lists
  import opened SlabPages
  import opened SlabZones
  import opened SlabState

  /** Byte ranges [a, a+n) and [b, b+m) do not meet. */
  ghost predicate Apart(a: int, n: int, b: int, m: int) {
    a + n <= b || b + m <= a
  }

  lemma ZonesApart(c: Config, s: State, zp: nat, zq: nat)
    requires c.Ok() && ZonesOk(c, s) && zp in s.zones && zq in s.zones && zp != zq
    ensures Apart(zp, c.ZonePages(), zq, c.ZonePages())
  {
    var hi := if zp < zq then zq else zp;
    assert zp <= hi < zp + c.ZonePages() ==> s.owner[hi] == ZonePage(zp);
    assert zq <= hi < zq + c.ZonePages() ==> s.owner[hi] == ZonePage(zq);
  }

  /** A chunk lies past its zone's header and before the zone's end. */
  lemma CarvedInside(c: Config, zp: nat, z: Zone, a: nat)
    requires c.Ok() && ZoneShape(c, zp, z) && Carved(z, a)
    ensures zp * PAGE + c.header <= a && a + z.chunkSize <= (zp + c.ZonePages()) * PAGE
  {
    var k: nat :| k <= z.uindex && a == SlotAddr(z.base, z.chunkSize, k);
    SlotInside(z.base, z.chunkSize, k, c.zoneSize - c.ChunkOffset(z.chunkSize));
  }

  lemma CarvedApart(z: Zone, a: nat, b: nat)
    requires Carved(z, a) && Carved(z, b) && a != b
    ensures Apart(a, z.chunkSize, b, z.chunkSize)
  {
    var k: nat :| k <= z.uindex && a == SlotAddr(z.base, z.chunkSize, k);
    var l: nat :| l <= z.uindex && b == SlotAddr(z.base, z.chunkSize, l);
    if k < l { SlotsApart(z.base, z.chunkSize, k, l); } else if l < k { SlotsApart(z.base, z.chunkSize, l, k); }
  }

  /** The page a chunk starts on belongs to its zone. */
  lemma CarvedPage(c: Config, s: State, zp: nat, a: nat)
    requires c.Ok() && ZonesOk(c, s) && zp in s.zones && s.zones[zp].InUse() && Carved(s.zones[zp], a)
    ensures zp <= a / PAGE < |s.owner| == |s.usage| && s.owner[a / PAGE] == ZonePage(zp)
    ensures s.usage[a / PAGE] == Usage(SmallType, a / PAGE - zp)
  {
    CarvedInside(c, zp, s.zones[zp], a);
  }

  /** Every block lies within pages that all have one and the same owner, and only a
      chunk lies within pages of a zone. */
  lemma BlockPages(c: Config, s: State, a: nat) returns (first: nat, count: nat, o: Owner)
    requires c.Ok() && ZonesOk(c, s) && LiveOk(c, s) && a in s.live
    ensures first * PAGE <= a && a + s.live[a].Footprint() <= (first + count) * PAGE
    ensures first <= a / PAGE < first + count <= |s.owner|
    ensures forall p :: first <= p < first + count ==> s.owner[p] == o
    ensures s.live[a].Footprint() > 0
    ensures o == if s.live[a].Large? then LargePage(a / PAGE) else ZonePage(s.live[a].zone)
  {
    var b := s.live[a];
    assert BlockOk(c, s, a, b);
    if b.Large? {
      first, count, o := a / PAGE, b.npages, LargePage(a / PAGE);
    } else {
      CarvedInside(c, b.zone, s.zones[b.zone], a);
      first, count, o := b.zone, c.ZonePages(), ZonePage(b.zone);
    }
  }

  /** Ranges inside differently owned pages do not meet. */
  lemma OwnersApart(owner: seq<Owner>, x: nat, n: nat, f: nat, k: nat, o: Owner, y: nat, m: nat, g: nat, l: nat,
                    q: Owner)
    requires f * PAGE <= x && x + n <= (f + k) * PAGE && f + k <= |owner|
    requires g * PAGE <= y && y + m <= (g + l) * PAGE && g + l <= |owner|
    requires forall p :: f <= p < f + k ==> owner[p] == o
    requires forall p :: g <= p < g + l ==> owner[p] == q
    requires o != q && n > 0 && m > 0
    ensures Apart(x, n, y, m)
  {
    var p := if f < g then g else f;
    assert f <= p < f + k ==> owner[p] == o;
    assert g <= p < g + l ==> owner[p] == q;
  }

  /** No block and no chunk starts on a page the allocator owns as free. */
  lemma FreePageNotLive(c: Config, s: State, p: nat)
    requires c.Ok() && ZonesOk(c, s) && LiveOk(c, s) && p < |s.owner| && s.owner[p] == FreePage
    ensures p * PAGE !in s.live
    ensures forall zp :: zp in s.zones && s.zones[zp].InUse() ==> !Carved(s.zones[zp], p * PAGE)
  {
    if p * PAGE in s.live {
      var f, k, o := BlockPages(c, s, p * PAGE);
    }
    forall zp | zp in s.zones && s.zones[zp].InUse() ensures !Carved(s.zones[zp], p * PAGE) {
      if Carved(s.zones[zp], p * PAGE) { CarvedPage(c, s, zp, p * PAGE); }
    }
  }

  lemma LargesApart(c: Config, s: State, a: nat, b: nat)
    requires c.Ok() && LiveOk(c, s) && a in s.live && b in s.live && a != b
    requires s.live[a].Large? && s.live[b].Large?
    ensures Apart(a / PAGE, s.live[a].npages, b / PAGE, s.live[b].npages)
  {
    assert BlockOk(c, s, a, s.live[a]) && BlockOk(c, s, b, s.live[b]);
    var f, g := a / PAGE, b / PAGE;
    var p := if f < g then g else f;
    assert f <= p < f + s.live[a].npages ==> s.owner[p] == LargePage(f);
    assert g <= p < g + s.live[b].npages ==> s.owner[p] == LargePage(g);
    assert a == f * PAGE && b == g * PAGE;
  }

  lemma LargeZoneApart(c: Config, s: State, a: nat, zp: nat)
    requires c.Ok() && LiveOk(c, s) && ZonesOk(c, s) && a in s.live && s.live[a].Large? && zp in s.zones
    ensures Apart(a / PAGE, s.live[a].npages, zp, c.ZonePages())
  {
    assert BlockOk(c, s, a, s.live[a]) && ZonePagesOk(c, s, zp);
    var f := a / PAGE;
    var p := if f < zp then zp else f;
    assert f <= p < f + s.live[a].npages ==> s.owner[p] == LargePage(f);
    assert zp <= p < zp + c.ZonePages() ==> s.owner[p] == ZonePage(zp);
  }

  /** A range of free pages is apart from every large block and every zone. */
  lemma LargeFreeApart(c: Config, s: State, a: nat, p: nat, n: nat)
    requires c.Ok() && LiveOk(c, s) && a in s.live && s.live[a].Large? && n > 0 && p + n <= |s.owner|
    requires forall q :: p <= q < p + n ==> s.owner[q] == FreePage
    ensures Apart(a / PAGE, s.live[a].npages, p, n)
  {
    assert BlockOk(c, s, a, s.live[a]);
    var f := a / PAGE;
    var q := if f < p then p else f;
    assert f <= q < f + s.live[a].npages ==> s.owner[q] == LargePage(f);
    assert p <= q < p + n ==> s.owner[q] == FreePage;
  }

  lemma ZoneFreeApart(c: Config, s: State, zp: nat, p: nat, n: nat)
    requires c.Ok() && ZonesOk(c, s) && zp in s.zones && n > 0 && p + n <= |s.owner|
    requires forall q :: p <= q < p + n ==> s.owner[q] == FreePage
    ensures Apart(zp, c.ZonePages(), p, n)
  {
    assert ZonePagesOk(c, s, zp);
    var q := if zp < p then p else zp;
    assert zp <= q < zp + c.ZonePages() ==> s.owner[q] == ZonePage(zp);
    assert p <= q < p + n ==> s.owner[q] == FreePage;
  }

  /** A block that starts inside a zone is a chunk of that zone. */
  lemma BlockInZone(c: Config, s: State, zp: nat, a: nat)
    requires c.Ok() && ZonesOk(c, s) && LiveOk(c, s) && zp in s.zones && a in s.live
    requires zp * PAGE <= a < (zp + c.ZonePages()) * PAGE
    ensures s.live[a].Chunk? && s.live[a].zone == zp
    ensures s.zones[zp].InUse() && Carved(s.zones[zp], a) && a !in s.zones[zp].freeChunks
  {
    var f, k, o := BlockPages(c, s, a);
    assert ZonePagesOk(c, s, zp);
    assert zp <= a / PAGE < zp + c.ZonePages();
    assert s.owner[a / PAGE] == ZonePage(zp) && s.owner[a / PAGE] == o;
    assert BlockOk(c, s, a, s.live[a]);
    assert ChunksOk(s, s.zones[zp]);
  }

  // ------------------------------------------------------------- accounting

  lemma {:induction false} TotalRemove(live: map<nat, Block>, a: nat)
    requires a in live
    ensures Total(live) == live[a].Footprint() + Total(live - {a})
    decreases |live|
  {
    var b :| b in live && Total(live) == live[b].Footprint() + Total(live - {b});
    if a != b {
      TotalRemove(live - {b}, a);
      TotalRemove(live - {a}, b);
      assert live - {b} - {a} == live - {a} - {b};
    }
  }

  lemma TotalAdd(live: map<nat, Block>, a: nat, b: Block)
    requires a !in live
    ensures Total(live[a := b]) == Total(live) + b.Footprint()
  {
    TotalRemove(live[a := b], a);
    assert live[a := b] - {a} == live;
  }

  // -------------------------------------------------- counting distinct chunks

  ghost function Elements(l: seq<nat>): set<nat> { set i | 0 <= i < |l| :: l[i] }

  lemma {:induction false} DistinctCount(l: seq<nat>)
    requires Distinct(l)
    ensures |Elements(l)| == |l|
  {
    if l != [] {
      DistinctCount(l[1..]);
      assert Elements(l) == {l[0]} + Elements(l[1..]) by {
        forall x | x in Elements(l) ensures x in {l[0]} + Elements(l[1..]) {
          var i :| 0 <= i < |l| && l[i] == x;
          if i > 0 { assert l[1..][i - 1] == x; }
        }
        forall x | x in Elements(l[1..]) ensures x in Elements(l) {
          var i :| 0 <= i < |l[1..]| && l[1..][i] == x;
          assert l[i + 1] == x;
        }
      }
      assert l[0] !in Elements(l[1..]);
    }
  }

  ghost function Slots(z: Zone, n: nat): set<nat> {
    set k | 0 <= k < n :: SlotAddr(z.base, z.chunkSize, k)
  }

  lemma {:induction false} SlotsCount(z: Zone, n: nat)
    ensures |Slots(z, n)| <= n
  {
    if n > 0 {
      SlotsCount(z, n - 1);
      assert Slots(z, n) == Slots(z, n - 1) + {SlotAddr(z.base, z.chunkSize, n - 1)};
    }
  }

  /** A zone whose free count reaches its capacity has every chunk on its free list. */
  lemma WholeZone(c: Config, zp: nat, z: Zone, a: nat)
    requires c.Ok() && ZoneShape(c, zp, z) && z.nfree == z.nmax && Carved(z, a)
    ensures a in z.freeChunks
  {
    DistinctCount(z.freeChunks);
    SlotsCount(z, z.uindex + 1);
    var es, ss := Elements(z.freeChunks), Slots(z, z.uindex + 1);
    forall x | x in es ensures x in ss {
      assert x in z.freeChunks && Carved(z, x);
    }
    SubsetEqual(es, ss);
    assert a in ss;
  }

  lemma SubsetEqual(a: set<nat>, b: set<nat>)
    requires a <= b && |a| >= |b|
    ensures a == b
  {
    assert |b - a| == |b| - |a|;
  }
}
