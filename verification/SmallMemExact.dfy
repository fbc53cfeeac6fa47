/** What each call of the small memory algorithm leaves behind, exactly (rt-thread/src/mem.c):
    which blocks are in use and what the counters read.  The blocks in use determine all
    others (HeapEffects.InUseDetermines). */
module SmallMemExact {
  import opened Wrappers
  import opened Words
  import opened Alignment
  import opened HeapBlocks
  import opened HeapEffects
  import opened SmallMemSpec
  import opened SmallMemTheorems

  /** What is handed out of a free block of `room` bytes. */
  function Portion(c: Config, room: nat, size: nat): nat
    requires c.align >= 1
  {
    if room < size + c.header + MinAligned(c) then room else size
  }

  lemma CarveInUse(c: Config, h: Heap, i: nat, size: nat)
    requires HeapOk(c, h) && i < |h.blocks| && Fits(h.blocks[i], size) && size >= 1
    requires Tiled(c.header, Pool(c), Carve(c, h, i, size).blocks)
    ensures var b := h.blocks[i]; var h' := Carve(c, h, i, size); var taken := Portion(c, b.size, size);
      && InUseAfter(h.blocks, h'.blocks, {}, {Block(b.addr, taken, true)})
      && h'.used == h.used + taken + c.header && h'.peak == Max(h.peak, h'.used)
  {
    hide Inv, Carve, KeepsOthers, InUseAfter;
    TiledOk(c, h);
    CarveEffect(c, h, i, size);
    var h' := Carve(c, h, i, size);
    var d := h'.blocks[i];
    CarveValue(c, h, i, size);
    FreeAt(c.header, h.blocks, i);
    LiveNotFree(c.header, Pool(c), h.blocks, d.addr);
    OneTaken(c.header, h.blocks, h'.blocks, d);
  }

  lemma CarveValue(c: Config, h: Heap, i: nat, size: nat)
    requires c.align >= 1 && i < |h.blocks| && size <= h.blocks[i].size
    ensures var b := h.blocks[i]; var h' := Carve(c, h, i, size); var taken := Portion(c, b.size, size);
      && i < |h'.blocks| && h'.blocks[i] == Block(b.addr, taken, true)
      && h'.used == h.used + taken + c.header && h'.peak == Max(h.peak, h'.used)
  {
  }

  /** An allocation takes the lowest free block that is big enough: all of it, unless a header
      and a minimal block fit behind the request.  Nothing else changes hands. */
  lemma AllocExactly(c: Config, h: Heap, n: nat)
    requires HeapOk(c, h)
    ensures var (h', r) := Alloc(c, h, n); var size := Wanted(c, n);
      r.Some? ==>
        exists room: nat :: Block(r.value, room, false) in h.blocks && room >= size
          && (forall b :: b in h.blocks && !b.used && b.size >= size ==> r.value <= b.addr)
          && var taken := Portion(c, room, size);
          && InUseAfter(h.blocks, h'.blocks, {}, {Block(r.value, taken, true)})
          && h'.used == h.used + taken + c.header && h'.peak == Max(h.peak, h'.used)
  {
    hide Inv, InUseAfter, Carve;
    AllocInv(c, h, n);
    MinAlignedEnough(c);
    FirstFitExact(c, h, n);
    var (h', r) := Alloc(c, h, n);
    if r.Some? {
      var i := FirstFit(h.blocks, Wanted(c, n)).value;
      TiledOk(c, h');
      CarveInUse(c, h, i, Wanted(c, n));
      assert h.blocks[i] in h.blocks && h.blocks[i] == Block(r.value, h.blocks[i].size, false);
    }
  }

  /** A free gives up its block and no other. */
  lemma FreeExactly(c: Config, h: Heap, i: nat)
    requires HeapOk(c, h) && i < |h.blocks| - 1 && h.blocks[i].used
    ensures InUseAfter(h.blocks, Free(c, h, i).blocks, {h.blocks[i]}, {})
  {
    FreeInv(c, h, i);
    TiledOk(c, h);
    TiledOk(c, Free(c, h, i));
    FreedGone(c.header, Pool(c), h.blocks, i);
  }

  // ----------------------------------------------------------------- realloc

  /** Realloc answers with the same pointer exactly when the rounded request is the size the
      block has, or a header and more than a minimal block can be cut off. */
  lemma ReallocStaysExactly(c: Config, h: Heap, a: nat, n: nat)
    requires HeapOk(c, h) && AlignOk(c) && Live(h.blocks, a)
    ensures var size, was := AlignUp(c.align, n), h.blocks[IndexOf(h.blocks, a)].size;
      Realloc(c, h, Some(a), n).1 == Some(a) <==> 0 < size && (size == was || size + c.header + MIN_SIZE < was)
  {
    hide Inv, Shrink, Free, Alloc;
    var i, size := IndexOf(h.blocks, a), AlignUp(c.align, n);
    BlockBounds(c, h, i);
    LiveAfterAlloc(c, h, size, a);
  }

  /** The block then has exactly the rounded request, and nothing else changes hands. */
  lemma ReallocInPlace(c: Config, h: Heap, a: nat, n: nat)
    requires HeapOk(c, h) && AlignOk(c) && Live(h.blocks, a)
    requires Realloc(c, h, Some(a), n).1 == Some(a)
    ensures var h' := Realloc(c, h, Some(a), n).0; var b, size := h.blocks[IndexOf(h.blocks, a)], AlignUp(c.align, n);
      && InUseAfter(h.blocks, h'.blocks, {b}, {Block(a, size, true)})
      && h'.used == h.used - (b.size - size) && h'.peak == h.peak
  {
    hide Inv, Realloc, Shrink, Tiled, Answered, InUseAfter;
    ReallocStaysExactly(c, h, a, n);
    BlockBounds(c, h, IndexOf(h.blocks, a));
    StaysPath(c, h, a, n);
    var i, size := IndexOf(h.blocks, a), AlignUp(c.align, n);
    var b, h' := h.blocks[i], Realloc(c, h, Some(a), n).0;
    AtAddress(h.blocks, a);
    if size == b.size {
      assert b == Block(a, size, true);
      NothingChanged(h.blocks, b);
    } else {
      ShrinkAnswers(c, h, i, size);
      TiledOk(c, h);
      TiledOk(c, h');
      ShrinkValue(c, h, i, size);
      AnsweredInUse(c.header, Pool(c), h.blocks, h'.blocks, i, size);
    }
  }

  lemma AtAddress(l: seq<Block>, a: nat)
    requires Live(l, a)
    ensures IndexOf(l, a) < |l| - 1 && l[IndexOf(l, a)].addr == a && l[IndexOf(l, a)].used
  {
  }

  lemma NothingChanged(l: seq<Block>, b: Block)
    requires b in l
    ensures InUseAfter(l, l, {b}, {b})
  {
  }

  lemma ShrinkValue(c: Config, h: Heap, i: nat, size: nat)
    requires i + 1 < |h.blocks| && h.blocks[i].size >= size + c.header && h.blocks[i].used
    ensures var h' := Shrink(c, h, i, size); var b := h.blocks[i];
      && i < |h'.blocks| && h'.blocks[i] == Block(b.addr, size, true)
      && h'.used == h.used - (b.size - size) && h'.peak == h.peak
  {
  }

  lemma StaysPath(c: Config, h: Heap, a: nat, n: nat)
    requires HeapOk(c, h) && AlignOk(c) && Live(h.blocks, a)
    requires var size, was := AlignUp(c.align, n), h.blocks[IndexOf(h.blocks, a)].size;
      0 < size <= c.total && (size == was || Cuts(c, was, size))
    ensures var i, size := IndexOf(h.blocks, a), AlignUp(c.align, n);
      Realloc(c, h, Some(a), n).0 == if size == h.blocks[i].size then h else Shrink(c, h, i, size)
  {
    hide Inv, Shrink, Free, Alloc;
  }

  /** When it moves the block, it is an allocation of the request followed by a free of the
      old block. */
  lemma ReallocMoves(c: Config, h: Heap, a: nat, n: nat)
    requires HeapOk(c, h) && AlignOk(c) && Live(h.blocks, a)
    requires Realloc(c, h, Some(a), n).1.Some? && Realloc(c, h, Some(a), n).1 != Some(a)
    ensures var (h1, r) := Alloc(c, h, n);
      && r.Some? && Live(h1.blocks, a)
      && Realloc(c, h, Some(a), n) == (Free(c, h1, IndexOf(h1.blocks, a)), r)
  {
    hide Inv, Shrink, Free, Carve;
    var size := AlignUp(c.align, n);
    SameAlloc(c, h, n);
    LiveAfterAlloc(c, h, size, a);
  }

  /** Rounding the request first makes no difference to an allocation, unless it rounds to
      nothing. */
  lemma SameAlloc(c: Config, h: Heap, n: nat)
    requires ConfigOk(c) && AlignOk(c) && AlignUp(c.align, n) > 0
    ensures Alloc(c, h, AlignUp(c.align, n)) == Alloc(c, h, n)
  {
    hide Carve, FirstFit, Wanted, Alloc, AlignUp;
    WantedTwice(c, n);
    WantedIs(c, n);
    UpZero(c);
    SameWanted(c, h, AlignUp(c.align, n), n);
  }

  lemma UpZero(c: Config)
    requires ConfigOk(c)
    ensures AlignUp(c.align, 0) == 0
  {
    hide AlignUp, MinAligned;
    AlignUpExact(c.align, 0);
  }

  lemma SameWanted(c: Config, h: Heap, m: nat, n: nat)
    requires c.align >= 1 && m > 0 && n > 0
    requires AlignUp(c.align, m) == AlignUp(c.align, n) && Wanted(c, m) == Wanted(c, n)
    ensures Alloc(c, h, m) == Alloc(c, h, n)
  {
    hide Carve, FirstFit, Wanted, AlignUp;
  }

  lemma WantedIs(c: Config, n: nat)
    requires c.align >= 1
    ensures Wanted(c, n) == if AlignUp(c.align, n) < MinAligned(c) then MinAligned(c) else AlignUp(c.align, n)
  {
  }

  /** So with a null pointer realloc is an allocation, unless the request rounds to nothing. */
  lemma ReallocNull(c: Config, h: Heap, n: nat)
    requires HeapOk(c, h) && AlignOk(c)
    ensures Realloc(c, h, None, n) == if AlignUp(c.align, n) == 0 then (h, None) else Alloc(c, h, n)
  {
    hide Inv, Carve;
    if AlignUp(c.align, n) > 0 { SameAlloc(c, h, n); }
  }

  /** A block that realloc answers with is bigger than the rounded request by less than a
      header and a minimal block. */
  lemma ReallocTight(c: Config, h: Heap, a: nat, n: nat)
    requires HeapOk(c, h) && AlignOk(c) && Live(h.blocks, a)
    requires Realloc(c, h, Some(a), n).1.Some?
    ensures var (h', r) := Realloc(c, h, Some(a), n);
      && Live(h'.blocks, r.value)
      && AlignUp(c.align, n) <= h'.blocks[IndexOf(h'.blocks, r.value)].size < Wanted(c, n) + c.header + MinAligned(c)
  {
    var (h', r) := Realloc(c, h, Some(a), n);
    ReallocEffect(c, h, a, n);
    MinAlignedEnough(c);
    if r == Some(a) {
      ReallocInPlace(c, h, a, n);
      ReallocStaysExactly(c, h, a, n);
      AnswerIs(c, h', Block(a, AlignUp(c.align, n), true));
    } else {
      MovedTight(c, h, a, n);
    }
  }

  lemma AnswerIs(c: Config, h: Heap, b: Block)
    requires HeapOk(c, h) && b in h.blocks
    ensures IndexOf(h.blocks, b.addr) < |h.blocks| && h.blocks[IndexOf(h.blocks, b.addr)] == b
  {
    var j :| 0 <= j < |h.blocks| && h.blocks[j] == b;
    IndexOfExact(c.header, h.blocks, j);
  }

  lemma MovedTight(c: Config, h: Heap, a: nat, n: nat)
    requires HeapOk(c, h) && AlignOk(c) && Live(h.blocks, a)
    requires Realloc(c, h, Some(a), n).1.Some? && Realloc(c, h, Some(a), n).1 != Some(a)
    ensures var (h', r) := Realloc(c, h, Some(a), n);
      && IndexOf(h'.blocks, r.value) < |h'.blocks|
      && h'.blocks[IndexOf(h'.blocks, r.value)].size < Wanted(c, n) + c.header + MinAligned(c)
  {
    hide Inv, Realloc, Free, Alloc, InUseAfter;
    ReallocMoves(c, h, a, n);
    AllocEffect(c, h, n);
    LiveAfterAlloc(c, h, n, a);
    var (h1, r) := Alloc(c, h, n);
    var i := IndexOf(h1.blocks, a);
    FreeInv(c, h1, i);
    FreeEffect(c, h1, i);
    AtAddress(h1.blocks, r.value);
    var d := h1.blocks[IndexOf(h1.blocks, r.value)];
    assert d in h1.blocks && d.addr == r.value;
    AnswerIs(c, Free(c, h1, i), d);
  }
}
