/** What each memheap call leaves behind, exactly (rt-thread/src/memheap.c): which blocks are
    in use, in which order the free ones are listed, and what the counters read.  The blocks
    in use determine all others (HeapEffects.InUseDetermines). */
module MemHeapExact {
  import opened Wrappers
  import opened Words
  import opened Alignment
  import opened HeapBlocks
  import opened HeapEffects
  import opened Lists
  import opened MemHeapSpec
  import opened MemHeapTheorems

  // ------------------------------------------------------------------- alloc

  ghost predicate TooSmall(l: seq<Block>, a: nat, size: nat) {
    IndexOf(l, a) < |l| && l[IndexOf(l, a)].size < size
  }

  /** The block at a is the first on the free list that is big enough. */
  ghost predicate FirstBigEnough(h: Heap, a: nat, size: nat) {
    && IndexOf(h.blocks, a) < |h.blocks| && !TooSmall(h.blocks, a, size)
    && exists k: nat :: k < |h.frees| && h.frees[k] == a && forall j :: 0 <= j < k ==>
         TooSmall(h.blocks, h.frees[j], size)
  }

  lemma {:induction false} FirstFitFirst(l: seq<Block>, frees: seq<nat>, size: nat) returns (k: nat)
    requires forall a :: a in frees ==> IndexOf(l, a) < |l|
    requires FirstFit(l, frees, size).Some?
    ensures k < |frees| && FirstFit(l, frees, size) == Some(frees[k])
    ensures forall j :: 0 <= j < k ==> TooSmall(l, frees[j], size)
  {
    if l[IndexOf(l, frees[0])].size >= size {
      k := 0;
    } else {
      var m := FirstFitFirst(l, frees[1..], size);
      k := m + 1;
      forall j | 0 <= j < k ensures TooSmall(l, frees[j], size) {
        if j > 0 { assert frees[j] == frees[1..][j - 1]; }
      }
    }
  }

  /** What is handed out of a free block of `room` bytes. */
  function Portion(c: Config, room: nat, size: nat): nat {
    if room < size + c.header + MINIALLOC then room else size
  }

  lemma CarveInUse(c: Config, h: Heap, i: nat, size: nat)
    requires HeapOk(c, h) && i < |h.blocks| && !h.blocks[i].used && size <= h.blocks[i].size
    requires Tiled(c.header, c.pool, Carve(c, h, i, size).blocks)
    ensures var b := h.blocks[i]; var h' := Carve(c, h, i, size); var taken := Portion(c, b.size, size);
      && InUseAfter(h.blocks, h'.blocks, {}, {Block(b.addr, taken, true)})
      && h'.frees == (if taken < b.size then [b.addr + c.header + size] else []) + Without(h.frees, b.addr)
      && h'.maxUsed == Max(h.maxUsed, c.pool - h'.available)
  {
    hide Inv, Carve, KeepsOthers, InUseAfter, Without;
    TiledOk(c, h);
    CarveEffect(c, h, i, size);
    var h' := Carve(c, h, i, size);
    var d := h'.blocks[i];
    CarveValue(c, h, i, size);
    FreeAt(c.header, h.blocks, i);
    LiveNotFree(c.header, c.pool, h.blocks, d.addr);
    OneTaken(c.header, h.blocks, h'.blocks, d);
  }

  lemma CarveValue(c: Config, h: Heap, i: nat, size: nat)
    requires i < |h.blocks| && size <= h.blocks[i].size
    ensures var b := h.blocks[i]; var h' := Carve(c, h, i, size); var taken := Portion(c, b.size, size);
      && i < |h'.blocks| && h'.blocks[i] == Block(b.addr, taken, true)
      && h'.frees == (if taken < b.size then [b.addr + c.header + size] else []) + Without(h.frees, b.addr)
      && h'.maxUsed == Max(h.maxUsed, c.pool - h'.available)
  {
  }

  /** An allocation takes the first block on the free list that is big enough: all of it,
      unless a header and a minimal block fit behind the request; then that rest is the new
      head of the free list.  Nothing else changes hands. */
  lemma AllocExactly(c: Config, h: Heap, n: nat)
    requires HeapOk(c, h)
    ensures FreesHere(h)
    ensures var (h', r) := Alloc(c, h, n); var size := Round(c, n);
      r.Some? ==>
        && FirstBigEnough(h, r.value, size)
        && var room := h.blocks[IndexOf(h.blocks, r.value)].size; var taken := Portion(c, room, size);
        && InUseAfter(h.blocks, h'.blocks, {}, {Block(r.value, taken, true)})
        && h'.frees == (if taken < room then [r.value + c.header + size] else []) + Without(h.frees, r.value)
        && h'.maxUsed == Max(h.maxUsed, c.pool - h'.available)
  {
    hide Inv, InUseAfter, Carve, Without;
    FreesAreHere(c, h);
    AllocInv(c, h, n);
    var (h', r) := Alloc(c, h, n);
    if r.Some? {
      var k := FirstFitFirst(h.blocks, h.frees, Round(c, n));
      TiledOk(c, h');
      CarveInUse(c, h, IndexOf(h.blocks, r.value), Round(c, n));
    }
  }

  // -------------------------------------------------------------------- free

  /** A free gives up its block and no other; unless the block merges with a free one before
      it, it is the new head of the free list, and a free one behind it leaves the list. */
  lemma FreeExactly(c: Config, h: Heap, i: nat)
    requires CanFree(c, h, i)
    ensures var h' := Free(c, h, i); var b, next := h.blocks[i], h.blocks[i + 1];
      && InUseAfter(h.blocks, h'.blocks, {b}, {})
      && h'.frees == (if i > 0 && !h.blocks[i - 1].used then [] else [b.addr])
                     + (if next.used then h.frees else Without(h.frees, next.addr))
      && h'.maxUsed == h.maxUsed
  {
    FreeInv(c, h, i);
    var h' := Free(c, h, i);
    TiledOk(c, h);
    TiledOk(c, h');
    FreedGone(c.header, c.pool, h.blocks, i);
    FreedOrder(c, h, i);
  }

  lemma FreedOrder(c: Config, h: Heap, i: nat)
    requires i + 1 < |h.blocks|
    ensures var h' := Free(c, h, i); var b, next := h.blocks[i], h.blocks[i + 1];
      && h'.frees == (if i > 0 && !h.blocks[i - 1].used then [] else [b.addr])
                     + (if next.used then h.frees else Without(h.frees, next.addr))
      && h'.maxUsed == h.maxUsed
  {
  }

  // ----------------------------------------------------------------- realloc

  /** Whether a block can grow where it is: the one behind is free, and more than a minimal
      block is left of the two. */
  predicate CanGrow(b: Block, next: Block, size: nat) {
    !next.used && b.size + next.size > size + MINIALLOC
  }

  /** The size of a block that stays where it is: what it has, unless it is too small or a
      header and more than a minimal block can be cut off. */
  function Resized(c: Config, was: nat, size: nat): nat {
    if size <= was <= size + c.header + MINIALLOC then was else size
  }

  /** Realloc answers with the same pointer exactly when the block is big enough or can grow
      where it is. */
  lemma ReallocStaysExactly(c: Config, h: Heap, a: nat, n: nat)
    requires HeapOk(c, h) && AlignOk(c) && Live(h.blocks, a) && Safe(c, h, a, n) && n > 0
    ensures var i, size := IndexOf(h.blocks, a), Round(c, n); var b, next := h.blocks[i], h.blocks[i + 1];
      Realloc(c, h, Some(a), n).1 == Some(a) <==> size <= b.size || CanGrow(b, next, size)
  {
    hide Inv, Shrink, GrowWord, Free, Carve;
    FreesAreHere(c, h);
    var i, size := IndexOf(h.blocks, a), Round(c, n);
    if NoWrap(c, n) { GuardIsFit(c, h, i, n); }
    LiveAfterAlloc(c, h, size, a);
  }

  /** It fails exactly when the block is too small and cannot grow, and no free block holds
      the rounded request or it is all the free space there is. */
  lemma ReallocFailsExactly(c: Config, h: Heap, a: nat, n: nat)
    requires HeapOk(c, h) && AlignOk(c) && Live(h.blocks, a) && Safe(c, h, a, n) && n > 0
    ensures var i, size := IndexOf(h.blocks, a), Round(c, n); var b, next := h.blocks[i], h.blocks[i + 1];
      Realloc(c, h, Some(a), n).1 == None <==>
        size > b.size && !CanGrow(b, next, size) && (NoneFits(h, size) || size == h.available)
  {
    FreesAreHere(c, h);
    var i, size := IndexOf(h.blocks, a), Round(c, n);
    if size > h.blocks[i].size {
      LiveBlock(c.header, c.pool, MINIALLOC, h.blocks, a);
      RoundSettled(c, n);
      AllocFailsExactly(c, h, size);
    }
    FailsAsAlloc(c, h, a, n);
  }

  lemma FailsAsAlloc(c: Config, h: Heap, a: nat, n: nat)
    requires HeapOk(c, h) && AlignOk(c) && Live(h.blocks, a) && Safe(c, h, a, n) && n > 0 && FreesHere(h)
    ensures var i, size := IndexOf(h.blocks, a), Round(c, n); var b, next := h.blocks[i], h.blocks[i + 1];
      Realloc(c, h, Some(a), n).1 == None <==>
        size > b.size && !CanGrow(b, next, size) && Alloc(c, h, size).1 == None
  {
    hide Inv, Shrink, GrowWord, Free, Carve;
    var i, size := IndexOf(h.blocks, a), Round(c, n);
    if NoWrap(c, n) { GuardIsFit(c, h, i, n); }
    LiveAfterAlloc(c, h, size, a);
  }

  /** A rounded request above the minimum is not rounded any further. */
  lemma RoundSettled(c: Config, n: nat)
    requires ConfigOk(c) && AlignOk(c) && Round(c, n) > MINIALLOC
    ensures Round(c, Round(c, n)) == Round(c, n)
  {
    var size := Round(c, n);
    AlignUpAligned(c.align, n);
    RoomAbove(size, WORD, c.align);
    AlignedBetween(size, c.align);
  }

  /** When it moves the block, it is an allocation of the rounded request followed by a free
      of the old block. */
  lemma ReallocMoves(c: Config, h: Heap, a: nat, n: nat)
    requires HeapOk(c, h) && AlignOk(c) && Live(h.blocks, a) && Safe(c, h, a, n) && n > 0
    requires Realloc(c, h, Some(a), n).1.Some? && Realloc(c, h, Some(a), n).1 != Some(a)
    ensures FreesHere(h)
    ensures var (h1, r) := Alloc(c, h, Round(c, n));
      && r.Some? && CanFree(c, h1, IndexOf(h1.blocks, a))
      && Realloc(c, h, Some(a), n) == (Free(c, h1, IndexOf(h1.blocks, a)), r)
  {
    hide Inv, Shrink, GrowWord, Free, Carve;
    FreesAreHere(c, h);
    LiveAfterAlloc(c, h, Round(c, n), a);
  }

  /** With size 0 it is a free, and with a null pointer an allocation of the rounded request:
      the same as an allocation of the request, unless the minimum is not aligned and the
      request is that small. */
  lemma ReallocEnds(c: Config, h: Heap, a: nat, n: nat)
    requires HeapOk(c, h) && AlignOk(c) && (Live(h.blocks, a) || n > 0)
    ensures FreesHere(h)
    ensures n == 0 ==> Realloc(c, h, Some(a), n) == (Free(c, h, IndexOf(h.blocks, a)), None)
    ensures Realloc(c, h, None, 0) == (h, None)
    ensures n > 0 ==> Realloc(c, h, None, n) == Alloc(c, h, Round(c, n))
    ensures n > 0 && (Round(c, n) > MINIALLOC || MINIALLOC % c.align == 0) ==> Realloc(c, h, None, n) == Alloc(c, h, n)
  {
    FreesAreHere(c, h);
    if Round(c, n) > MINIALLOC { RoundSettled(c, n); } else if MINIALLOC % c.align == 0 { MinimumSettled(c); }
  }

  lemma MinimumSettled(c: Config)
    requires ConfigOk(c) && AlignOk(c) && MINIALLOC % c.align == 0
    ensures Round(c, MINIALLOC) == MINIALLOC
  {
    RoomAbove(MINIALLOC, WORD, c.align);
    AlignedBetween(MINIALLOC, c.align);
  }

  lemma ShrinkExactly(c: Config, h: Heap, i: nat, size: nat)
    requires CanFree(c, h, i) && MINIALLOC <= size && size + c.header + MINIALLOC < h.blocks[i].size
    ensures var h' := Shrink(c, h, i, size); var b, next := h.blocks[i], h.blocks[i + 1];
      && InUseAfter(h.blocks, h'.blocks, {b}, {Block(b.addr, size, true)})
      && h'.available == h.available + b.size - size - (if next.used then c.header else 0)
      && h'.maxUsed == h.maxUsed
      && h'.frees == [b.addr + c.header + size] + (if next.used then h.frees else Without(h.frees, next.addr))
  {
    hide Inv, Shrink, Tiled, Answered, InUseAfter, Without;
    ShrinkAnswers(c, h, i, size);
    var h' := Shrink(c, h, i, size);
    TiledOk(c, h);
    TiledOk(c, h');
    ShrinkValue(c, h, i, size);
    AnsweredInUse(c.header, c.pool, h.blocks, h'.blocks, i, size);
  }

  lemma ShrinkValue(c: Config, h: Heap, i: nat, size: nat)
    requires i + 1 < |h.blocks| && h.blocks[i].size >= size + c.header && h.blocks[i].used
    ensures var h' := Shrink(c, h, i, size); var b, next := h.blocks[i], h.blocks[i + 1];
      && i < |h'.blocks| && h'.blocks[i] == Block(b.addr, size, true)
      && h'.available == h.available + b.size - size - (if next.used then c.header else 0)
      && h'.maxUsed == h.maxUsed
      && h'.frees == [b.addr + c.header + size] + (if next.used then h.frees else Without(h.frees, next.addr))
  {
  }

  lemma GrowExactly(c: Config, h: Heap, i: nat, size: nat)
    requires CanFree(c, h, i) && CanGrow(h.blocks[i], h.blocks[i + 1], size) && size > h.blocks[i].size
    ensures var h' := Grow(c, h, i, size); var b, next := h.blocks[i], h.blocks[i + 1];
      && InUseAfter(h.blocks, h'.blocks, {b}, {Block(b.addr, size, true)})
      && h'.available == h.available + b.size - size
      && h'.maxUsed == Max(h.maxUsed, c.pool - h'.available)
      && h'.frees == [b.addr + c.header + size] + Without(h.frees, next.addr)
  {
    hide Inv, Grow, Tiled, Answered, InUseAfter, Without;
    GrowAnswers(c, h, i, size);
    var h' := Grow(c, h, i, size);
    TiledOk(c, h);
    TiledOk(c, h');
    GrowValue(c, h, i, size);
    AnsweredInUse(c.header, c.pool, h.blocks, h'.blocks, i, size);
  }

  lemma GrowValue(c: Config, h: Heap, i: nat, size: nat)
    requires i + 1 < |h.blocks| && h.blocks[i].size + h.blocks[i + 1].size >= size && h.blocks[i].used
    ensures var h' := Grow(c, h, i, size); var b, next := h.blocks[i], h.blocks[i + 1];
      && i < |h'.blocks| && h'.blocks[i] == Block(b.addr, size, true)
      && h'.available == h.available + b.size - size
      && h'.maxUsed == Max(h.maxUsed, c.pool - h'.available)
      && h'.frees == [b.addr + c.header + size] + Without(h.frees, next.addr)
  {
  }

  /** When the block stays where it is, it alone changes, to exactly this size, and so do the
      free space and the head of the free list; a growth counts towards the highest use. */
  lemma ReallocInPlace(c: Config, h: Heap, a: nat, n: nat)
    requires HeapOk(c, h) && AlignOk(c) && Live(h.blocks, a) && Safe(c, h, a, n) && n > 0
    requires Realloc(c, h, Some(a), n).1 == Some(a)
    ensures var h' := Realloc(c, h, Some(a), n).0;
      var i := IndexOf(h.blocks, a); var b, next := h.blocks[i], h.blocks[i + 1];
      var size := Resized(c, b.size, Round(c, n));
      && InUseAfter(h.blocks, h'.blocks, {b}, {Block(a, size, true)})
      && h'.available == h.available + b.size - size - (if size < b.size && next.used then c.header else 0)
      && h'.maxUsed == (if size > b.size then Max(h.maxUsed, c.pool - h'.available) else h.maxUsed)
      && (h'.frees == if size == b.size then h.frees
                      else [a + c.header + size] + (if next.used then h.frees else Without(h.frees, next.addr)))
  {
    hide Inv, Realloc, Shrink, GrowWord, Grow, Without, Tiled, IsFree, Round;
    ReallocStaysExactly(c, h, a, n);
    StaysPath(c, h, a, n);
    var i, size := IndexOf(h.blocks, a), Round(c, n);
    AtAddress(h.blocks, a);
    if size > h.blocks[i].size {
      GrowWordPlain(c, h, i, size);
      GrowExactly(c, h, i, size);
    } else if size + c.header + MINIALLOC < h.blocks[i].size {
      ShrinkExactly(c, h, i, size);
    } else {
      assert h.blocks[i] == Block(a, h.blocks[i].size, true);
    }
  }

  lemma StaysPath(c: Config, h: Heap, a: nat, n: nat)
    requires HeapOk(c, h) && AlignOk(c) && Live(h.blocks, a) && Safe(c, h, a, n) && n > 0
    requires Realloc(c, h, Some(a), n).1 == Some(a)
    ensures var i, size := IndexOf(h.blocks, a), Round(c, n); var was := h.blocks[i].size;
      && CanFree(c, h, i) && size >= MINIALLOC
      && Realloc(c, h, Some(a), n).0 ==
           if size > was then GrowWord(c, h, i, size)
           else if size + c.header + MINIALLOC < was then Shrink(c, h, i, size)
           else h
  {
    hide Inv, Shrink, GrowWord, Free, Carve;
    FreesAreHere(c, h);
    LiveAfterAlloc(c, h, Round(c, n), a);
  }

  /** So a block that realloc answers with is never bigger than the rounded request by more
      than a header and a minimal block. */
  lemma ReallocTight(c: Config, h: Heap, a: nat, n: nat)
    requires HeapOk(c, h) && AlignOk(c) && Live(h.blocks, a) && Safe(c, h, a, n) && n > 0
    requires Realloc(c, h, Some(a), n).1.Some?
    ensures var (h', r) := Realloc(c, h, Some(a), n);
      && Live(h'.blocks, r.value)
      && Round(c, n) <= h'.blocks[IndexOf(h'.blocks, r.value)].size <= Round(c, n) + c.header + MINIALLOC
  {
    var (h', r) := Realloc(c, h, Some(a), n);
    ReallocEffect(c, h, a, n);
    if r == Some(a) {
      ReallocInPlace(c, h, a, n);
      AnswerIs(c, h', Block(a, Resized(c, h.blocks[IndexOf(h.blocks, a)].size, Round(c, n)), true));
    } else {
      MovedTight(c, h, a, n);
    }
  }

  lemma AnswerIs(c: Config, h: Heap, b: Block)
    requires HeapOk(c, h) && b in h.blocks && b.size > 0
    ensures IndexOf(h.blocks, b.addr) < |h.blocks| && h.blocks[IndexOf(h.blocks, b.addr)] == b
  {
    var j :| 0 <= j < |h.blocks| && h.blocks[j] == b;
    IndexOfExact(c.header, h.blocks, j);
  }

  lemma MovedTight(c: Config, h: Heap, a: nat, n: nat)
    requires HeapOk(c, h) && AlignOk(c) && Live(h.blocks, a) && Safe(c, h, a, n) && n > 0
    requires Realloc(c, h, Some(a), n).1.Some? && Realloc(c, h, Some(a), n).1 != Some(a)
    ensures var (h', r) := Realloc(c, h, Some(a), n);
      && IndexOf(h'.blocks, r.value) < |h'.blocks|
      && h'.blocks[IndexOf(h'.blocks, r.value)].size <= Round(c, n) + c.header + MINIALLOC
  {
    var size := Round(c, n);
    ReallocMoves(c, h, a, n);
    ReallocStaysExactly(c, h, a, n);
    LiveBlock(c.header, c.pool, MINIALLOC, h.blocks, a);
    RoundSettled(c, n);
    AllocEffect(c, h, size);
    LiveAfterAlloc(c, h, size, a);
    var (h1, r) := Alloc(c, h, size);
    var i := IndexOf(h1.blocks, a);
    FreeInv(c, h1, i);
    FreeEffect(c, h1, i);
    var d := h1.blocks[IndexOf(h1.blocks, r.value)];
    LiveBlock(c.header, c.pool, MINIALLOC, h1.blocks, r.value);
    AnswerIs(c, Free(c, h1, i), d);
  }
}
