/** What the memheap calls promise (rt-thread/src/memheap.c), over single calls and over
    every history of calls. */
module MemHeapTheorems {
  import opened Wrappers
  import opened Words
  import opened Alignment
  import opened HeapBlocks
  import opened HeapEffects
  import opened Lists
  import opened MemHeapSpec

  ghost predicate HeapOk(c: Config, h: Heap) { ConfigOk(c) && Inv(c, h) }

  lemma TiledOk(c: Config, h: Heap)
    requires HeapOk(c, h)
    ensures Tiled(c.header, c.pool, h.blocks)
  {
  }

  // ---------------------------------------------------------------- rounding

  /** A rounded request is big enough unless rounding it up wraps; then it is minimal.  It is
      never below the minimum, and above it the first multiple of the alignment from n on. */
  lemma RoundExact(c: Config, n: nat)
    requires ConfigOk(c) && n < WORD
    ensures n <= Round(c, n) <==> n + c.align - 1 < WORD
    ensures n + c.align - 1 >= WORD ==> Round(c, n) == MINIALLOC
    ensures Round(c, n) >= MINIALLOC
    ensures Round(c, n) > MINIALLOC ==> Round(c, n) % c.align == 0 && Round(c, n) < n + c.align
  {
    AlignUpExact(c.align, n);
    AlignUpAligned(c.align, n);
  }

  // ------------------------------------------------------------------- alloc

  lemma CarveEffect(c: Config, h: Heap, i: nat, size: nat)
    requires HeapOk(c, h) && i < |h.blocks| && !h.blocks[i].used && size <= h.blocks[i].size
    ensures var h' := Carve(c, h, i, size);
      && i < |h'.blocks| && h'.blocks[i].addr == h.blocks[i].addr && h'.blocks[i].used
      && size <= h'.blocks[i].size <= h.blocks[i].size
      && h'.blocks[i].size < size + c.header + MINIALLOC
      && KeepsOthers(h.blocks, h'.blocks, h.blocks[i].addr) && KeepsOthers(h'.blocks, h.blocks, h.blocks[i].addr)
  {
    var b := h.blocks[i];
    var h' := Carve(c, h, i, size);
    var mid := if Splits(c, b.size, size) then
      [Block(b.addr, size, true), Block(b.addr + c.header + size, b.size - size - c.header, false)]
      else [b.(used := true)];
    assert h'.blocks == Splice(h.blocks, i, mid, i + 1);
    SpliceAt(h.blocks, i, mid, i + 1, i);
    assert h.blocks[i..i + 1] == [b];
    forall x | x in h.blocks && x.used && x.addr != b.addr ensures x in h'.blocks {
      InSplice(h.blocks, i, mid, i + 1, x);
    }
    forall x | x in h'.blocks && x.used && x.addr != b.addr ensures x in h.blocks {
      InSplice(h.blocks, i, mid, i + 1, x);
    }
  }

  /** A successful allocation turns a free block into one in use, at least as big as the
      rounded request and with less than a header and a minimal block to spare, and leaves
      every other block in use alone; a failed one changes nothing. */
  lemma AllocEffect(c: Config, h: Heap, n: nat)
    requires HeapOk(c, h)
    ensures FreesHere(h)
    ensures var (h', r) := Alloc(c, h, n);
      && Inv(c, h')
      && (r.None? ==> h' == h)
      && (r.Some? ==>
            && IsFree(h.blocks, r.value) && Live(h'.blocks, r.value)
            && Round(c, n) <= h'.blocks[IndexOf(h'.blocks, r.value)].size < Round(c, n) + c.header + MINIALLOC
            && KeepsOthers(h.blocks, h'.blocks, r.value) && KeepsOthers(h'.blocks, h.blocks, r.value))
  {
    FreesAreHere(c, h);
    AllocInv(c, h, n);
    var (h', r) := Alloc(c, h, n);
    if r.Some? {
      var i := IndexOf(h.blocks, r.value);
      CarveEffect(c, h, i, Round(c, n));
      IndexOfExact(c.header, h'.blocks, i);
      assert i < |h'.blocks| - 1 by {
        assert h'.blocks[i].size >= MINIALLOC;
      }
    }
  }

  /** The block returned holds the n bytes asked for exactly when rounding n up does not
      wrap; a request that wraps gets a minimal block. */
  lemma AllocLargeEnough(c: Config, h: Heap, n: nat)
    requires HeapOk(c, h) && n < WORD
    ensures FreesHere(h)
    ensures var (h', r) := Alloc(c, h, n);
      r.Some? ==>
        && Live(h'.blocks, r.value)
        && (h'.blocks[IndexOf(h'.blocks, r.value)].size >= n <==> n + c.align - 1 < WORD)
  {
    AllocEffect(c, h, n);
    RoundExact(c, n);
    var (h', r) := Alloc(c, h, n);
    if r.Some? { Inside(c.header, c.pool, h'.blocks, IndexOf(h'.blocks, r.value)); }
  }

  ghost predicate NoneFits(h: Heap, size: nat) {
    forall b :: b in h.blocks && !b.used ==> b.size < size
  }

  /** Allocation fails exactly when no free block is big enough, or when the rounded request
      is all the free space there is: the comparison with the available size is strict. */
  lemma AllocFailsExactly(c: Config, h: Heap, n: nat)
    requires HeapOk(c, h)
    ensures FreesHere(h)
    ensures Alloc(c, h, n).1 == None <==> NoneFits(h, Round(c, n)) || Round(c, n) == h.available
  {
    FreesAreHere(c, h);
    var size := Round(c, n);
    var fit := FirstFit(h.blocks, h.frees, size);
    if fit.None? {
      forall b | b in h.blocks && !b.used ensures b.size < size { FreeIsListed(c, h, b); }
    } else {
      assert h.blocks[IndexOf(h.blocks, fit.value)] in h.blocks;
    }
    if size > h.available {
      forall b | b in h.blocks && !b.used ensures b.size < size {
        var i :| 0 <= i < |h.blocks| && h.blocks[i] == b;
        FreeSumBounds(h.blocks, i);
      }
    }
  }

  lemma FreeIsListed(c: Config, h: Heap, b: Block)
    requires HeapOk(c, h) && b in h.blocks && !b.used
    ensures b.addr in h.frees && IndexOf(h.blocks, b.addr) < |h.blocks| && h.blocks[IndexOf(h.blocks, b.addr)] == b
  {
    var i :| 0 <= i < |h.blocks| && h.blocks[i] == b;
    IndexOfExact(c.header, h.blocks, i);
    assert IsFree(h.blocks, b.addr);
  }

  /** A free block big enough for a refused request is then the whole free space. */
  lemma RefusedThoughFits(c: Config, h: Heap, n: nat, b: Block)
    requires HeapOk(c, h) && b in h.blocks && !b.used && b.size >= Round(c, n)
    ensures FreesHere(h)
    ensures Alloc(c, h, n).1 == None ==> Round(c, n) == b.size == h.available
  {
    AllocFailsExactly(c, h, n);
    var i :| 0 <= i < |h.blocks| && h.blocks[i] == b;
    FreeSumBounds(h.blocks, i);
  }

  // -------------------------------------------------------------------- free

  /** Freeing a block leaves every other block in use alone and adds at least its payload
      to the free space. */
  lemma FreeEffect(c: Config, h: Heap, i: nat)
    requires CanFree(c, h, i)
    ensures var h' := Free(c, h, i);
      && Inv(c, h') && KeepsOthers(h.blocks, h'.blocks, h.blocks[i].addr)
      && KeepsOthers(h'.blocks, h.blocks, h.blocks[i].addr)
      && !Live(h'.blocks, h.blocks[i].addr)
      && h'.available >= h.available + h.blocks[i].size
  {
    FreeInv(c, h, i);
    FreedOthers(c.header, h.blocks, i);
    FreedNotLive(c.header, c.pool, h.blocks, i);
  }

  /** Freeing what was just allocated restores the blocks and the free space exactly; the
      block moves to the head of the free list. */
  lemma AllocFreeRestores(c: Config, h: Heap, n: nat)
    requires HeapOk(c, h)
    ensures FreesHere(h)
    ensures var (h1, r) := Alloc(c, h, n);
      r.Some? ==>
        var i := IndexOf(h1.blocks, r.value);
        && CanFree(c, h1, i)
        && var h2 := Free(c, h1, i);
        && h2.blocks == h.blocks && h2.available == h.available
        && h2.frees == [r.value] + Without(h.frees, r.value)
  {
    AllocEffect(c, h, n);
    FreesAreHere(c, h);
    var (h1, r) := Alloc(c, h, n);
    if r.Some? {
      var i := IndexOf(h.blocks, r.value);
      CarveEffect(c, h, i, Round(c, n));
      IndexOfExact(c.header, h1.blocks, i);
      CarveFree(c, h, i, Round(c, n));
    }
  }

  lemma CarveFree(c: Config, h: Heap, i: nat, size: nat)
    requires HeapOk(c, h) && i < |h.blocks| && !h.blocks[i].used && MINIALLOC <= size <= h.blocks[i].size
    ensures var h1 := Carve(c, h, i, size);
      && CanFree(c, h1, i)
      && var h2 := Free(c, h1, i);
      && h2.blocks == h.blocks && h2.available == h.available
      && h2.frees == [h.blocks[i].addr] + Without(h.frees, h.blocks[i].addr)
  {
    LeftOfFree(h.blocks, i);
    CarveEffect(c, h, i, size);
    if Splits(c, h.blocks[i].size, size) {
      CarveSplitInv(c, h, i, size);
      CarveFreeSplit(c, h, i, size);
    } else {
      CarveWholeInv(c, h, i, size);
      CarveFreeWhole(c, h, i, size);
    }
  }

  lemma CarveFreeSplit(c: Config, h: Heap, i: nat, size: nat)
    requires i + 1 < |h.blocks| && !h.blocks[i].used && (i > 0 ==> h.blocks[i - 1].used)
    requires Splits(c, h.blocks[i].size, size)
    ensures var h1 := Carve(c, h, i, size);
      && i + 1 < |h1.blocks|
      && var h2 := Free(c, h1, i);
      && h2.blocks == h.blocks && h2.available == h.available
      && h2.frees == [h.blocks[i].addr] + Without(h.frees, h.blocks[i].addr)
  {
    hide Without, IsFree, Carve, Splice, Free;
    var h1 := Carve(c, h, i, size);
    SplitBack(c, h.blocks, i, size);
    CarveSplitValue(c, h, i, size);
    FreeRightValue(c, h1, i);
    SplitMerge(c, h, h1, Free(c, h1, i), i);
  }

  lemma SplitMerge(c: Config, h: Heap, h1: Heap, h2: Heap, i: nat)
    requires i < |h.blocks| && i + 1 < |h1.blocks|
    requires var used, rest := h1.blocks[i], h1.blocks[i + 1];
      && h1.frees == [rest.addr] + Without(h.frees, used.addr) && used.addr == h.blocks[i].addr
      && h1.available == h.available - used.size - c.header
      && Splice(h1.blocks, i, [Block(used.addr, used.size + (c.header + rest.size), false)], i + 2) == h.blocks
      && h2 == Heap(Splice(h1.blocks, i, [Block(used.addr, used.size + (c.header + rest.size), false)], i + 2),
                    [used.addr] + Without(h1.frees, rest.addr), h1.available + used.size + c.header, h1.maxUsed)
    ensures h2.blocks == h.blocks && h2.available == h.available
    ensures h2.frees == [h.blocks[i].addr] + Without(h.frees, h.blocks[i].addr)
  {
    WithoutHead(h1.blocks[i + 1].addr, Without(h.frees, h.blocks[i].addr));
  }

  lemma CarveSplitValue(c: Config, h: Heap, i: nat, size: nat)
    requires i < |h.blocks| && Splits(c, h.blocks[i].size, size)
    ensures var b := h.blocks[i];
      var used, rest := Block(b.addr, size, true), Block(b.addr + c.header + size, b.size - size - c.header, false);
      var h1 := Carve(c, h, i, size);
      && h1.blocks == Splice(h.blocks, i, [used, rest], i + 1)
      && h1.frees == [rest.addr] + Without(h.frees, b.addr)
      && h1.available == h.available - size - c.header
  {
  }

  lemma SplitBack(c: Config, l: seq<Block>, i: nat, size: nat)
    requires i + 1 < |l| && (i > 0 ==> l[i - 1].used) && !l[i].used && Splits(c, l[i].size, size)
    ensures var b := l[i];
      var used, rest := Block(b.addr, size, true), Block(b.addr + c.header + size, b.size - size - c.header, false);
      var l1 := Splice(l, i, [used, rest], i + 1);
      && i + 1 < |l1| && l1[i] == used && l1[i + 1] == rest && (i > 0 ==> l1[i - 1].used)
      && Splice(l1, i, [Block(used.addr, used.size + (c.header + rest.size), false)], i + 2) == l
  {
    hide Splice;
    var b := l[i];
    var used, rest := Block(b.addr, size, true), Block(b.addr + c.header + size, b.size - size - c.header, false);
    var mid := [used, rest];
    SpliceBack(l, i, mid);
    var l1 := Splice(l, i, mid, i + 1);
    assert l1[i + 0] == mid[0] && l1[i + 1] == mid[1];
    assert Block(used.addr, used.size + (c.header + rest.size), false) == b;
  }

  lemma WithoutHead(a: nat, l: seq<nat>)
    ensures Without([a] + l, a) == l
  {
  }

  lemma CarveFreeWhole(c: Config, h: Heap, i: nat, size: nat)
    requires i + 1 < |h.blocks| && !h.blocks[i].used && (i > 0 ==> h.blocks[i - 1].used) && h.blocks[i + 1].used
    requires size <= h.blocks[i].size && !Splits(c, h.blocks[i].size, size)
    ensures var h1 := Carve(c, h, i, size);
      && i + 1 < |h1.blocks|
      && var h2 := Free(c, h1, i);
      && h2.blocks == h.blocks && h2.available == h.available
      && h2.frees == [h.blocks[i].addr] + Without(h.frees, h.blocks[i].addr)
  {
    var mid := [h.blocks[i].(used := true)];
    var h1 := Carve(c, h, i, size);
    SpliceBack(h.blocks, i, mid);
    assert h1.blocks[i + 0] == mid[0];
    FreeAloneValue(c, h1, i);
  }

  lemma FreeRightValue(c: Config, h: Heap, i: nat)
    requires i + 1 < |h.blocks| && (i > 0 ==> h.blocks[i - 1].used) && !h.blocks[i + 1].used
    ensures var b, n := h.blocks[i], h.blocks[i + 1];
      Free(c, h, i) == Heap(Splice(h.blocks, i, [Block(b.addr, b.size + (c.header + n.size), false)], i + 2),
                            [b.addr] + Without(h.frees, n.addr), h.available + b.size + c.header, h.maxUsed)
  {
  }

  lemma FreeAloneValue(c: Config, h: Heap, i: nat)
    requires i + 1 < |h.blocks| && (i > 0 ==> h.blocks[i - 1].used) && h.blocks[i + 1].used
    ensures var b := h.blocks[i];
      Free(c, h, i) == Heap(Splice(h.blocks, i, [b.(used := false)], i + 1),
                            [b.addr] + h.frees, h.available + b.size, h.maxUsed)
  {
  }

  // ----------------------------------------------------------------- realloc

  /** A request whose rounding, plus the minimum, stays below 2^32. */
  predicate NoWrap(c: Config, n: nat)
    requires c.align >= 1
  {
    Round(c, n) + MINIALLOC < WORD
  }

  /** Whether resizing the block at a keeps out of the wrap. */
  ghost predicate Safe(c: Config, h: Heap, a: nat, n: nat)
    requires c.align >= 1 && Live(h.blocks, a)
  {
    NoWrap(c, n) || h.blocks[IndexOf(h.blocks, a) + 1].used
  }

  lemma GuardIsFit(c: Config, h: Heap, i: nat, n: nat)
    requires CanFree(c, h, i) && NoWrap(c, n)
    ensures GrowGuard(h.blocks[i + 1].size, h.blocks[i].size, Round(c, n))
       <==> h.blocks[i + 1].size + h.blocks[i].size > Round(c, n) + MINIALLOC
  {
    Inside(c.header, c.pool, h.blocks, i + 1);
    assert h.blocks[i + 1].addr == End(c.header, h.blocks[i]);
    GrowGuardExact(h.blocks[i + 1].size, h.blocks[i].size, Round(c, n));
  }

  /** A request that wraps always passes the test. */
  lemma GuardWraps(c: Config, h: Heap, i: nat, n: nat)
    requires CanFree(c, h, i) && !NoWrap(c, n)
    ensures Round(c, n) < WORD && Round(c, n) > h.blocks[i].size
    ensures GrowGuard(h.blocks[i + 1].size, h.blocks[i].size, Round(c, n))
  {
    Inside(c.header, c.pool, h.blocks, i);
    Inside(c.header, c.pool, h.blocks, i + 1);
    assert h.blocks[i + 1].addr == End(c.header, h.blocks[i]);
    var size := Round(c, n);
    assert (size + MINIALLOC) % WORD == size + MINIALLOC - WORD;
  }

  /** A block in use is still in use after an allocation of another. */
  lemma LiveAfterAlloc(c: Config, h: Heap, n: nat, a: nat)
    requires HeapOk(c, h) && Live(h.blocks, a)
    ensures FreesHere(h)
    ensures var (h', r) := Alloc(c, h, n);
      && Inv(c, h') && Live(h'.blocks, a) && r != Some(a)
      && h'.blocks[IndexOf(h'.blocks, a)] == h.blocks[IndexOf(h.blocks, a)]
  {
    AllocEffect(c, h, n);
    LiveBlock(c.header, c.pool, MINIALLOC, h.blocks, a);
    KeptIsLive(c.header, c.pool, Alloc(c, h, n).0.blocks, h.blocks[IndexOf(h.blocks, a)]);
  }

  /** `rt_memheap_realloc`; a is the block of the pointer passed, the result the block of
      the pointer returned. */
  ghost function Realloc(c: Config, h: Heap, a: Option<nat>, n: nat): (Heap, Option<nat>)
    requires HeapOk(c, h) && (a.Some? ==> Live(h.blocks, a.value))
  {
    FreesAreHere(c, h);
    if n == 0 then (if a.None? then h else Free(c, h, IndexOf(h.blocks, a.value)), None)
    else
      var size := Round(c, n);
      if a.None? then Alloc(c, h, size)
      else
        var i := IndexOf(h.blocks, a.value);
        match PathOf(c, h.blocks, i, size)
        case Keep => (h, a)
        case Cut => (Shrink(c, h, i, size), a)
        case Extend => (GrowWord(c, h, i, size), a)
        case Move =>
          LiveAfterAlloc(c, h, size, a.value);
          var (h1, r) := Alloc(c, h, size);
          if r.None? then (h1, None) else (Free(c, h1, IndexOf(h1.blocks, a.value)), r)
  }

  lemma GrowAnswers(c: Config, h: Heap, i: nat, size: nat)
    requires CanFree(c, h, i) && !h.blocks[i + 1].used && size > h.blocks[i].size
    requires h.blocks[i].size + h.blocks[i + 1].size > size + MINIALLOC
    ensures Inv(c, Grow(c, h, i, size))
    ensures Answered(h.blocks, Grow(c, h, i, size).blocks, h.blocks[i].addr, h.blocks[i].addr, size)
  {
    GrowInv(c, h, i, size);
    var b, n := h.blocks[i], h.blocks[i + 1];
    var mid := [b.(size := size), Block(b.addr + c.header + size, b.size + n.size - size, false)];
    SameBlockAnswers(c.header, c.pool, h.blocks, Grow(c, h, i, size).blocks, i, mid, i + 2, size);
  }

  lemma ShrinkAnswers(c: Config, h: Heap, i: nat, size: nat)
    requires CanFree(c, h, i) && MINIALLOC <= size && size + c.header + MINIALLOC < h.blocks[i].size
    ensures Inv(c, Shrink(c, h, i, size))
    ensures Answered(h.blocks, Shrink(c, h, i, size).blocks, h.blocks[i].addr, h.blocks[i].addr, size)
  {
    var b, n := h.blocks[i], h.blocks[i + 1];
    var rest := Block(b.addr + c.header + size, b.size - size - c.header + (if n.used then 0 else c.header + n.size),
                      false);
    ShrinkInv(c, h, i, size);
    SameBlockAnswers(c.header, c.pool, h.blocks, Shrink(c, h, i, size).blocks, i, [b.(size := size), rest],
                     if n.used then i + 1 else i + 2, size);
  }

  /** An allocation followed by freeing the old block. */
  lemma MoveAnswers(c: Config, h: Heap, a: nat, size: nat)
    requires HeapOk(c, h) && Live(h.blocks, a) && FreesHere(h)
    requires Alloc(c, h, size).1.Some?
    ensures var (h1, r) := Alloc(c, h, size);
      && CanFree(c, h1, IndexOf(h1.blocks, a))
      && var h2 := Free(c, h1, IndexOf(h1.blocks, a));
      && Inv(c, h2) && Answered(h.blocks, h2.blocks, a, r.value, Round(c, size)) && !Live(h2.blocks, a)
  {
    AllocEffect(c, h, size);
    LiveAfterAlloc(c, h, size, a);
    var (h1, r) := Alloc(c, h, size);
    LiveNotFree(c.header, c.pool, h.blocks, r.value);
    FreeEffect(c, h1, IndexOf(h1.blocks, a));
    HeapEffects.MoveAnswers(c.header, c.pool, h.blocks, h1.blocks, Free(c, h1, IndexOf(h1.blocks, a)).blocks,
                            a, r.value, Round(c, size));
  }

  /** Realloc keeps the invariant and every other block in use; when it returns a block,
      that block is in use and holds the rounded request, and the old one is gone unless it
      is the same; when it fails the heap is unchanged; and size 0 frees. */
  lemma ReallocEffect(c: Config, h: Heap, a: nat, n: nat)
    requires HeapOk(c, h) && AlignOk(c) && Live(h.blocks, a) && Safe(c, h, a, n)
    ensures var (h', r) := Realloc(c, h, Some(a), n);
      && Inv(c, h')
      && (n == 0 ==> r == None && !Live(h'.blocks, a))
      && (n == 0 ==> KeepsOthers(h.blocks, h'.blocks, a) && KeepsOthers(h'.blocks, h.blocks, a))
      && (n > 0 && r == None ==> h' == h)
      && (n > 0 && r != None ==>
           Answered(h.blocks, h'.blocks, a, r.value, Round(c, n)) && (r.value != a ==> !Live(h'.blocks, a)))
  {
    FreesAreHere(c, h);
    var i := IndexOf(h.blocks, a);
    if n == 0 {
      FreeEffect(c, h, i);
    } else {
      var size := Round(c, n);
      if NoWrap(c, n) { GuardIsFit(c, h, i, n); }
      match PathOf(c, h.blocks, i, size)
      case Keep => KeepAnswers(c, h, a, size);
      case Cut => ShrinkAnswers(c, h, i, size);
      case Extend =>
        GrowWordPlain(c, h, i, size);
        GrowAnswers(c, h, i, size);
      case Move =>
        LiveAfterAlloc(c, h, size, a);
        if Alloc(c, h, size).1.Some? { MoveAnswers(c, h, a, size); RoundTwice(c, n); } else { AllocEffect(c, h, size); }
    }
  }

  /** Beyond that the block grows to nearly 4 GiB where it is: it reaches past the end of the
      pool, and the header of the free space behind it lands in its own header. */
  lemma ReallocWrapped(c: Config, h: Heap, a: nat, n: nat)
    requires HeapOk(c, h) && Live(h.blocks, a) && !Safe(c, h, a, n)
    ensures var (h', r) := Realloc(c, h, Some(a), n); var i := IndexOf(h.blocks, a);
      && r == Some(a) && i + 1 < |h'.blocks| && h'.blocks[i] == Block(a, Round(c, n), true)
      && End(c.header, h'.blocks[i]) > c.pool && a < h'.blocks[i + 1].addr < a + c.header
      && !Inv(c, h')
  {
    hide Inv, Realloc, Round, GrowWord, IndexOf;
    var i, size := IndexOf(h.blocks, a), Round(c, n);
    WrappedGrows(c, h, a, n);
    BlockInside(c, h, i);
    GrowWordWraps(c, h, i, size);
    NotInside(c, GrowWord(c, h, i, size), i);
  }

  lemma WrappedGrows(c: Config, h: Heap, a: nat, n: nat)
    requires HeapOk(c, h) && Live(h.blocks, a) && !Safe(c, h, a, n)
    ensures ConfigOk(c) && Round(c, n) < WORD <= Round(c, n) + MINIALLOC
    ensures var i := IndexOf(h.blocks, a);
      && i + 1 < |h.blocks| && h.blocks[i].addr == a && h.blocks[i].used
      && Realloc(c, h, Some(a), n) == (GrowWord(c, h, i, Round(c, n)), Some(a))
  {
    hide Round, GrowWord, Inv, Alloc, Free, Shrink;
    var i := IndexOf(h.blocks, a);
    RoundZero(c);
    AtAddress(h.blocks, a);
    GuardWraps(c, h, i, n);
    assert PathOf(c, h.blocks, i, Round(c, n)) == Extend;
  }

  lemma AtAddress(l: seq<Block>, a: nat)
    requires Live(l, a)
    ensures l[IndexOf(l, a)].addr == a
  {
  }

  lemma NotInside(c: Config, h: Heap, i: nat)
    requires ConfigOk(c) && i < |h.blocks| && End(c.header, h.blocks[i]) > c.pool
    ensures !Inv(c, h)
  {
    if Inv(c, h) { BlockInside(c, h, i); }
  }

  lemma BlockInside(c: Config, h: Heap, i: nat)
    requires HeapOk(c, h) && i < |h.blocks|
    ensures End(c.header, h.blocks[i]) <= c.pool
  {
    Inside(c.header, c.pool, h.blocks, i);
  }

  lemma GrowWordWraps(c: Config, h: Heap, i: nat, size: nat)
    requires i + 1 < |h.blocks| && size < WORD <= size + MINIALLOC
    requires ConfigOk(c) && End(c.header, h.blocks[i]) <= c.pool
    ensures var a, h' := h.blocks[i].addr, GrowWord(c, h, i, size);
      && i + 1 < |h'.blocks| && h'.blocks[i] == h.blocks[i].(size := size)
      && End(c.header, h'.blocks[i]) > c.pool
      && h'.blocks[i + 1].addr == a + c.header + size - WORD && a < h'.blocks[i + 1].addr < a + c.header
  {
    var a, h' := h.blocks[i].addr, GrowWord(c, h, i, size);
    assert (a + c.header + size) % WORD == a + c.header + size - WORD;
  }

  /** So realloc keeps the invariant exactly when the pointer is null, or the rounded size
      plus the minimum does not wrap, or the block behind is in use. */
  lemma ReallocInvExactly(c: Config, h: Heap, ptr: Option<nat>, n: nat)
    requires HeapOk(c, h) && AlignOk(c) && (ptr.Some? ==> Live(h.blocks, ptr.value))
    ensures Inv(c, Realloc(c, h, ptr, n).0) <==> ptr.None? || Safe(c, h, ptr.value, n)
  {
    if ptr.None? {
      AllocInv(c, h, Round(c, n));
    } else if Safe(c, h, ptr.value, n) {
      ReallocEffect(c, h, ptr.value, n);
    } else {
      ReallocWrapped(c, h, ptr.value, n);
    }
  }

  /** No request wraps exactly when the alignment is larger than the minimum. */
  lemma NoWrapExactly(c: Config)
    requires ConfigOk(c) && AlignOk(c)
    ensures (forall n: nat :: n < WORD ==> NoWrap(c, n)) <==> c.align > MINIALLOC
  {
    if c.align > MINIALLOC {
      forall n: nat ensures NoWrap(c, n) {
        AlignUpAligned(c.align, n);
        RoomAbove(AlignUp(c.align, n), WORD, c.align);
      }
    } else {
      LargestAligned(c);
      assert !NoWrap(c, WORD - c.align);
    }
  }

  /** The largest size there is, just below the wrap. */
  lemma LargestAligned(c: Config)
    requires ConfigOk(c) && AlignOk(c)
    ensures Round(c, WORD - c.align) == WORD - c.align
  {
    DiffMod(c.align, WORD - c.align, c.align);
    AlignedBetween(WORD - c.align, c.align);
  }

  lemma KeepAnswers(c: Config, h: Heap, a: nat, size: nat)
    requires HeapOk(c, h) && Live(h.blocks, a) && size <= h.blocks[IndexOf(h.blocks, a)].size
    ensures Answered(h.blocks, h.blocks, a, a, size)
  {
  }

  /** The inner allocation rounds the rounded size again, and only ever up. */
  lemma RoundTwice(c: Config, n: nat)
    requires ConfigOk(c) && AlignOk(c)
    ensures Round(c, Round(c, n)) >= Round(c, n)
  {
    var size := Round(c, n);
    RoundExact(c, size);
    if size > MINIALLOC {
      var m := (n + c.align - 1) % WORD;
      AlignedDown(m, c.align);
      RoomAbove(size, WORD, c.align);
    }
  }

  // ---------------------------------------------------------------- whole runs

  datatype Op =
    | AllocOp(n: nat)
    | FreeOp(a: nat)
    | ReallocOp(ptr: Option<nat>, n: nat)

  ghost predicate Enabled(c: Config, h: Heap, op: Op)
    requires c.align >= 1
  {
    match op
    case AllocOp(n) => n < WORD
    case FreeOp(a) => Live(h.blocks, a)
    case ReallocOp(ptr, n) => n < WORD && (ptr.Some? ==> Live(h.blocks, ptr.value) && Safe(c, h, ptr.value, n))
  }

  ghost function Step(c: Config, h: Heap, op: Op): Heap
    requires HeapOk(c, h) && Enabled(c, h, op)
  {
    FreesAreHere(c, h);
    match op
    case AllocOp(n) => Alloc(c, h, n).0
    case FreeOp(a) => Free(c, h, IndexOf(h.blocks, a))
    case ReallocOp(ptr, n) => Realloc(c, h, ptr, n).0
  }

  /** Every call keeps the invariant. */
  lemma StepInv(c: Config, h: Heap, op: Op)
    requires HeapOk(c, h) && AlignOk(c) && Enabled(c, h, op)
    ensures Inv(c, Step(c, h, op))
  {
    match op
    case AllocOp(n) => AllocInv(c, h, n);
    case FreeOp(a) => FreeInv(c, h, IndexOf(h.blocks, a));
    case ReallocOp(ptr, n) =>
      if ptr.Some? { ReallocEffect(c, h, ptr.value, n); } else if n > 0 { AllocInv(c, h, Round(c, n)); }
  }

  ghost function Run(c: Config, h: Heap, ops: seq<Op>): Heap
    requires HeapOk(c, h) && AlignOk(c)
    decreases |ops|
  {
    if ops == [] then h
    else if Enabled(c, h, ops[0]) then
      StepInv(c, h, ops[0]);
      Run(c, Step(c, h, ops[0]), ops[1..])
    else Run(c, h, ops[1..])
  }

  /** And so does every history of calls. */
  lemma {:induction false} RunInv(c: Config, h: Heap, ops: seq<Op>)
    requires HeapOk(c, h) && AlignOk(c)
    ensures Inv(c, Run(c, h, ops))
    decreases |ops|
  {
    if ops != [] {
      if Enabled(c, h, ops[0]) {
        StepInv(c, h, ops[0]);
        RunInv(c, Step(c, h, ops[0]), ops[1..]);
      } else {
        RunInv(c, h, ops[1..]);
      }
    }
  }

  /** `rt_memheap_init`: one free block and the tail. */
  function Init(c: Config): Heap
    requires c.pool >= 2 * c.header
  {
    Heap([Block(0, c.pool - 2 * c.header, false), Block(c.pool - c.header, 0, true)], [0],
         c.pool - 2 * c.header, 2 * c.header)
  }

  lemma InitInv(c: Config)
    requires ConfigOk(c)
    ensures Inv(c, Init(c))
  {
    var b, t := Block(0, c.pool - 2 * c.header, false), Block(c.pool - c.header, 0, true);
    FreeSumTwo(b, t);
    FreeSumOne(b);
    FreeSumOne(t);
    forall a ensures a in Init(c).frees <==> IsFree(Init(c).blocks, a) { TwoBlocks(b, t, a); }
  }

  /** A new heap refuses a request for all of its one free block. */
  lemma RefusesWhole(c: Config)
    requires ConfigOk(c) && AlignOk(c) && c.pool >= 2 * c.header + MINIALLOC
    ensures Inv(c, Init(c)) && FreesHere(Init(c))
    ensures var n := c.pool - 2 * c.header;
      Init(c).blocks[0] == Block(0, n, false) && Round(c, n) == n && Alloc(c, Init(c), n).1 == None
  {
    var n := c.pool - 2 * c.header;
    InitInv(c);
    FreesAreHere(c, Init(c));
    SumMod(c.header, c.header, c.align);
    DiffMod(2 * c.header, n, c.align);
    AlignedBetween(n, c.align);
  }

  /** After any history of calls, two different blocks in use share no byte, neither with
      each other's payload nor with any header, and lie inside the pool. */
  lemma LiveBlocksApart(c: Config, ops: seq<Op>, i: nat, j: nat, k: int)
    requires ConfigOk(c) && AlignOk(c)
    ensures Inv(c, Init(c))
    ensures var l := Run(c, Init(c), ops).blocks;
      i < |l| && j < |l| && InPayload(c.header, l[i], k) ==>
        && 0 <= k < c.pool && !InHeader(c.header, l[j].addr, k) && (i != j ==> !InPayload(c.header, l[j], k))
  {
    InitInv(c);
    RunInv(c, Init(c), ops);
    var l := Run(c, Init(c), ops).blocks;
    if i < |l| && j < |l| && InPayload(c.header, l[i], k) {
      PayloadApart(c.header, l, i, j, k);
      Inside(c.header, c.pool, l, i);
    }
  }

  /** After any history of calls, the free list holds exactly the free blocks, no two
      neighbours are both free, and the counters tell the truth. */
  lemma AccountsEver(c: Config, ops: seq<Op>)
    requires ConfigOk(c) && AlignOk(c)
    ensures Inv(c, Init(c))
    ensures var h := Run(c, Init(c), ops);
      && (forall a :: a in h.frees <==> IsFree(h.blocks, a)) && NoTwoFree(h.blocks)
      && h.available == FreeSum(h.blocks) && c.pool - h.available <= h.maxUsed <= c.pool
  {
    InitInv(c);
    RunInv(c, Init(c), ops);
  }

  // --------------------------------------------------------------- alignment

  /** Every block starts at a multiple of the alignment. */
  ghost predicate Aligned(c: Config, h: Heap)
    requires c.align >= 1
  {
    forall b :: b in h.blocks ==> b.addr % c.align == 0
  }

  /** Rounded requests are multiples of the alignment, for all requests, exactly when the
      minimal allocation is. */
  lemma RoundAlignedExactly(c: Config)
    requires ConfigOk(c)
    ensures (forall n: nat :: Round(c, n) % c.align == 0) <==> MINIALLOC % c.align == 0
  {
    RoundZero(c);
    forall n: nat ensures AlignUp(c.align, n) % c.align == 0 { AlignUpAligned(c.align, n); }
  }

  /** A request for no bytes is rounded to the minimum, aligned or not. */
  lemma RoundZero(c: Config)
    requires ConfigOk(c)
    ensures Round(c, 0) == MINIALLOC
  {
    SmallMod(c.align - 1, c.align);
  }

  lemma SpliceAligned(c: Config, l: seq<Block>, lo: nat, mid: seq<Block>, hi: nat)
    requires c.align >= 1 && lo <= hi <= |l|
    requires forall b :: b in l ==> b.addr % c.align == 0
    requires forall b :: b in mid ==> b.addr % c.align == 0
    ensures forall b :: b in Splice(l, lo, mid, hi) ==> b.addr % c.align == 0
  {
    forall b | b in Splice(l, lo, mid, hi) ensures b.addr % c.align == 0 { InSplice(l, lo, mid, hi, b); }
  }

  lemma TwoAligned(c: Config, b: Block, d: Block, x: Block, size: nat)
    requires c.align >= 1 && c.header % c.align == 0 && size % c.align == 0 && x.addr % c.align == 0
    requires b.addr == x.addr && d.addr == x.addr + c.header + size
    ensures forall y :: y in [b, d] ==> y.addr % c.align == 0
  {
    SumMod(x.addr, c.header, c.align);
    SumMod(x.addr + c.header, size, c.align);
  }

  lemma CarveAligned(c: Config, h: Heap, i: nat, size: nat)
    requires c.align >= 1 && AlignOk(c) && Aligned(c, h) && size % c.align == 0
    requires i < |h.blocks| && h.blocks[i].size >= size
    ensures Aligned(c, Carve(c, h, i, size))
  {
    var b := h.blocks[i];
    assert b in h.blocks;
    if Splits(c, b.size, size) {
      var used, rest := Block(b.addr, size, true), Block(b.addr + c.header + size, b.size - size - c.header, false);
      TwoAligned(c, used, rest, b, size);
      SpliceAligned(c, h.blocks, i, [used, rest], i + 1);
    } else {
      SpliceAligned(c, h.blocks, i, [b.(used := true)], i + 1);
    }
  }

  lemma FreeAligned(c: Config, h: Heap, i: nat)
    requires c.align >= 1 && Aligned(c, h) && i + 1 < |h.blocks|
    ensures Aligned(c, Free(c, h, i))
  {
    assert h.blocks[FreeLo(h.blocks, i)] in h.blocks;
    SpliceAligned(c, h.blocks, FreeLo(h.blocks, i), [Merged(c.header, h.blocks, i)], FreeHi(h.blocks, i));
  }

  lemma AllocAligned(c: Config, h: Heap, n: nat)
    requires HeapOk(c, h) && AlignOk(c) && Aligned(c, h) && MINIALLOC % c.align == 0
    ensures FreesHere(h) && Aligned(c, Alloc(c, h, n).0)
  {
    FreesAreHere(c, h);
    RoundAlignedExactly(c);
    var size := Round(c, n);
    var fit := FirstFit(h.blocks, h.frees, size);
    if size < h.available && fit.Some? { CarveAligned(c, h, IndexOf(h.blocks, fit.value), size); }
  }

  lemma ReallocAligned(c: Config, h: Heap, a: nat, n: nat)
    requires HeapOk(c, h) && AlignOk(c) && Aligned(c, h) && MINIALLOC % c.align == 0
    requires Live(h.blocks, a) && Safe(c, h, a, n) && n > 0
    ensures Aligned(c, Realloc(c, h, Some(a), n).0)
  {
    FreesAreHere(c, h);
    RoundAlignedExactly(c);
    var i, size := IndexOf(h.blocks, a), Round(c, n);
    if NoWrap(c, n) { GuardIsFit(c, h, i, n); }
    var b := h.blocks[i];
    assert b in h.blocks;
    match PathOf(c, h.blocks, i, size)
    case Keep =>
    case Cut =>
      var rest := Shrink(c, h, i, size).blocks[i + 1];
      TwoAligned(c, b.(size := size), rest, b, size);
      SpliceAligned(c, h.blocks, i, [b.(size := size), rest], if h.blocks[i + 1].used then i + 1 else i + 2);
    case Extend =>
      GrowWordPlain(c, h, i, size);
      var rest := Grow(c, h, i, size).blocks[i + 1];
      TwoAligned(c, b.(size := size), rest, b, size);
      SpliceAligned(c, h.blocks, i, [b.(size := size), rest], i + 2);
    case Move =>
      LiveAfterAlloc(c, h, size, a);
      AllocAligned(c, h, size);
      var (h1, r) := Alloc(c, h, size);
      if r.Some? { FreeAligned(c, h1, IndexOf(h1.blocks, a)); }
  }

  /** When the alignment divides the minimal allocation, every block ever handed out starts
      at a multiple of the alignment from the start of the pool. */
  lemma {:induction false} AlignedEver(c: Config, h: Heap, ops: seq<Op>)
    requires HeapOk(c, h) && AlignOk(c) && Aligned(c, h) && MINIALLOC % c.align == 0
    ensures Aligned(c, Run(c, h, ops))
    decreases |ops|
  {
    if ops != [] {
      if Enabled(c, h, ops[0]) {
        FreesAreHere(c, h);
        StepInv(c, h, ops[0]);
        StepAligned(c, h, ops[0]);
        AlignedEver(c, Step(c, h, ops[0]), ops[1..]);
      } else {
        AlignedEver(c, h, ops[1..]);
      }
    }
  }

  lemma StepAligned(c: Config, h: Heap, op: Op)
    requires HeapOk(c, h) && AlignOk(c) && Aligned(c, h) && MINIALLOC % c.align == 0 && Enabled(c, h, op)
    ensures Aligned(c, Step(c, h, op))
  {
    match op
    case AllocOp(n) => AllocAligned(c, h, n);
    case FreeOp(a) => FreeAligned(c, h, IndexOf(h.blocks, a));
    case ReallocOp(ptr, n) =>
      if n == 0 {
        if ptr.Some? { FreeAligned(c, h, IndexOf(h.blocks, ptr.value)); }
      } else if ptr.Some? {
        ReallocAligned(c, h, ptr.value, n);
      } else {
        AllocAligned(c, h, Round(c, n));
      }
  }

  /** So it is from the start: a new heap is aligned. */
  lemma InitAligned(c: Config)
    requires ConfigOk(c) && AlignOk(c)
    ensures Aligned(c, Init(c))
  {
    DiffMod(c.header, c.pool - c.header, c.align);
    SmallMod(0, c.align);
  }

  /** And when it does not (8 or more), it goes wrong at once: after the first request for
      0 bytes of a pool with room for two minimal blocks and a little more, the remainder
      that the next request is served from is misaligned. */
  lemma MisalignedAfter(c: Config)
    requires ConfigOk(c) && AlignOk(c) && MINIALLOC % c.align != 0 && c.pool >= 3 * c.header + 2 * MINIALLOC
    ensures Inv(c, Init(c))
    ensures var h := Run(c, Init(c), [AllocOp(0)]);
      h.frees == [c.header + MINIALLOC] && !Aligned(c, h)
  {
    InitInv(c);
    StepInv(c, Init(c), AllocOp(0));
    assert [AllocOp(0)][1..] == [];
    var h := Step(c, Init(c), AllocOp(0));
    FirstAlloc(c);
    assert h.blocks[1] in h.blocks;
    if (c.header + MINIALLOC) % c.align == 0 { DiffMod(c.header, MINIALLOC, c.align); }
  }

  lemma FirstAlloc(c: Config)
    requires ConfigOk(c) && c.pool >= 3 * c.header + 2 * MINIALLOC
    ensures FreesHere(Init(c))
    ensures var h := Alloc(c, Init(c), 0).0;
      && h.frees == [c.header + MINIALLOC] && |h.blocks| == 3 && h.blocks[1].addr == c.header + MINIALLOC
      && h.blocks[0] == Block(0, MINIALLOC, true) && !h.blocks[1].used
  {
    RoundZero(c);
    InitInv(c);
    FreesAreHere(c, Init(c));
    assert Init(c).frees == [0] && IndexOf(Init(c).blocks, 0) == 0;
    assert Without([0], 0) == [];
  }

  /** And with alignments up to the minimum a heap that breaks is one call away from the
      start: after the first allocation, the largest request breaks it. */
  lemma ReallocBreaks(c: Config)
    requires ConfigOk(c) && AlignOk(c) && c.align <= MINIALLOC && c.pool >= 3 * c.header + 2 * MINIALLOC
    ensures Inv(c, Init(c))
    ensures var h := Run(c, Init(c), [AllocOp(0)]);
      && HeapOk(c, h) && Live(h.blocks, 0)
      && var (h', r) := Realloc(c, h, Some(0), WORD - c.align);
      && r == Some(0) && h'.blocks[0].addr == 0 && End(c.header, h'.blocks[0]) > c.pool && !Inv(c, h')
  {
    InitInv(c);
    RunInv(c, Init(c), [AllocOp(0)]);
    FirstAlloc(c);
    assert [AllocOp(0)][1..] == [];
    var h := Step(c, Init(c), AllocOp(0));
    assert Run(c, Init(c), [AllocOp(0)]) == h;
    LargestAligned(c);
    ReallocWrapped(c, h, 0, WORD - c.align);
  }
}
