/** What the small memory calls promise (rt-thread/src/mem.c), over single calls and over
    every history of calls. */
module SmallMemTheorems {
  import opened Wrappers
  import opened Words
  import opened Alignment
  import opened HeapBlocks
  import opened HeapEffects
  import opened SmallMemSpec

  // ------------------------------------------------------------------- alloc

  lemma WantedExact(c: Config, n: nat)
    requires ConfigOk(c) && n < WORD
    ensures n <= Wanted(c, n) <==> n + c.align - 1 < WORD
    ensures n + c.align - 1 >= WORD ==> Wanted(c, n) == MinAligned(c)
  {
    AlignUpExact(c.align, n);
    AlignUpExact(c.align, MIN_SIZE);
  }

  /** No block is bigger than the whole. */
  lemma BlockBounds(c: Config, h: Heap, i: nat)
    requires HeapOk(c, h) && i < |h.blocks|
    ensures i < |h.blocks| - 1 ==> h.blocks[i].addr + h.blocks[i].size <= c.total
    ensures h.blocks[i].size <= c.total
  {
    Inside(c.header, Pool(c), h.blocks, i);
  }

  lemma BlockInPool(c: Config, h: Heap, i: nat)
    requires HeapOk(c, h) && i < |h.blocks|
    ensures h.blocks[i].addr + c.header + h.blocks[i].size <= Pool(c)
  {
    Inside(c.header, Pool(c), h.blocks, i);
  }

  /** First fit, exactly: the block handed out is the lowest free one that holds the rounded
      request, and allocation fails exactly when nothing was asked for or no free block
      holds it. */
  lemma FirstFitExact(c: Config, h: Heap, n: nat)
    requires HeapOk(c, h)
    ensures var r := Alloc(c, h, n).1;
      && (r.None? <==> n == 0 || forall b :: b in h.blocks && !b.used ==> b.size < Wanted(c, n))
      && (r.Some? ==> exists b :: b in h.blocks && b.addr == r.value && !b.used && b.size >= Wanted(c, n))
      && (r.Some? ==> forall b :: b in h.blocks && !b.used && b.size >= Wanted(c, n) ==> r.value <= b.addr)
  {
    var size, l := Wanted(c, n), h.blocks;
    var fit := FirstFit(l, size);
    if n > 0 && AlignUp(c.align, n) > c.total {
      forall b | b in l ensures !Fits(b, size) {
        var i :| 0 <= i < |l| && l[i] == b;
        BlockBounds(c, h, i);
      }
    }
    if fit.Some? {
      assert l[fit.value] in l;
      forall b | b in l && Fits(b, size) ensures l[fit.value].addr <= b.addr {
        var i :| 0 <= i < |l| && l[i] == b;
        if fit.value < i { AddrsGrow(c.header, l, fit.value, i); }
      }
    }
  }

  /** The block returned holds the n bytes asked for exactly when rounding n up does not
      wrap; a request that wraps gets a minimal block. */
  lemma AllocLargeEnough(c: Config, h: Heap, n: nat)
    requires HeapOk(c, h) && n < WORD
    ensures var (h', r) := Alloc(c, h, n);
      r.Some? ==>
        && Live(h'.blocks, r.value)
        && (h'.blocks[IndexOf(h'.blocks, r.value)].size >= n <==> n + c.align - 1 < WORD)
  {
    AllocEffect(c, h, n);
    WantedExact(c, n);
    var (h', r) := Alloc(c, h, n);
    if r.Some? { BlockBounds(c, h', IndexOf(h'.blocks, r.value)); }
  }

  // -------------------------------------------------------------------- free

  /** Freeing a block leaves every other block in use alone and gives back its footprint. */
  lemma FreeEffect(c: Config, h: Heap, i: nat)
    requires HeapOk(c, h) && i < |h.blocks| - 1 && h.blocks[i].used
    ensures var h' := Free(c, h, i);
      && Inv(c, h') && h'.used == h.used - (c.header + h.blocks[i].size) && h'.peak == h.peak
      && KeepsOthers(h.blocks, h'.blocks, h.blocks[i].addr) && KeepsOthers(h'.blocks, h.blocks, h.blocks[i].addr)
      && !Live(h'.blocks, h.blocks[i].addr)
  {
    FreeInv(c, h, i);
    FreedOthers(c.header, h.blocks, i);
    FreedNotLive(c.header, Pool(c), h.blocks, i);
  }

  /** Freeing what was just allocated restores the blocks and the used space exactly. */
  lemma AllocFreeRestores(c: Config, h: Heap, n: nat)
    requires HeapOk(c, h)
    ensures var (h1, r) := Alloc(c, h, n);
      r.Some? ==>
        && Live(h1.blocks, r.value)
        && var h2 := Free(c, h1, IndexOf(h1.blocks, r.value));
        && h2.blocks == h.blocks && h2.used == h.used
  {
    hide Inv, IsFree, KeepsOthers;
    AllocEffect(c, h, n);
    MinAlignedEnough(c);
    var (h1, r) := Alloc(c, h, n);
    if r.Some? { CarveBack(c, h, FirstFit(h.blocks, Wanted(c, n)).value, Wanted(c, n)); }
  }

  lemma CarveBack(c: Config, h: Heap, i: nat, size: nat)
    requires HeapOk(c, h) && i < |h.blocks| && Fits(h.blocks[i], size) && size >= 1
    ensures var h1 := Carve(c, h, i, size);
      && IndexOf(h1.blocks, h.blocks[i].addr) == i && i + 1 < |h1.blocks|
      && var h2 := Free(c, h1, i);
      && h2.blocks == h.blocks && h2.used == h.used
  {
    CarveInv(c, h, i, size);
    TiledOk(c, h);
    TiledOk(c, Carve(c, h, i, size));
    CarveEffect(c, h, i, size);
    hide Inv, UsedSum, UsedMin, KeepsOthers, Freed, Free, Carve;
    IndexOfExact(c.header, Carve(c, h, i, size).blocks, i);
    LeftOfFree(h.blocks, i);
    CarveFreed(c, h, i, size);
  }

  lemma CarveFreed(c: Config, h: Heap, i: nat, size: nat)
    requires c.align >= 1 && i + 1 < |h.blocks| && (i > 0 ==> h.blocks[i - 1].used) && h.blocks[i + 1].used
    requires Fits(h.blocks[i], size)
    ensures var h1 := Carve(c, h, i, size);
      && i + 1 < |h1.blocks|
      && var h2 := Free(c, h1, i);
      && h2.blocks == h.blocks && h2.used == h.used
  {
    hide Freed;
    if Splits(c, h.blocks[i].size, size) {
      SplitBack(c, h.blocks, i, size);
    } else {
      WholeBack(c, h.blocks, i);
    }
  }

  lemma TiledOk(c: Config, h: Heap)
    requires HeapOk(c, h)
    ensures Tiled(c.header, Pool(c), h.blocks) && NoTwoFree(h.blocks)
  {
  }

  lemma SplitBack(c: Config, l: seq<Block>, i: nat, size: nat)
    requires c.align >= 1 && i + 1 < |l| && (i > 0 ==> l[i - 1].used) && !l[i].used && Splits(c, l[i].size, size)
    ensures var used, rest := Block(l[i].addr, size, true),
        Block(l[i].addr + c.header + size, l[i].size - size - c.header, false);
      var l1 := Splice(l, i, [used, rest], i + 1);
      i + 1 < |l1| && l1[i] == used && Freed(c.header, l1, i) == l
  {
    var used, rest := Block(l[i].addr, size, true),
        Block(l[i].addr + c.header + size, l[i].size - size - c.header, false);
    var l1 := Splice(l, i, [used, rest], i + 1);
    SpliceBack(l, i, [used, rest]);
    assert l1[i + 0] == used && l1[i + 1] == rest;
    assert Merged(c.header, l1, i) == l[i];
  }

  lemma WholeBack(c: Config, l: seq<Block>, i: nat)
    requires i + 1 < |l| && (i > 0 ==> l[i - 1].used) && !l[i].used && l[i + 1].used
    ensures var l1 := Splice(l, i, [l[i].(used := true)], i + 1);
      i + 1 < |l1| && l1[i] == l[i].(used := true) && Freed(c.header, l1, i) == l
  {
    var used := l[i].(used := true);
    var l1 := Splice(l, i, [used], i + 1);
    SpliceBack(l, i, [used]);
    assert l1[i + 0] == used;
    assert Merged(c.header, l1, i) == l[i];
  }

  // ----------------------------------------------------------------- realloc

  lemma ShrinkAnswers(c: Config, h: Heap, i: nat, size: nat)
    requires HeapOk(c, h) && i < |h.blocks| - 1 && h.blocks[i].used && 1 <= size && Cuts(c, h.blocks[i].size, size)
    ensures Inv(c, Shrink(c, h, i, size))
    ensures Answered(h.blocks, Shrink(c, h, i, size).blocks, h.blocks[i].addr, h.blocks[i].addr, size)
  {
    ShrinkInv(c, h, i, size);
    SameBlockAnswers(c.header, Pool(c), h.blocks, Shrink(c, h, i, size).blocks, i,
                     [h.blocks[i].(size := size), Rest(c, h.blocks, i, size)],
                     if h.blocks[i + 1].used then i + 1 else i + 2, size);
  }

  /** An allocation followed by freeing the old block. */
  lemma MoveEffect(c: Config, h: Heap, a: nat, size: nat)
    requires HeapOk(c, h) && Live(h.blocks, a) && Alloc(c, h, size).1.Some?
    ensures var (h1, r) := Alloc(c, h, size);
      && Live(h1.blocks, a)
      && var h2 := Free(c, h1, IndexOf(h1.blocks, a));
      && Inv(c, h2) && Answered(h.blocks, h2.blocks, a, r.value, Wanted(c, size)) && !Live(h2.blocks, a) && r.value != a
  {
    AllocEffect(c, h, size);
    MinAlignedEnough(c);
    LiveAfterAlloc(c, h, size, a);
    var (h1, r) := Alloc(c, h, size);
    LiveNotFree(c.header, Pool(c), h.blocks, r.value);
    FreeEffect(c, h1, IndexOf(h1.blocks, a));
    MoveAnswers(c.header, Pool(c), h.blocks, h1.blocks, Free(c, h1, IndexOf(h1.blocks, a)).blocks, a, r.value,
                Wanted(c, size));
  }

  /** A rounded size is looked for as it is, or as the minimum. */
  lemma WantedTwice(c: Config, n: nat)
    requires ConfigOk(c) && AlignOk(c)
    ensures var size := AlignUp(c.align, n);
      && AlignUp(c.align, size) == size
      && Wanted(c, size) == if size < MinAligned(c) then MinAligned(c) else size
  {
    var size, m := AlignUp(c.align, n), (n + c.align - 1) % WORD;
    AlignUpAligned(c.align, n);
    RoomAbove(size, WORD, c.align);
    AlignedBetween(size, c.align);
  }

  /** Realloc keeps the invariant and every other block in use; a block it returns is in use
      and holds the rounded request, and the old one is gone unless it is the same; when it
      fails, with a rounded request that is not 0, the heap is unchanged; and a request that
      rounds to 0 frees. */
  lemma ReallocEffect(c: Config, h: Heap, a: nat, n: nat)
    requires HeapOk(c, h) && AlignOk(c) && Live(h.blocks, a)
    ensures var (h', r) := Realloc(c, h, Some(a), n); var size := AlignUp(c.align, n);
      && Inv(c, h')
      && (size == 0 ==> (r == None && h' == Free(c, h, IndexOf(h.blocks, a)) && !Live(h'.blocks, a)
                         && KeepsOthers(h.blocks, h'.blocks, a) && KeepsOthers(h'.blocks, h.blocks, a)))
      && (size > 0 && r == None ==> h' == h)
      && (r != None ==> Answered(h.blocks, h'.blocks, a, r.value, size) && (r.value != a ==> !Live(h'.blocks, a)))
  {
    var i, size := IndexOf(h.blocks, a), AlignUp(c.align, n);
    WantedTwice(c, n);
    if size > c.total {
    } else if size == 0 {
      FreeEffect(c, h, i);
    } else if h.blocks[i].size == size {
      LiveBlock(c.header, Pool(c), 1, h.blocks, a);
      assert Answered(h.blocks, h.blocks, a, a, size);
    } else if Cuts(c, h.blocks[i].size, size) {
      ShrinkAnswers(c, h, i, size);
    } else {
      LiveAfterAlloc(c, h, size, a);
      if Alloc(c, h, size).1.Some? { MoveEffect(c, h, a, size); }
    }
  }

  /** Asked for more than nothing, realloc keeps or moves the block, or leaves everything as
      it was, exactly when rounding the request up does not wrap; when it does, the block is
      freed and the answer is still NULL. */
  lemma ReallocKeepsExactly(c: Config, h: Heap, a: nat, n: nat)
    requires HeapOk(c, h) && AlignOk(c) && Live(h.blocks, a) && 0 < n < WORD
    ensures var (h', r) := Realloc(c, h, Some(a), n);
      (r == None ==> Live(h'.blocks, a)) <==> n + c.align - 1 < WORD
  {
    AlignUpExact(c.align, n);
    ReallocEffect(c, h, a, n);
  }

  /** The largest request there is frees the block, on any heap with an alignment above 1. */
  lemma ReallocLosesBlock(c: Config, h: Heap, a: nat)
    requires HeapOk(c, h) && AlignOk(c) && Live(h.blocks, a) && c.align > 1
    ensures var (h', r) := Realloc(c, h, Some(a), 0xFFFF_FFFF);
      r == None && !Live(h'.blocks, a) && h'.used < h.used
  {
    AlignUpExact(c.align, 0xFFFF_FFFF);
    ReallocEffect(c, h, a, 0xFFFF_FFFF);
  }

  /** When realloc fails: not at all if the size is the same or enough can be cut off, and
      otherwise, growing or shrinking, exactly when no free block holds the rounded request.
      Growth in place is never tried. */
  lemma ReallocFailsExactly(c: Config, h: Heap, a: nat, n: nat)
    requires HeapOk(c, h) && AlignOk(c) && Live(h.blocks, a) && 0 < n && n + c.align - 1 < WORD
    ensures var size, was := AlignUp(c.align, n), h.blocks[IndexOf(h.blocks, a)].size;
      Realloc(c, h, Some(a), n).1 == None <==>
        && size != was && !(size + c.header + MIN_SIZE < was)
        && forall b :: b in h.blocks && !b.used ==> b.size < Wanted(c, n)
  {
    var i, size := IndexOf(h.blocks, a), AlignUp(c.align, n);
    AlignUpExact(c.align, n);
    WantedTwice(c, n);
    BlockBounds(c, h, i);
    LiveAfterAlloc(c, h, size, a);
    FirstFitExact(c, h, size);
    if size > c.total {
      forall b | b in h.blocks ensures !Fits(b, Wanted(c, n)) {
        var j :| 0 <= j < |h.blocks| && h.blocks[j] == b;
        BlockBounds(c, h, j);
      }
    }
  }

  // --------------------------------------------------------------- whole runs

  datatype Op =
    | AllocOp(n: nat)
    | FreeOp(a: nat)
    | ReallocOp(ptr: Option<nat>, n: nat)

  ghost predicate Enabled(h: Heap, op: Op) {
    match op
    case AllocOp(n) => true
    case FreeOp(a) => Live(h.blocks, a)
    case ReallocOp(ptr, n) => ptr.Some? ==> Live(h.blocks, ptr.value)
  }

  ghost function Step(c: Config, h: Heap, op: Op): Heap
    requires HeapOk(c, h) && Enabled(h, op)
  {
    match op
    case AllocOp(n) => Alloc(c, h, n).0
    case FreeOp(a) => Free(c, h, IndexOf(h.blocks, a))
    case ReallocOp(ptr, n) => Realloc(c, h, ptr, n).0
  }

  /** Every call keeps the invariant. */
  lemma StepInv(c: Config, h: Heap, op: Op)
    requires HeapOk(c, h) && AlignOk(c) && Enabled(h, op)
    ensures Inv(c, Step(c, h, op)) && Step(c, h, op).peak >= h.peak
  {
    match op
    case AllocOp(n) => AllocInv(c, h, n);
    case FreeOp(a) => FreeInv(c, h, IndexOf(h.blocks, a));
    case ReallocOp(ptr, n) =>
      if ptr.Some? { ReallocEffect(c, h, ptr.value, n); } else { AllocInv(c, h, AlignUp(c.align, n)); }
  }

  ghost function Run(c: Config, h: Heap, ops: seq<Op>): Heap
    requires HeapOk(c, h) && AlignOk(c)
    decreases |ops|
  {
    if ops == [] then h
    else if Enabled(h, ops[0]) then
      StepInv(c, h, ops[0]);
      Run(c, Step(c, h, ops[0]), ops[1..])
    else Run(c, h, ops[1..])
  }

  /** And so does every history of calls. */
  lemma {:induction false} RunInv(c: Config, h: Heap, ops: seq<Op>)
    requires HeapOk(c, h) && AlignOk(c)
    ensures Inv(c, Run(c, h, ops)) && Run(c, h, ops).peak >= h.peak
    decreases |ops|
  {
    if ops != [] {
      if Enabled(h, ops[0]) {
        StepInv(c, h, ops[0]);
        RunInv(c, Step(c, h, ops[0]), ops[1..]);
      } else {
        RunInv(c, h, ops[1..]);
      }
    }
  }

  /** `rt_smem_init`: one free block and the tail. */
  function Init(c: Config): Heap {
    Heap([Block(0, c.total, false), Block(c.total + c.header, 0, true)], 0, 0)
  }

  lemma InitInv(c: Config)
    requires ConfigOk(c)
    ensures Inv(c, Init(c))
  {
    var b, t := Block(0, c.total, false), Block(c.total + c.header, 0, true);
    UsedSumTwo(c.header, b, t);
    UsedSumOne(c.header, b);
    UsedSumOne(c.header, t);
  }

  /** After any history of calls, two different blocks in use share no byte, neither with
      each other's payload nor with any header, and lie inside the pool. */
  lemma LiveBlocksApart(c: Config, ops: seq<Op>, i: nat, j: nat, k: int)
    requires ConfigOk(c) && AlignOk(c)
    ensures Inv(c, Init(c))
    ensures var l := Run(c, Init(c), ops).blocks;
      i < |l| && j < |l| && InPayload(c.header, l[i], k) ==>
        && 0 <= k < Pool(c) && !InHeader(c.header, l[j].addr, k) && (i != j ==> !InPayload(c.header, l[j], k))
  {
    InitInv(c);
    RunInv(c, Init(c), ops);
    var l := Run(c, Init(c), ops).blocks;
    if i < |l| && j < |l| && InPayload(c.header, l[i], k) {
      PayloadApart(c.header, l, i, j, k);
      Inside(c.header, Pool(c), l, i);
    }
  }

  /** After any history of calls, no two neighbours are both free, the used space is what
      the blocks in use take up, and everything that is free again leaves the heap as it
      was at the start. */
  lemma AccountsEver(c: Config, ops: seq<Op>)
    requires ConfigOk(c) && AlignOk(c)
    ensures Inv(c, Init(c))
    ensures var h := Run(c, Init(c), ops);
      && NoTwoFree(h.blocks) && h.used + c.header == UsedSum(c.header, h.blocks)
      && (h.used == 0 <==> h.blocks == Init(c).blocks)
  {
    InitInv(c);
    RunInv(c, Init(c), ops);
    var h := Run(c, Init(c), ops);
    if h.used == 0 { OnlyTail(c, h); }
  }

  /** With no space used there is one free block, as big as can be. */
  lemma OnlyTail(c: Config, h: Heap)
    requires HeapOk(c, h) && h.used == 0
    ensures h.blocks == Init(c).blocks
  {
    hide UsedSum;
    var l, t := h.blocks, |h.blocks| - 1;
    assert l == l[..t] + [l[t]];
    assert t >= 2 ==> l[0].used || l[0 + 1].used;
    UsedSumConcat(c.header, l[..t], [l[t]]);
    UsedSumOne(c.header, l[t]);
    forall k | 0 <= k < t ensures !l[k].used { UsedSumZero(c.header, l[..t], k); }
    assert t >= 1 ==> l[0 + 1].addr == End(c.header, l[0]);
    assert t == 1;
  }

  lemma {:induction false} UsedSumZero(header: nat, l: seq<Block>, k: nat)
    requires header > 0 && k < |l| && UsedSum(header, l) == 0
    ensures !l[k].used
  {
    if k > 0 { UsedSumZero(header, l[1..], k - 1); }
  }

  // --------------------------------------------------------------- alignment

  /** Every block starts at a multiple of the alignment. */
  ghost predicate Aligned(c: Config, l: seq<Block>)
    requires c.align >= 1
  {
    forall b :: b in l ==> b.addr % c.align == 0
  }

  lemma SpliceAligned(c: Config, l: seq<Block>, lo: nat, mid: seq<Block>, hi: nat)
    requires c.align >= 1 && lo <= hi <= |l| && Aligned(c, l) && Aligned(c, mid)
    ensures Aligned(c, Splice(l, lo, mid, hi))
  {
    forall b | b in Splice(l, lo, mid, hi) ensures b.addr % c.align == 0 { InSplice(l, lo, mid, hi, b); }
  }

  lemma TwoAligned(c: Config, b: Block, d: Block, size: nat)
    requires c.align >= 1 && c.header % c.align == 0 && size % c.align == 0 && b.addr % c.align == 0
    requires d.addr == b.addr + c.header + size
    ensures Aligned(c, [b, d])
  {
    SumMod(b.addr, c.header, c.align);
    SumMod(b.addr + c.header, size, c.align);
  }

  lemma WantedAligned(c: Config, n: nat)
    requires c.align >= 1
    ensures Wanted(c, n) % c.align == 0
  {
    AlignUpAligned(c.align, n);
    AlignUpAligned(c.align, MIN_SIZE);
  }

  lemma AllocAligned(c: Config, h: Heap, n: nat)
    requires HeapOk(c, h) && AlignOk(c) && Aligned(c, h.blocks)
    ensures Aligned(c, Alloc(c, h, n).0.blocks)
  {
    hide Inv;
    var size := Wanted(c, n);
    WantedAligned(c, n);
    var fit := FirstFit(h.blocks, size);
    if fit.Some? {
      var i := fit.value;
      var b := h.blocks[i];
      assert b in h.blocks;
      var used, rest := Block(b.addr, size, true), b.addr + c.header + size;
      if Splits(c, b.size, size) {
        TwoAligned(c, used, Block(rest, b.size - size - c.header, false), size);
        SpliceAligned(c, h.blocks, i, [used, Block(rest, b.size - size - c.header, false)], i + 1);
      } else {
        SpliceAligned(c, h.blocks, i, [b.(used := true)], i + 1);
      }
    }
  }

  lemma FreeAligned(c: Config, h: Heap, i: nat)
    requires c.align >= 1 && Aligned(c, h.blocks) && i + 1 < |h.blocks|
    ensures Aligned(c, Free(c, h, i).blocks)
  {
    assert h.blocks[FreeLo(h.blocks, i)] in h.blocks;
    SpliceAligned(c, h.blocks, FreeLo(h.blocks, i), [Merged(c.header, h.blocks, i)], FreeHi(h.blocks, i));
  }

  lemma ReallocAligned(c: Config, h: Heap, a: nat, n: nat)
    requires HeapOk(c, h) && AlignOk(c) && Aligned(c, h.blocks) && Live(h.blocks, a)
    ensures Aligned(c, Realloc(c, h, Some(a), n).0.blocks)
  {
    var i, size := IndexOf(h.blocks, a), AlignUp(c.align, n);
    AlignUpAligned(c.align, n);
    FreeAligned(c, h, i);
    if size > c.total || size == 0 || h.blocks[i].size == size {
    } else if Cuts(c, h.blocks[i].size, size) {
      var b, rest := h.blocks[i].(size := size), Rest(c, h.blocks, i, size);
      assert h.blocks[i] in h.blocks;
      TwoAligned(c, b, rest, size);
      SpliceAligned(c, h.blocks, i, [b, rest], if h.blocks[i + 1].used then i + 1 else i + 2);
    } else {
      LiveAfterAlloc(c, h, size, a);
      AllocAligned(c, h, size);
      var (h1, r) := Alloc(c, h, size);
      if r.Some? { FreeAligned(c, h1, IndexOf(h1.blocks, a)); }
    }
  }

  lemma StepAligned(c: Config, h: Heap, op: Op)
    requires HeapOk(c, h) && AlignOk(c) && Enabled(h, op) && Aligned(c, h.blocks)
    ensures Aligned(c, Step(c, h, op).blocks)
  {
    match op
    case AllocOp(n) => AllocAligned(c, h, n);
    case FreeOp(a) => FreeAligned(c, h, IndexOf(h.blocks, a));
    case ReallocOp(ptr, n) =>
      if ptr.Some? { ReallocAligned(c, h, ptr.value, n); } else { AllocAligned(c, h, AlignUp(c.align, n)); }
  }

  /** Every block ever handed out starts at a multiple of the alignment from the start of
      the pool, for every alignment. */
  lemma {:induction false} AlignedEver(c: Config, h: Heap, ops: seq<Op>)
    requires HeapOk(c, h) && AlignOk(c) && Aligned(c, h.blocks)
    ensures Aligned(c, Run(c, h, ops).blocks)
    decreases |ops|
  {
    if ops != [] {
      if Enabled(h, ops[0]) {
        StepInv(c, h, ops[0]);
        StepAligned(c, h, ops[0]);
        AlignedEver(c, Step(c, h, ops[0]), ops[1..]);
      } else {
        AlignedEver(c, h, ops[1..]);
      }
    }
  }

  /** So it is from the start: a new heap is aligned. */
  lemma InitAligned(c: Config)
    requires ConfigOk(c) && AlignOk(c)
    ensures Aligned(c, Init(c).blocks)
  {
    SumMod(c.total, c.header, c.align);
    SmallMod(0, c.align);
  }
}
