/** What each memheap call does to the block list and the free list
    (rt-thread/src/memheap.c), and what holds over every history of calls. */
module MemHeapSpec {
  import opened Wrappers
  import opened Words
  import opened Alignment
  import opened HeapBlocks
  import opened HeapEffects
  import opened Lists

  const MINIALLOC := 12
  /** Pool size, header size and alignment, the first two multiples of the last. */
  datatype Config = Config(pool: nat, header: nat, align: nat)

  ghost predicate ConfigOk(c: Config) {
    1 <= c.align <= c.header && 24 <= c.header && 2 * c.header <= c.pool < WORD
  }

  /** The header size and the pool size are rounded, and the alignment is a power of two. */
  ghost predicate AlignOk(c: Config)
    requires c.align >= 1
  {
    c.header % c.align == 0 && c.pool % c.align == 0 && WORD % c.align == 0
  }

  /** `frees` lists the free blocks' addresses from the head of the free list on. */
  datatype Heap = Heap(blocks: seq<Block>, frees: seq<nat>, available: int, maxUsed: int)

  function Round(c: Config, n: nat): nat
    requires c.align >= 1
  {
    if AlignUp(c.align, n) < MINIALLOC then MINIALLOC else AlignUp(c.align, n)
  }

  // ------------------------------------------------------------- the invariant

  ghost predicate FreesOk(h: Heap) {
    Distinct(h.frees) && forall a :: a in h.frees <==> IsFree(h.blocks, a)
  }

  ghost predicate Inv(c: Config, h: Heap) {
    && Tiled(c.header, c.pool, h.blocks)
    && NoTwoFree(h.blocks)
    && FreesOk(h)
    && UsedMin(MINIALLOC, h.blocks)
    && h.available == FreeSum(h.blocks)
    && c.pool - h.available <= h.maxUsed <= c.pool
  }

  // ------------------------------------------------------------ the operations

  function FirstFit(l: seq<Block>, frees: seq<nat>, size: nat): (r: Option<nat>)
    requires forall a :: a in frees ==> IndexOf(l, a) < |l|
    ensures r.Some? ==> r.value in frees && l[IndexOf(l, r.value)].size >= size
    ensures r.None? ==> forall a :: a in frees ==> l[IndexOf(l, a)].size < size
  {
    if frees == [] then None
    else if l[IndexOf(l, frees[0])].size >= size then Some(frees[0])
    else FirstFit(l, frees[1..], size)
  }

  predicate Splits(c: Config, free: nat, size: nat) { free >= size + c.header + MINIALLOC }

  /** Take `size` bytes from the free block at index i; a remainder that is big enough
      becomes a free block at the head of the free list. */
  function Carve(c: Config, h: Heap, i: nat, size: nat): Heap
    requires i < |h.blocks| && h.blocks[i].size >= size
  {
    var b := h.blocks[i];
    if Splits(c, b.size, size) then
      var rest := Block(b.addr + c.header + size, b.size - size - c.header, false);
      var available := h.available - size - c.header;
      Heap(Splice(h.blocks, i, [Block(b.addr, size, true), rest], i + 1),
           [rest.addr] + Without(h.frees, b.addr), available, Max(h.maxUsed, c.pool - available))
    else
      var available := h.available - b.size;
      Heap(Splice(h.blocks, i, [b.(used := true)], i + 1),
           Without(h.frees, b.addr), available, Max(h.maxUsed, c.pool - available))
  }

  ghost predicate FreesHere(h: Heap) {
    forall a :: a in h.frees ==> IndexOf(h.blocks, a) < |h.blocks|
  }

  /** `rt_memheap_alloc`; the result is the address of the block. */
  ghost function Alloc(c: Config, h: Heap, n: nat): (Heap, Option<nat>)
    requires c.align >= 1 && FreesHere(h)
  {
    var size := Round(c, n);
    if size >= h.available then (h, None)
    else
      var fit := FirstFit(h.blocks, h.frees, size);
      if fit.None? then (h, None)
      else (Carve(c, h, IndexOf(h.blocks, fit.value), size), fit)
  }

  /** `rt_memheap_free` of the block at index i.  A block that does not merge to the left
      goes to the head of the free list. */
  function Free(c: Config, h: Heap, i: nat): Heap
    requires i + 1 < |h.blocks|
  {
    var frees := if MergesRight(h.blocks, i) then Without(h.frees, h.blocks[i + 1].addr) else h.frees;
    Heap(Freed(c.header, h.blocks, i),
         if MergesLeft(h.blocks, i) then frees else [h.blocks[i].addr] + frees,
         h.available + h.blocks[i].size + (if MergesLeft(h.blocks, i) then c.header else 0)
           + (if MergesRight(h.blocks, i) then c.header else 0),
         h.maxUsed)
  }

  // -------------------------------------------------------------- invariance

  /** The shape of a heap after a splice, and of the splice's free list. */
  lemma SpliceShape(c: Config, h: Heap, h': Heap, lo: nat, mid: seq<Block>, hi: nat)
    requires Inv(c, h) && lo < hi < |h.blocks| && h'.blocks == Splice(h.blocks, lo, mid, hi)
    requires mid != [] && Chain(c.header, mid) && NoTwoFree(mid)
    requires mid[0].addr == h.blocks[lo].addr && End(c.header, mid[|mid| - 1]) == End(c.header, h.blocks[hi - 1])
    requires lo > 0 ==> h.blocks[lo - 1].used || mid[0].used
    requires mid[|mid| - 1].used || h.blocks[hi].used
    requires forall k :: 0 <= k < |mid| && mid[k].used ==> mid[k].size >= MINIALLOC
    requires Distinct(h'.frees)
    requires forall a :: a in h'.frees <==> IsFree(mid, a) || (a in h.frees && !HasAddr(h.blocks[lo..hi], a))
    requires h'.available == h.available - FreeSum(h.blocks[lo..hi]) + FreeSum(mid)
    requires c.pool - h'.available <= h'.maxUsed <= c.pool
    ensures Inv(c, h')
  {
    SpliceTiled(c.header, c.pool, h.blocks, lo, mid, hi);
    SpliceNoTwoFree(h.blocks, lo, mid, hi);
    SpliceUsedMin(MINIALLOC, h.blocks, lo, mid, hi);
    SpliceFreeSum(h.blocks, lo, mid, hi);
    forall a ensures a in h'.frees <==> IsFree(h'.blocks, a) {
      SpliceFree(c.header, h.blocks, lo, mid, hi, a);
    }
  }

  lemma CarveSplitInv(c: Config, h: Heap, i: nat, size: nat)
    requires ConfigOk(c) && Inv(c, h) && i < |h.blocks| && !h.blocks[i].used
    requires MINIALLOC <= size && Splits(c, h.blocks[i].size, size)
    ensures Inv(c, Carve(c, h, i, size))
  {
    hide IsFree, HasAddr, FreeSum, Distinct, Without, Splice, UsedMin;
    var b := h.blocks[i];
    var used, rest := Block(b.addr, size, true), Block(b.addr + c.header + size, b.size - size - c.header, false);
    var h' := Carve(c, h, i, size);
    assert h.blocks[i..i + 1] == [b];
    FreeSumOne(b);
    FreeSumTwo(used, rest);
    FreeSumOne(used);
    FreeSumOne(rest);
    FreeSumBounds(h.blocks, i);
    RestIsNew(c, h, i, rest.addr);
    WithoutAny(h.frees, b.addr);
    ConsMembers(rest.addr, Without(h.frees, b.addr));
    forall a ensures a in h'.frees <==> IsFree([used, rest], a) || (a in h.frees && !HasAddr([b], a)) {
      TwoBlocks(used, rest, a);
      OneBlock(b, a);
    }
    SpliceShape(c, h, h', i, [used, rest], i + 1);
  }

  /** An address inside a block is no block's address. */
  lemma RestIsNew(c: Config, h: Heap, i: nat, a: nat)
    requires Inv(c, h) && i < |h.blocks| && h.blocks[i].addr < a < End(c.header, h.blocks[i])
    ensures a !in h.frees
  {
    if IsFree(h.blocks, a) {
      var b :| b in h.blocks && b.addr == a && !b.used;
      var j :| 0 <= j < |h.blocks| && h.blocks[j] == b;
      if j < i { AddrsGrow(c.header, h.blocks, j, i); }
      if i < j { AddrsGrow(c.header, h.blocks, i, j); }
    }
  }

  lemma CarveWholeInv(c: Config, h: Heap, i: nat, size: nat)
    requires ConfigOk(c) && Inv(c, h) && i < |h.blocks| && !h.blocks[i].used
    requires MINIALLOC <= size <= h.blocks[i].size && !Splits(c, h.blocks[i].size, size)
    ensures Inv(c, Carve(c, h, i, size))
  {
    hide IsFree, HasAddr, FreeSum, Distinct, Without, Splice, UsedMin;
    var b := h.blocks[i];
    var used := b.(used := true);
    var h' := Carve(c, h, i, size);
    assert h.blocks[i..i + 1] == [b];
    FreeSumOne(b);
    FreeSumOne(used);
    FreeSumBounds(h.blocks, i);
    WithoutAny(h.frees, b.addr);
    forall a ensures a in h'.frees <==> IsFree([used], a) || (a in h.frees && !HasAddr([b], a)) {
      OneBlock(used, a);
      OneBlock(b, a);
    }
    SpliceShape(c, h, h', i, [used], i + 1);
  }

  lemma FreesAreHere(c: Config, h: Heap)
    requires ConfigOk(c) && Inv(c, h)
    ensures FreesHere(h)
    ensures forall a :: a in h.frees ==> !h.blocks[IndexOf(h.blocks, a)].used
  {
    forall a | a in h.frees
      ensures IndexOf(h.blocks, a) < |h.blocks| && !h.blocks[IndexOf(h.blocks, a)].used
    {
      var b :| b in h.blocks && b.addr == a && !b.used;
      var j :| 0 <= j < |h.blocks| && h.blocks[j] == b;
      IndexOfExact(c.header, h.blocks, j);
    }
  }

  /** Allocation keeps the blocks tiling the pool, the free list and the accounts. */
  lemma AllocInv(c: Config, h: Heap, n: nat)
    requires ConfigOk(c) && Inv(c, h)
    ensures FreesHere(h) && Inv(c, Alloc(c, h, n).0)
  {
    FreesAreHere(c, h);
    var size := Round(c, n);
    var fit := FirstFit(h.blocks, h.frees, size);
    if size < h.available && fit.Some? {
      var i := IndexOf(h.blocks, fit.value);
      if Splits(c, h.blocks[i].size, size) { CarveSplitInv(c, h, i, size); } else { CarveWholeInv(c, h, i, size); }
    }
  }

  ghost predicate CanFree(c: Config, h: Heap, i: nat) {
    ConfigOk(c) && Inv(c, h) && i < |h.blocks| - 1 && h.blocks[i].used
  }

  /** Freeing keeps them, with a merge on either side or on both. */
  lemma FreeInv(c: Config, h: Heap, i: nat)
    requires CanFree(c, h, i)
    ensures Inv(c, Free(c, h, i))
  {
    hide IsFree, Merged, Freed;
    var l, h' := h.blocks, Free(c, h, i);
    FreedShape(c.header, c.pool, MINIALLOC, l, i);
    FreedSum(c.header, l, i);
    FreedListed(c, h, i);
    FreeAt(c.header, l, i);
    forall a ensures a in h'.frees <==> IsFree(h'.blocks, a) { FreedFree(c.header, l, i, a); }
  }

  /** The free list after a free. */
  lemma FreedListed(c: Config, h: Heap, i: nat)
    requires CanFree(c, h, i)
    ensures var h' := Free(c, h, i); var b, n := h.blocks[i].addr, h.blocks[i + 1].addr;
      && Distinct(h'.frees)
      && forall a :: a in h'.frees <==>
           (IsFree(h.blocks, a) && !(MergesRight(h.blocks, i) && a == n)) || (!MergesLeft(h.blocks, i) && a == b)
  {
    hide IsFree, Freed;
    FreeAt(c.header, h.blocks, i);
    FreeAt(c.header, h.blocks, i + 1);
    WithoutAny(h.frees, h.blocks[i + 1].addr);
    ConsMembers(h.blocks[i].addr, h.frees);
    ConsMembers(h.blocks[i].addr, Without(h.frees, h.blocks[i + 1].addr));
  }

  // ----------------------------------------------------------------- realloc

  /** The test of `rt_memheap_realloc` for growing into the free block behind, in 32-bit
      arithmetic. */
  predicate GrowGuard(next: nat, was: nat, size: nat) {
    (next + was) % WORD > (size + MINIALLOC) % WORD
  }

  /** The guard means what it says exactly when the requested size, plus the minimum, does
      not wrap around. */
  lemma GrowGuardExact(next: nat, was: nat, size: nat)
    requires MINIALLOC <= was && next + was < WORD && size < WORD
    ensures (GrowGuard(next, was, size) <==> next + was > size + MINIALLOC) <==> size + MINIALLOC < WORD
  {
    if size + MINIALLOC >= WORD { assert (size + MINIALLOC) % WORD == size + MINIALLOC - WORD < MINIALLOC; }
  }

  /** Grow the used block at index i into the free block behind it, in 32-bit arithmetic. */
  function GrowWord(c: Config, h: Heap, i: nat, size: nat): Heap
    requires i + 1 < |h.blocks|
  {
    var b, n := h.blocks[i], h.blocks[i + 1];
    var rest := Block((b.addr + c.header + size) % WORD, (b.size + n.size - size) % WORD, false);
    var available := (h.available - (size - b.size)) % WORD;
    Heap(Splice(h.blocks, i, [b.(size := size), rest], i + 2), [rest.addr] + Without(h.frees, n.addr),
         available, Max(h.maxUsed, (c.pool - available) % WORD))
  }

  /** The same when nothing wraps: the remainder of the free block starts further on. */
  function Grow(c: Config, h: Heap, i: nat, size: nat): Heap
    requires i + 1 < |h.blocks| && h.blocks[i].size + h.blocks[i + 1].size >= size
  {
    var b, n := h.blocks[i], h.blocks[i + 1];
    var rest := Block(b.addr + c.header + size, b.size + n.size - size, false);
    var available := h.available - (size - b.size);
    Heap(Splice(h.blocks, i, [b.(size := size), rest], i + 2), [rest.addr] + Without(h.frees, n.addr),
         available, Max(h.maxUsed, c.pool - available))
  }

  lemma GrowWordPlain(c: Config, h: Heap, i: nat, size: nat)
    requires CanFree(c, h, i) && !h.blocks[i + 1].used && size > h.blocks[i].size
    requires h.blocks[i].size + h.blocks[i + 1].size > size + MINIALLOC
    ensures GrowWord(c, h, i, size) == Grow(c, h, i, size)
  {
    hide IsFree, NoTwoFree, UsedMin;
    Inside(c.header, c.pool, h.blocks, i + 1);
    FreeSumBounds(h.blocks, i + 1);
    FreeSumWithin(c.header, h.blocks);
    assert h.blocks[i + 1].addr == End(c.header, h.blocks[i]);
    GrowWordIs(c, h, i, size);
  }

  lemma GrowWordIs(c: Config, h: Heap, i: nat, size: nat)
    requires i + 1 < |h.blocks| && h.blocks[i].size < size <= h.blocks[i].size + h.blocks[i + 1].size < WORD
    requires h.blocks[i].addr + c.header + size < WORD
    requires 0 <= h.available - (size - h.blocks[i].size) <= c.pool < WORD
    ensures GrowWord(c, h, i, size) == Grow(c, h, i, size)
  {
  }

  /** Cut the used block at index i down; the rest merges with a free block behind. */
  function Shrink(c: Config, h: Heap, i: nat, size: nat): Heap
    requires i + 1 < |h.blocks| && h.blocks[i].size >= size + c.header
  {
    var b, n := h.blocks[i], h.blocks[i + 1];
    var rest := Block(b.addr + c.header + size, b.size - size - c.header + (if n.used then 0 else c.header + n.size),
                      false);
    Heap(Splice(h.blocks, i, [b.(size := size), rest], if n.used then i + 1 else i + 2),
         [rest.addr] + (if n.used then h.frees else Without(h.frees, n.addr)),
         h.available - (if n.used then 0 else n.size) + rest.size, h.maxUsed)
  }

  /** How `rt_memheap_realloc` answers a request for `size` bytes at the block with index i. */
  datatype Path = Keep | Cut | Extend | Move

  function PathOf(c: Config, l: seq<Block>, i: nat, size: nat): Path
    requires i + 1 < |l|
  {
    if size > l[i].size then
      if !l[i + 1].used && GrowGuard(l[i + 1].size, l[i].size, size) then Extend else Move
    else if size + c.header + MINIALLOC >= l[i].size then Keep else Cut
  }

  /** Growth in place keeps them, the absorbed block giving way to a remainder further on. */
  lemma GrowInv(c: Config, h: Heap, i: nat, size: nat)
    requires CanFree(c, h, i) && !h.blocks[i + 1].used && size > h.blocks[i].size
    requires h.blocks[i].size + h.blocks[i + 1].size > size + MINIALLOC
    ensures Inv(c, Grow(c, h, i, size))
  {
    hide IsFree, HasAddr, FreeSum, Distinct, Without, Splice;
    var b, n := h.blocks[i], h.blocks[i + 1];
    var used, rest := b.(size := size), Block(b.addr + c.header + size, b.size + n.size - size, false);
    var h' := Grow(c, h, i, size);
    assert h.blocks[i..i + 2] == [b, n];
    assert n.addr == End(c.header, b);
    FreeSumTwo(b, n);
    FreeSumOne(b);
    FreeSumOne(n);
    FreeSumTwo(used, rest);
    FreeSumOne(used);
    FreeSumOne(rest);
    FreeSumBounds(h.blocks, i + 1);
    FreeAt(c.header, h.blocks, i);
    RestIsNew(c, h, i + 1, rest.addr);
    WithoutAny(h.frees, n.addr);
    ConsMembers(rest.addr, Without(h.frees, n.addr));
    forall a ensures a in h'.frees <==> IsFree([used, rest], a) || (a in h.frees && !HasAddr([b, n], a)) {
      TwoBlocks(used, rest, a);
      TwoBlocks(b, n, a);
    }
    LeftOfFree(h.blocks, i + 1);
    SpliceShape(c, h, h', i, [used, rest], i + 2);
  }

  lemma ShrinkAloneInv(c: Config, h: Heap, i: nat, size: nat)
    requires CanFree(c, h, i) && h.blocks[i + 1].used
    requires MINIALLOC <= size && size + c.header + MINIALLOC < h.blocks[i].size
    ensures Inv(c, Shrink(c, h, i, size))
  {
    hide IsFree, HasAddr, FreeSum, Distinct, Without, Splice, UsedMin;
    var b := h.blocks[i];
    var used, rest := b.(size := size), Block(b.addr + c.header + size, b.size - size - c.header, false);
    var h' := Shrink(c, h, i, size);
    assert h.blocks[i..i + 1] == [b];
    FreeSumOne(b);
    FreeSumTwo(used, rest);
    FreeSumOne(used);
    FreeSumOne(rest);
    FreeAt(c.header, h.blocks, i);
    RestIsNew(c, h, i, rest.addr);
    ConsMembers(rest.addr, h.frees);
    forall a ensures a in h'.frees <==> IsFree([used, rest], a) || (a in h.frees && !HasAddr([b], a)) {
      TwoBlocks(used, rest, a);
      OneBlock(b, a);
    }
    SpliceShape(c, h, h', i, [used, rest], i + 1);
  }

  lemma ShrinkMergeInv(c: Config, h: Heap, i: nat, size: nat)
    requires CanFree(c, h, i) && !h.blocks[i + 1].used
    requires MINIALLOC <= size && size + c.header + MINIALLOC < h.blocks[i].size
    ensures Inv(c, Shrink(c, h, i, size))
  {
    hide IsFree, HasAddr, FreeSum, Distinct, Without, Splice, UsedMin;
    var b, n := h.blocks[i], h.blocks[i + 1];
    var used := b.(size := size);
    var rest := Block(b.addr + c.header + size, b.size - size - c.header + (c.header + n.size), false);
    var h' := Shrink(c, h, i, size);
    assert h.blocks[i..i + 2] == [b, n];
    assert n.addr == End(c.header, b);
    FreeSumTwo(b, n);
    FreeSumOne(b);
    FreeSumOne(n);
    FreeSumTwo(used, rest);
    FreeSumOne(used);
    FreeSumOne(rest);
    FreeAt(c.header, h.blocks, i);
    RestIsNew(c, h, i, rest.addr);
    WithoutAny(h.frees, n.addr);
    ConsMembers(rest.addr, Without(h.frees, n.addr));
    forall a ensures a in h'.frees <==> IsFree([used, rest], a) || (a in h.frees && !HasAddr([b, n], a)) {
      TwoBlocks(used, rest, a);
      TwoBlocks(b, n, a);
    }
    LeftOfFree(h.blocks, i + 1);
    SpliceShape(c, h, h', i, [used, rest], i + 2);
  }

  /** A cut keeps them, the part cut off merging with a free block behind. */
  lemma ShrinkInv(c: Config, h: Heap, i: nat, size: nat)
    requires CanFree(c, h, i) && MINIALLOC <= size && size + c.header + MINIALLOC < h.blocks[i].size
    ensures Inv(c, Shrink(c, h, i, size))
  {
    if h.blocks[i + 1].used { ShrinkAloneInv(c, h, i, size); } else { ShrinkMergeInv(c, h, i, size); }
  }
}
