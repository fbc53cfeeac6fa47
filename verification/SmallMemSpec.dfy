/** What each call of the small memory algorithm does to its heap (rt-thread/src/mem.c), and
    what holds over every history of calls. */
module SmallMemSpec {
  import opened Wrappers
  import opened Words
  import opened Alignment
  import opened HeapBlocks
  import opened HeapEffects

  const MIN_SIZE := 12

  /** Usable size, header size and alignment. */
  datatype Config = Config(total: nat, header: nat, align: nat)

  /** The first header and the tail come on top of the usable size. */
  function Pool(c: Config): nat { c.total + 2 * c.header }

  function MinAligned(c: Config): nat
    requires c.align >= 1
  {
    AlignUp(c.align, MIN_SIZE)
  }

  ghost predicate ConfigOk(c: Config) {
    1 <= c.align <= c.header && MIN_SIZE <= c.header && Pool(c) < WORD && MinAligned(c) <= c.total
  }

  /** The header size and the usable size are rounded, and the alignment is a power of two. */
  ghost predicate AlignOk(c: Config)
    requires c.align >= 1
  {
    c.header % c.align == 0 && c.total % c.align == 0 && WORD % c.align == 0
  }

  datatype Heap = Heap(blocks: seq<Block>, used: int, peak: int)

  // ------------------------------------------------------------- the invariant

  /** What the used blocks take up, headers included. */
  function UsedSum(header: nat, l: seq<Block>): nat {
    if l == [] then 0 else (if l[0].used then header + l[0].size else 0) + UsedSum(header, l[1..])
  }

  ghost predicate Inv(c: Config, h: Heap) {
    && Tiled(c.header, Pool(c), h.blocks)
    && NoTwoFree(h.blocks)
    && UsedMin(1, h.blocks)
    && h.used + c.header == UsedSum(c.header, h.blocks)
    && h.used <= h.peak <= c.total + c.header
  }

  ghost predicate HeapOk(c: Config, h: Heap) { ConfigOk(c) && Inv(c, h) }

  /** The index of the lowest free block, or of the tail. */
  function Lowest(l: seq<Block>): (i: nat)
    requires l != []
    ensures i < |l| && (i < |l| - 1 ==> !l[i].used)
    ensures forall k :: 0 <= k < i ==> l[k].used
  {
    if |l| == 1 || !l[0].used then 0 else
      var i := Lowest(l[1..]);
      assert forall k :: 0 < k < i + 1 ==> l[k] == l[1..][k - 1];
      i + 1
  }

  lemma LowestIs(l: seq<Block>, i: nat)
    requires i < |l| && (i == |l| - 1 || !l[i].used) && forall k :: 0 <= k < i ==> l[k].used
    ensures Lowest(l) == i
  {
  }

  // ------------------------------------------------------------ the operations

  predicate Fits(b: Block, size: nat) { !b.used && b.size >= size }

  /** The index of the lowest free block that is big enough. */
  function FirstFit(l: seq<Block>, size: nat): (r: Option<nat>)
    ensures r.Some? ==> r.value < |l| && Fits(l[r.value], size) && forall k :: 0 <= k < r.value ==> !Fits(l[k], size)
    ensures r.None? ==> forall k :: 0 <= k < |l| ==> !Fits(l[k], size)
  {
    if l == [] then None else if Fits(l[0], size) then Some(0) else
      var r := FirstFit(l[1..], size);
      assert forall k :: 0 < k < |l| ==> l[k] == l[1..][k - 1];
      if r.None? then None else Some(r.value + 1)
  }

  predicate Splits(c: Config, free: nat, size: nat)
    requires c.align >= 1
  {
    free >= size + c.header + MinAligned(c)
  }

  /** Take `size` bytes from the free block at index i. */
  function Carve(c: Config, h: Heap, i: nat, size: nat): Heap
    requires c.align >= 1 && i < |h.blocks| && h.blocks[i].size >= size
  {
    var b := h.blocks[i];
    if Splits(c, b.size, size) then
      var rest := Block(b.addr + c.header + size, b.size - size - c.header, false);
      var used := h.used + (size + c.header);
      Heap(Splice(h.blocks, i, [Block(b.addr, size, true), rest], i + 1), used, Max(h.peak, used))
    else
      var used := h.used + (b.size + c.header);
      Heap(Splice(h.blocks, i, [b.(used := true)], i + 1), used, Max(h.peak, used))
  }

  /** The size looked for when n bytes are asked for. */
  function Wanted(c: Config, n: nat): nat
    requires c.align >= 1
  {
    if AlignUp(c.align, n) < MinAligned(c) then MinAligned(c) else AlignUp(c.align, n)
  }

  /** `rt_smem_alloc`; the result is the address of the block. */
  function Alloc(c: Config, h: Heap, n: nat): (Heap, Option<nat>)
    requires c.align >= 1
  {
    if n == 0 || AlignUp(c.align, n) > c.total then (h, None)
    else
      var fit := FirstFit(h.blocks, Wanted(c, n));
      if fit.None? then (h, None) else (Carve(c, h, fit.value, Wanted(c, n)), Some(h.blocks[fit.value].addr))
  }

  /** `rt_smem_free` of the block at index i. */
  function Free(c: Config, h: Heap, i: nat): Heap
    requires i + 1 < |h.blocks|
  {
    Heap(Freed(c.header, h.blocks, i), h.used - (h.blocks[i].size + c.header), h.peak)
  }

  /** What is cut off the block at index i, with a free block behind. */
  function Rest(c: Config, l: seq<Block>, i: nat, size: nat): Block
    requires i + 1 < |l| && l[i].size >= size + c.header
  {
    Block(l[i].addr + c.header + size,
          l[i].size - size - c.header + (if l[i + 1].used then 0 else c.header + l[i + 1].size), false)
  }

  /** Cut the used block at index i down in place. */
  function Shrink(c: Config, h: Heap, i: nat, size: nat): Heap
    requires i + 1 < |h.blocks| && h.blocks[i].size >= size + c.header
  {
    var b := h.blocks[i];
    Heap(Splice(h.blocks, i, [b.(size := size), Rest(c, h.blocks, i, size)],
                if h.blocks[i + 1].used then i + 1 else i + 2),
         h.used - (b.size - size), h.peak)
  }

  predicate Cuts(c: Config, was: nat, size: nat) { size + c.header + MIN_SIZE < was }

  /** `rt_smem_realloc`; a is the block of the pointer passed, the result the block of the
      pointer returned. */
  ghost function Realloc(c: Config, h: Heap, a: Option<nat>, n: nat): (Heap, Option<nat>)
    requires HeapOk(c, h) && (a.Some? ==> Live(h.blocks, a.value))
  {
    var size := AlignUp(c.align, n);
    if size > c.total then (h, None)
    else if size == 0 then (if a.None? then h else Free(c, h, IndexOf(h.blocks, a.value)), None)
    else if a.None? then Alloc(c, h, size)
    else
      var i := IndexOf(h.blocks, a.value);
      if h.blocks[i].size == size then (h, a)
      else if Cuts(c, h.blocks[i].size, size) then (Shrink(c, h, i, size), a)
      else
        LiveAfterAlloc(c, h, size, a.value);
        var (h1, r) := Alloc(c, h, size);
        if r.None? then (h, None) else (Free(c, h1, IndexOf(h1.blocks, a.value)), r)
  }

  // ------------------------------------------------------------ used space

  lemma {:induction false} UsedSumConcat(header: nat, a: seq<Block>, b: seq<Block>)
    ensures UsedSum(header, a + b) == UsedSum(header, a) + UsedSum(header, b)
  {
    if a == [] {
      assert a + b == b;
    } else {
      assert (a + b)[1..] == a[1..] + b;
      UsedSumConcat(header, a[1..], b);
    }
  }

  lemma SpliceUsedSum(header: nat, l: seq<Block>, lo: nat, mid: seq<Block>, hi: nat)
    requires lo <= hi <= |l|
    ensures UsedSum(header, Splice(l, lo, mid, hi))
         == UsedSum(header, l) - UsedSum(header, l[lo..hi]) + UsedSum(header, mid)
  {
    UsedSumConcat(header, l[..lo], mid + l[hi..]);
    UsedSumConcat(header, mid, l[hi..]);
    assert l == l[..lo] + (l[lo..hi] + l[hi..]);
    UsedSumConcat(header, l[..lo], l[lo..hi] + l[hi..]);
    UsedSumConcat(header, l[lo..hi], l[hi..]);
  }

  lemma UsedSumOne(header: nat, b: Block)
    ensures UsedSum(header, [b]) == if b.used then header + b.size else 0
  {
    assert [b][1..] == [];
  }

  lemma UsedSumTwo(header: nat, a: Block, b: Block)
    ensures UsedSum(header, [a, b]) == UsedSum(header, [a]) + UsedSum(header, [b])
  {
    assert [a, b] == [a] + [b];
    UsedSumConcat(header, [a], [b]);
  }

  /** Used blocks take up no more than there is. */
  lemma {:induction false} UsedSumBounds(header: nat, l: seq<Block>)
    requires Chain(header, l) && l != []
    ensures UsedSum(header, l) <= End(header, l[|l| - 1]) - l[0].addr
    decreases |l|
  {
    if |l| > 1 {
      assert l[0 + 1].addr == End(header, l[0]);
      ChainTail(header, l);
      UsedSumBounds(header, l[1..]);
    }
  }

  // -------------------------------------------------------------- invariance

  /** The shape of a heap after a splice that does not touch the tail. */
  lemma SpliceShape(c: Config, h: Heap, h': Heap, lo: nat, mid: seq<Block>, hi: nat)
    requires Inv(c, h) && lo < hi < |h.blocks| && h'.blocks == Splice(h.blocks, lo, mid, hi)
    requires mid != [] && Chain(c.header, mid) && NoTwoFree(mid)
    requires mid[0].addr == h.blocks[lo].addr && End(c.header, mid[|mid| - 1]) == End(c.header, h.blocks[hi - 1])
    requires lo > 0 ==> h.blocks[lo - 1].used || mid[0].used
    requires mid[|mid| - 1].used || h.blocks[hi].used
    requires forall k :: 0 <= k < |mid| && mid[k].used ==> mid[k].size >= 1
    requires h'.used == h.used - UsedSum(c.header, h.blocks[lo..hi]) + UsedSum(c.header, mid)
    requires h'.peak == Max(h.peak, h'.used)
    ensures Inv(c, h')
  {
    hide Splice, Chain, NoTwoFree, UsedMin, UsedSum;
    SpliceTiled(c.header, Pool(c), h.blocks, lo, mid, hi);
    SpliceNoTwoFree(h.blocks, lo, mid, hi);
    SpliceUsedMin(1, h.blocks, lo, mid, hi);
    SpliceUsedSum(c.header, h.blocks, lo, mid, hi);
    UsedSumBounds(c.header, h'.blocks);
  }

  lemma MinAlignedEnough(c: Config)
    requires ConfigOk(c)
    ensures MIN_SIZE <= MinAligned(c)
  {
    AlignUpExact(c.align, MIN_SIZE);
  }

  lemma CarveInv(c: Config, h: Heap, i: nat, size: nat)
    requires HeapOk(c, h) && i < |h.blocks| && Fits(h.blocks[i], size) && size >= 1
    ensures Inv(c, Carve(c, h, i, size))
  {
    hide UsedSum;
    var b := h.blocks[i];
    assert h.blocks[i..i + 1] == [b];
    UsedSumOne(c.header, b);
    LeftOfFree(h.blocks, i);
    if Splits(c, b.size, size) {
      var used, rest := Block(b.addr, size, true), Block(b.addr + c.header + size, b.size - size - c.header, false);
      UsedSumTwo(c.header, used, rest);
      UsedSumOne(c.header, used);
      UsedSumOne(c.header, rest);
      SpliceShape(c, h, Carve(c, h, i, size), i, [used, rest], i + 1);
    } else {
      UsedSumOne(c.header, b.(used := true));
      SpliceShape(c, h, Carve(c, h, i, size), i, [b.(used := true)], i + 1);
    }
  }

  /** Allocation keeps the blocks tiling the pool, and the accounts. */
  lemma AllocInv(c: Config, h: Heap, n: nat)
    requires HeapOk(c, h)
    ensures Inv(c, Alloc(c, h, n).0)
  {
    MinAlignedEnough(c);
    var fit := FirstFit(h.blocks, Wanted(c, n));
    if fit.Some? { CarveInv(c, h, fit.value, Wanted(c, n)); }
  }

  /** Freeing keeps them, whichever holes are plugged. */
  lemma FreeInv(c: Config, h: Heap, i: nat)
    requires HeapOk(c, h) && i < |h.blocks| - 1 && h.blocks[i].used
    ensures Inv(c, Free(c, h, i))
  {
    FreedShape(c.header, Pool(c), 1, h.blocks, i);
    FreedUsedSum(c.header, h.blocks, i);
  }

  lemma FreedUsedSum(header: nat, l: seq<Block>, i: nat)
    requires i + 1 < |l| && l[i].used
    ensures UsedSum(header, Freed(header, l, i)) == UsedSum(header, l) - (header + l[i].size)
  {
    hide UsedSum, Splice;
    var b := Merged(header, l, i);
    SpliceUsedSum(header, l, FreeLo(l, i), [b], FreeHi(l, i));
    UsedSumOne(header, b);
    FreedPartUsed(header, l, i);
  }

  lemma FreedPartUsed(header: nat, l: seq<Block>, i: nat)
    requires i + 1 < |l| && l[i].used
    ensures UsedSum(header, l[FreeLo(l, i)..FreeHi(l, i)]) == header + l[i].size
  {
    FreedPart(l, i);
    UsedSumConcat(header, Left(l, i), [l[i]] + Right(l, i));
    UsedSumConcat(header, [l[i]], Right(l, i));
    UsedSumOne(header, l[i]);
    UsedSumOne(header, l[i + 1]);
    if MergesLeft(l, i) { UsedSumOne(header, l[i - 1]); }
  }

  /** A cut keeps them. */
  lemma ShrinkInv(c: Config, h: Heap, i: nat, size: nat)
    requires HeapOk(c, h) && i < |h.blocks| - 1 && h.blocks[i].used && 1 <= size && Cuts(c, h.blocks[i].size, size)
    ensures Inv(c, Shrink(c, h, i, size))
  {
    hide UsedSum;
    var b, n, rest := h.blocks[i], h.blocks[i + 1], Rest(c, h.blocks, i, size);
    var used := b.(size := size);
    assert n.addr == End(c.header, b);
    UsedSumTwo(c.header, used, rest);
    UsedSumOne(c.header, used);
    UsedSumOne(c.header, rest);
    UsedSumOne(c.header, b);
    if n.used {
      assert h.blocks[i..i + 1] == [b];
      SpliceShape(c, h, Shrink(c, h, i, size), i, [used, rest], i + 1);
    } else {
      assert h.blocks[i..i + 2] == [b, n];
      UsedSumTwo(c.header, b, n);
      UsedSumOne(c.header, n);
      LeftOfFree(h.blocks, i + 1);
      SpliceShape(c, h, Shrink(c, h, i, size), i, [used, rest], i + 2);
    }
  }

  // --------------------------------------------------- what alloc leaves alone

  lemma CarveEffect(c: Config, h: Heap, i: nat, size: nat)
    requires HeapOk(c, h) && i < |h.blocks| && Fits(h.blocks[i], size) && size >= 1
    ensures var l' := Carve(c, h, i, size).blocks;
      && i < |l'| && l'[i].addr == h.blocks[i].addr && l'[i].used
      && size <= l'[i].size < size + c.header + MinAligned(c)
      && KeepsOthers(h.blocks, l', h.blocks[i].addr) && KeepsOthers(l', h.blocks, h.blocks[i].addr)
  {
    var b := h.blocks[i];
    var l' := Carve(c, h, i, size).blocks;
    var mid := if Splits(c, b.size, size) then
      [Block(b.addr, size, true), Block(b.addr + c.header + size, b.size - size - c.header, false)]
      else [b.(used := true)];
    SpliceAt(h.blocks, i, mid, i + 1, i);
    assert h.blocks[i..i + 1] == [b];
    MinAlignedEnough(c);
    forall x | x in h.blocks && x.used && x.addr != b.addr ensures x in l' {
      InSplice(h.blocks, i, mid, i + 1, x);
    }
    forall x | x in l' && x.used && x.addr != b.addr ensures x in h.blocks {
      InSplice(h.blocks, i, mid, i + 1, x);
    }
  }

  /** A successful allocation turns a free block into one in use, at least as big as the
      rounded request and with less than a header and a minimal block to spare, and leaves
      every other block in use alone; a failed one changes nothing. */
  lemma AllocEffect(c: Config, h: Heap, n: nat)
    requires HeapOk(c, h)
    ensures var (h', r) := Alloc(c, h, n);
      && Inv(c, h')
      && (r.None? ==> h' == h)
      && (r.Some? ==>
            && IsFree(h.blocks, r.value) && Live(h'.blocks, r.value)
            && Wanted(c, n) <= h'.blocks[IndexOf(h'.blocks, r.value)].size < Wanted(c, n) + c.header + MinAligned(c)
            && KeepsOthers(h.blocks, h'.blocks, r.value) && KeepsOthers(h'.blocks, h.blocks, r.value))
  {
    AllocInv(c, h, n);
    MinAlignedEnough(c);
    var (h', r) := Alloc(c, h, n);
    if r.Some? {
      var i := FirstFit(h.blocks, Wanted(c, n)).value;
      assert h.blocks[i] in h.blocks;
      CarveEffect(c, h, i, Wanted(c, n));
      IndexOfExact(c.header, h'.blocks, i);
    }
  }

  /** A block in use is still in use after an allocation of another. */
  lemma LiveAfterAlloc(c: Config, h: Heap, n: nat, a: nat)
    requires HeapOk(c, h) && Live(h.blocks, a)
    ensures var (h', r) := Alloc(c, h, n);
      && Inv(c, h') && Live(h'.blocks, a) && r != Some(a)
      && h'.blocks[IndexOf(h'.blocks, a)] == h.blocks[IndexOf(h.blocks, a)]
  {
    AllocEffect(c, h, n);
    LiveBlock(c.header, Pool(c), 1, h.blocks, a);
    KeptIsLive(c.header, Pool(c), Alloc(c, h, n).0.blocks, h.blocks[IndexOf(h.blocks, a)]);
  }
}
