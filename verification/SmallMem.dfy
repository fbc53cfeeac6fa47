/** The small memory object (rt-thread/src/mem.c): headers linked by offsets, a cursor at
    the lowest free block, and the bytes of the pool.  A header is its fields in the link
    and flag maps below, keyed by the header's offset; storing to any of them overwrites
    bytes of that header, here with arbitrary ones.  Each call does to the heap what
    `SmallMemSpec` says of it. */
module SmallMem {
  import opened Wrappers
  import opened Words
  import opened Alignment
  import opened HeapBlocks
  import opened HeapBytes
  import opened HeapEffects
  import opened HeapLinks
  import opened Rings
  import opened SmallMemSpec
  import T = SmallMemTheorems

  /** `next` leads from each header to the one behind it; the tail's leads to itself. */
  ghost predicate NextOk(next: Links, l: seq<int>) {
    && l != []
    && (forall i :: 0 <= i < |l| - 1 ==> l[i] in next && next[l[i]] == l[i + 1])
    && l[|l| - 1] in next && next[l[|l| - 1]] == l[|l| - 1]
  }

  /** `prev` leads from each header to the one in front, the first's to itself.  The tail's
      is not kept up. */
  ghost predicate PrevOk(prev: Links, l: seq<int>) {
    forall i :: 0 <= i < |l| - 1 ==> l[i] in prev && prev[l[i]] == l[if i == 0 then 0 else i - 1]
  }

  ghost predicate LinksOk(next: Links, prev: Links, l: seq<int>) {
    NextOk(next, l) && PrevOk(prev, l) && Unique(l)
  }

  class SmallMem {
    const c: Config
    const bytes: array<bv8>
    var next: Links
    var prev: Links
    var used: map<int, bool>
    var lfree: int
    var usedSize: int
    var maxSize: int
    ghost var blocks: seq<Block>

    ghost function View(): Heap
      reads this
    {
      Heap(blocks, usedSize, maxSize)
    }

    ghost predicate Threaded()
      reads this
    {
      && LinksOk(next, prev, Addrs(blocks))
      && FlagsOk(used, blocks)
      && bytes.Length == Pool(c)
    }

    ghost predicate Valid()
      reads this
    {
      Threaded() && HeapOk(c, View()) && AlignOk(c) && lfree == blocks[Lowest(blocks)].addr
    }

    /** The offset of `heap_end`. */
    function HeapEnd(): nat { c.total + c.header }

    /** `rt_smem_init`, past the rounding of the addresses it is given. */
    constructor (c: Config)
      requires ConfigOk(c) && AlignOk(c)
      ensures this.c == c && Valid() && View() == T.Init(c)
    {
      this.c := c;
      bytes := new bv8[Pool(c)];
      var end := c.total + c.header;
      next, prev := map[0 := end, end := end], map[0 := 0, end := end];
      used := map[0 := false, end := true];
      lfree, usedSize, maxSize := 0, 0, 0;
      blocks := T.Init(c).blocks;
      T.InitInv(c);
    }

    ghost predicate MayStore(hs: set<int>, a: int) {
      a in hs && 0 <= a && a + c.header <= bytes.Length
    }

    ghost predicate Storable(hs: set<int>, l: seq<int>) {
      forall a :: a in l ==> MayStore(hs, a)
    }

    /** A store to a field of the header at a. */
    method Touch(a: int, ghost hs: set<int>)
      requires MayStore(hs, a)
      modifies bytes
      ensures forall k :: 0 <= k < bytes.Length && Clear(c.header, hs, k) ==> bytes[k] == old(bytes[k])
    {
      StoreHeader(bytes, c.header, a);
    }

    // ---------------------------------------------------------------- stores

    /** A new free header at `rest` behind the one at `at`. */
    method SplitAt(at: int, rest: int, ghost l: seq<int>, ghost i: nat, ghost hs: set<int>)
      requires LinksOk(next, prev, l) && i < |l| - 1 && l[i] == at && rest !in l && l[|l| - 1] == HeapEnd()
      requires Storable(hs, l) && MayStore(hs, rest)
      modifies this`next, this`prev, this`used, bytes
      ensures LinksOk(next, prev, Inserted(l, i, rest)) && used == old(used)[rest := false]
      ensures forall k :: 0 <= k < bytes.Length && Clear(c.header, hs, k) ==> bytes[k] == old(bytes[k])
    {
      hide Clear;
      LinksInsert(next, prev, l, i, rest);
      used := used[rest := false];
      Touch(rest, hs);
      next := next[rest := next[at]];
      Touch(rest, hs);
      prev := prev[rest := at];
      Touch(rest, hs);
      next := next[at := rest];
      Touch(at, hs);
      if next[rest] != HeapEnd() {
        prev := prev[next[rest] := rest];
        Touch(next[rest], hs);
      }
    }

    /** `plug_holes`: merge the free block at `mem` with a free neighbour behind and a free
        neighbour in front. */
    method PlugHoles(mem: int, ghost l: seq<int>, ghost j: nat, ghost hs: set<int>)
      requires LinksOk(next, prev, l) && j < |l| - 1 && l[j] == mem && l[|l| - 1] == HeapEnd() && Storable(hs, l)
      requires mem in used && !used[mem] && l[j + 1] in used && HeapEnd() in used && used[HeapEnd()]
      requires j > 0 ==> l[j - 1] in used
      modifies this`next, this`prev, this`used, this`lfree, bytes
      ensures var left, right := j > 0 && !old(used)[l[j - 1]], !old(used)[l[j + 1]];
        && LinksOk(next, prev, FreedRing(l, j, left, right))
        && lfree == Cursor(old(lfree), mem, j, l, left, right)
      ensures used == old(used)
      ensures forall k :: 0 <= k < bytes.Length && Clear(c.header, hs, k) ==> bytes[k] == old(bytes[k])
    {
      hide Clear, LinksOk, Removed, FreedRing;
      RemovedBehind(l, j);
      RemovedTwice(l, j);
      PlugForward(mem, l, j, hs);
      ghost var l' := if !used[l[j + 1]] then Removed(l, j + 1) else l;
      PlugBackward(mem, l', j, hs);
    }

    method PlugForward(mem: int, ghost l: seq<int>, ghost j: nat, ghost hs: set<int>)
      requires LinksOk(next, prev, l) && j < |l| - 1 && l[j] == mem && l[|l| - 1] == HeapEnd() && Storable(hs, l)
      requires l[j + 1] in used && HeapEnd() in used && used[HeapEnd()]
      modifies this`next, this`prev, this`used, this`lfree, bytes
      ensures LinksOk(next, prev, if !old(used)[l[j + 1]] then Removed(l, j + 1) else l)
      ensures used == old(used)
      ensures lfree == if !old(used)[l[j + 1]] && old(lfree) == l[j + 1] then mem else old(lfree)
      ensures forall k :: 0 <= k < bytes.Length && Clear(c.header, hs, k) ==> bytes[k] == old(bytes[k])
    {
      hide Clear;
      var nmem := next[mem];
      if mem != nmem && !used[nmem] && nmem != HeapEnd() {
        LinksRemove(next, prev, l, j);
        if lfree == nmem {
          lfree := mem;
        }
        used := used[nmem := false];
        Touch(nmem, hs);
        next := next[mem := next[nmem]];
        Touch(mem, hs);
        prev := prev[next[nmem] := mem];
        Touch(next[nmem], hs);
      }
    }

    method PlugBackward(mem: int, ghost l: seq<int>, ghost j: nat, ghost hs: set<int>)
      requires LinksOk(next, prev, l) && j < |l| - 1 && l[j] == mem && Storable(hs, l)
      requires mem in used && !used[mem] && (j > 0 ==> l[j - 1] in used)
      modifies this`next, this`prev, this`used, this`lfree, bytes
      ensures LinksOk(next, prev, if j > 0 && !old(used)[l[j - 1]] then Removed(l, j) else l)
      ensures used == old(used)
      ensures lfree == if j > 0 && !old(used)[l[j - 1]] && old(lfree) == mem then l[j - 1] else old(lfree)
      ensures forall k :: 0 <= k < bytes.Length && Clear(c.header, hs, k) ==> bytes[k] == old(bytes[k])
    {
      hide Clear;
      var pmem := prev[mem];
      if pmem != mem && !used[pmem] {
        LinksRemove(next, prev, l, j - 1);
        if lfree == mem {
          lfree := pmem;
        }
        used := used[mem := false];
        Touch(mem, hs);
        next := next[pmem := next[mem]];
        Touch(pmem, hs);
        prev := prev[next[mem] := pmem];
        Touch(next[mem], hs);
      }
    }

    // ----------------------------------------------------------------- alloc

    /** The search of `rt_smem_alloc`: from the cursor on, up to where nothing fits any
        more. */
    method Search(size: nat) returns (r: Option<nat>)
      requires Valid() && 1 <= size <= c.total
      ensures FirstFit(blocks, size).Some? <==> r.Some?
      ensures r.Some? ==> r.value == blocks[FirstFit(blocks, size).value].addr
    {
      hide LinksOk, FlagsOk, UsedSum, NoTwoFree;
      ghost var j: nat := Lowest(blocks);
      var ptr := lfree;
      while ptr <= c.total - size
        invariant j < |blocks| && ptr == blocks[j].addr
        invariant forall k :: 0 <= k < j ==> !Fits(blocks[k], size)
        decreases |blocks| - j
      {
        HeaderRead(c, View(), next, prev, used, j);
        if !used[ptr] && next[ptr] - (ptr + c.header) >= size {
          return Some(ptr);
        }
        ptr := next[ptr];
        j := j + 1;
      }
      NothingBeyond(c, View(), j, size);
      r := None;
    }

    /** Take n bytes more and keep the high-water mark. */
    method Charge(n: int)
      modifies this`usedSize, this`maxSize
      ensures usedSize == old(usedSize) + n && maxSize == Max(old(maxSize), usedSize)
    {
      usedSize := usedSize + n;
      if maxSize < usedSize {
        maxSize := usedSize;
      }
    }

    /** Find the next free block after one that has been used. */
    method AdvanceCursor(ghost i: nat)
      requires LinksOk(next, prev, Addrs(blocks)) && FlagsOk(used, blocks) && |blocks| > 0
      requires blocks[|blocks| - 1].addr == HeapEnd() && i < |blocks| && lfree == blocks[i].addr
      requires forall k :: 0 <= k < i ==> blocks[k].used
      modifies this`lfree
      ensures lfree == blocks[Lowest(blocks)].addr
    {
      ghost var j := i;
      assert forall k :: 0 <= k < |blocks| ==> blocks[k] in blocks && Addrs(blocks)[k] == blocks[k].addr;
      while used[lfree] && lfree != HeapEnd()
        invariant j < |blocks| && lfree == blocks[j].addr && lfree in used
        invariant forall k :: 0 <= k < j ==> blocks[k].used
        decreases |blocks| - j
      {
        lfree := next[lfree];
        j := j + 1;
      }
      EndIsLast(Addrs(blocks), j);
      LowestIs(blocks, j);
    }

    /** The rest of `rt_smem_alloc`: split the block found, or use it whole. */
    method TakeBlock(at: nat, size: nat, ghost i: nat)
      requires Valid() && i < |blocks| && blocks[i].addr == at && Fits(blocks[i], size) && size >= 1
      modifies this, bytes
      ensures Valid() && View() == Carve(c, old(View()), i, size)
      ensures PayloadsKept(c.header, old(blocks), NOWHERE, old(bytes[..]), bytes[..])
    {
      hide LinksOk, FlagsOk, Inv, UsedSum, PayloadsKept, PayloadsClear, Clear, Carve;
      ghost var hs := CarveHeaders(c, blocks, i, size);
      CarveInv(c, View(), i, size);
      CarveReady(c, View(), used, i, size);
      CarveLowest(c, View(), i, size);
      HeaderRead(c, View(), next, prev, used, i);
      ghost var h' := Carve(c, View(), i, size);
      HeadersListed(c, View());
      HeadersListed(c, h');
      TakeLinks(at, size, i, h', hs);
      if at == lfree {
        AdvanceCursor(i);
      }
      KeptWhenClear(c.header, old(blocks), NOWHERE, hs, old(bytes[..]), bytes[..]);
    }

    method TakeLinks(at: nat, size: nat, ghost i: nat, ghost h': Heap, ghost hs: set<int>)
      requires Threaded() && i < |blocks| - 1 && blocks[i].addr == at && c.align >= 1
      requires at in next && next[at] == at + c.header + blocks[i].size && size <= blocks[i].size
      requires h' == Carve(c, View(), i, size) && CanCarve(c, View(), used, i, size, hs)
      requires HeadersFit(c, blocks, hs) && Addrs(blocks)[|blocks| - 1] == HeapEnd()
      modifies this`next, this`prev, this`used, this`usedSize, this`maxSize, this`blocks, bytes
      ensures Threaded() && View() == h'
      ensures forall k :: 0 <= k < bytes.Length && Clear(c.header, hs, k) ==> bytes[k] == old(bytes[k])
    {
      hide LinksOk, FlagsOk, Clear;
      assert Addrs(blocks)[i] == at && at in Addrs(blocks);
      if next[at] - (at + c.header) >= size + c.header + MinAligned(c) {
        SplitAt(at, at + c.header + size, Addrs(blocks), i, hs);
        Charge(size + c.header);
      } else {
        Charge(next[at] - at);
      }
      used := used[at := true];
      Touch(at, hs);
      blocks := h'.blocks;
    }

    /** `rt_smem_alloc`; the result is the offset of the block's header. */
    method Alloc(n: nat) returns (r: Option<nat>)
      requires Valid()
      modifies this, bytes
      ensures Valid() && (View(), r) == SmallMemSpec.Alloc(c, old(View()), n)
      ensures PayloadsKept(c.header, old(blocks), NOWHERE, old(bytes[..]), bytes[..])
    {
      hide LinksOk, FlagsOk, Inv, Carve;
      if n == 0 {
        return None;
      }
      var size := AlignUp(c.align, n);
      if size > c.total {
        return None;
      }
      if size < MinAligned(c) {
        size := MinAligned(c);
      }
      MinAlignedEnough(c);
      r := Search(size);
      if r.Some? {
        TakeBlock(r.value, size, FirstFit(blocks, size).value);
      }
    }

    // ------------------------------------------------------------------ free

    /** `rt_smem_free` of the block whose header is at `at`. */
    method Free(at: nat)
      requires Valid() && Live(blocks, at)
      modifies this, bytes
      ensures Valid() && View() == SmallMemSpec.Free(c, old(View()), IndexOf(old(blocks), at))
      ensures PayloadsKept(c.header, old(blocks), at, old(bytes[..]), bytes[..])
    {
      hide LinksOk, FlagsOk, Inv, UsedSum, PayloadsKept, PayloadsClear, Clear, Freed, FreedRing;
      ghost var i, hs := IndexOf(blocks, at), Headers(blocks);
      FreeInv(c, View(), i);
      FreeReady(c, View(), used, i);
      FreedLowest(c, View(), i);
      HeaderRead(c, View(), next, prev, used, i);
      FreeLinks(at, Addrs(blocks), i, hs);
      blocks := Freed(c.header, blocks, i);
      KeptWhenClear(c.header, old(blocks), at, hs, old(bytes[..]), bytes[..]);
    }

    method FreeLinks(at: nat, ghost l: seq<int>, ghost i: nat, ghost hs: set<int>)
      requires LinksOk(next, prev, l) && i < |l| - 1 && l[i] == at && l[|l| - 1] == HeapEnd() && Storable(hs, l)
      requires at in used && at in next && l[i + 1] in used && HeapEnd() in used && used[HeapEnd()]
      requires i > 0 ==> l[i - 1] in used
      modifies this`next, this`prev, this`used, this`lfree, this`usedSize, bytes
      ensures var left, right := i > 0 && !old(used)[l[i - 1]], !old(used)[l[i + 1]];
        && LinksOk(next, prev, FreedRing(l, i, left, right))
        && lfree == Cursor(if at < old(lfree) then at else old(lfree), at, i, l, left, right)
      ensures used == old(used)[at := false]
      ensures usedSize == old(usedSize) - (old(next)[at] - at)
      ensures forall k :: 0 <= k < bytes.Length && Clear(c.header, hs, k) ==> bytes[k] == old(bytes[k])
    {
      hide Clear, FreedRing;
      assert l[i] == at && MayStore(hs, at);
      used := used[at := false];
      Touch(at, hs);
      if at < lfree {
        lfree := at;
      }
      usedSize := usedSize - (next[at] - at);
      PlugHoles(at, l, i, hs);
    }

    // --------------------------------------------------------------- realloc

    /** The stores of an in-place cut: a new free header behind the block, merged with a
        free block behind that. */
    method CutLinks(at: int, rest: int, ghost l: seq<int>, ghost i: nat, ghost hs: set<int>)
      requires LinksOk(next, prev, l) && i < |l| - 1 && l[i] == at && rest !in l && l[|l| - 1] == HeapEnd()
      requires Storable(hs, l) && MayStore(hs, rest)
      requires at in used && used[at] && l[i + 1] in used && HeapEnd() in used && used[HeapEnd()]
      modifies this`next, this`prev, this`used, this`lfree, bytes
      ensures var right := !old(used)[l[i + 1]]; var f := if rest < old(lfree) then rest else old(lfree);
        && LinksOk(next, prev, CutRing(l, i, rest, right))
        && lfree == if right && f == l[i + 1] then rest else f
      ensures used == old(used)[rest := false]
      ensures forall k :: 0 <= k < bytes.Length && Clear(c.header, hs, k) ==> bytes[k] == old(bytes[k])
    {
      hide Clear, LinksOk;
      assert at in l && l[i + 1] in l && HeapEnd() in l;
      SplitAt(at, rest, l, i, hs);
      ghost var l' := Inserted(l, i, rest);
      assert l'[i] == at && l'[i + 1] == rest && l'[i + 2] == l[i + 1] && l'[|l'| - 1] == HeapEnd();
      if rest < lfree {
        lfree := rest;
      }
      PlugHoles(rest, l', i + 1, hs);
    }

    /** Cut a block down where it is. */
    method CutInPlace(at: nat, oldSize: nat, size: nat)
      requires Valid() && Live(blocks, at) && oldSize == blocks[IndexOf(blocks, at)].size
      requires 1 <= size && Cuts(c, oldSize, size)
      modifies this, bytes
      ensures Valid() && View() == Shrink(c, old(View()), IndexOf(old(blocks), at), size)
      ensures PayloadsKept(c.header, old(blocks), at, old(bytes[..]), bytes[..])
      ensures Moved(c.header, at, at, size, old(bytes[..]), bytes[..])
    {
      hide LinksOk, FlagsOk, Inv, UsedSum, PayloadsKept, PayloadsClear, PrefixClear, PrefixKept, Splice, AlignUp,
           ConfigOk, Rest, Pool, InPayload, Headers;
      hide Moved, Clear, CutRing, IndexOf, Lowest, AlignOk;
      ghost var i, rest := IndexOf(blocks, at), at + c.header + size;
      ghost var hs := Headers(blocks) + {rest};
      ShrinkInv(c, View(), i, size);
      CutReady(c, View(), used, i, size);
      ShrunkLowest(c, View(), i, size);
      usedSize := usedSize - (oldSize - size);
      CutLinks(at, at + c.header + size, Addrs(blocks), i, hs);
      blocks := Shrink(c, old(View()), i, size).blocks;
      KeptWhenClear(c.header, old(blocks), at, hs, old(bytes[..]), bytes[..]);
      PrefixWhenClear(c.header, at + c.header, at + c.header + size, hs, old(bytes[..]), bytes[..]);
      SamePrefix(c.header, at, size, old(bytes[..]), bytes[..]);
    }

    /** A new block, a copy, and the old block freed; nothing happens when there is no new
        block. */
    method MoveBlock(at: nat, oldSize: nat, size: nat) returns (r: Option<nat>)
      requires Valid() && Live(blocks, at) && blocks[IndexOf(blocks, at)].size == oldSize && size <= Wanted(c, size)
      modifies this, bytes
      ensures Valid()
      ensures var (h1, r1) := SmallMemSpec.Alloc(c, old(View()), size);
        && r == r1 && Live(h1.blocks, at)
        && View() == if r.Some? then SmallMemSpec.Free(c, h1, IndexOf(h1.blocks, at)) else h1
      ensures PayloadsKept(c.header, old(blocks), if r.Some? then at else NOWHERE, old(bytes[..]), bytes[..])
      ensures r.Some? ==>
        Moved(c.header, at, r.value, if oldSize < size then oldSize else size, old(bytes[..]), bytes[..])
    {
      hide Inv, Tiled, NoTwoFree, LinksOk, FlagsOk, PayloadsKept, Moved, KeepsOthers, IsFree, UsedSum, AlignUp,
           UsedMin, Chain, Addrs, HeapOk, Pool, MinAligned;
      hide Wanted, AlignOk, IndexOf, Lowest, End, Fits, SmallMemSpec.Alloc, SmallMemSpec.Free;
      T.TiledOk(c, View());
      LiveAfterAlloc(c, View(), size, at);
      AllocEffect(c, View(), size);
      r := Alloc(size);
      if r.Some? {
        var n := if oldSize < size then oldSize else size;
        LiveNotFree(c.header, Pool(c), old(blocks), r.value);
        T.TiledOk(c, View());
        CopyBlock(bytes, c.header, at, r.value, n, old(blocks), blocks, old(bytes[..]));
        ghost var copied, l1 := bytes[..], blocks;
        Free(at);
        MoveKept(c.header, Pool(c), old(blocks), l1, at, r.value, n, old(bytes[..]), copied, bytes[..]);
      }
    }

    /** `rt_smem_realloc`.  All other blocks in use keep their bytes; the block returned
        starts with the bytes of the old one, as many as fit; and a failed call leaves the
        old block's bytes alone, too, unless it freed the block. */
    method Realloc(ptr: Option<nat>, n: nat) returns (r: Option<nat>)
      requires Valid() && (ptr.Some? ==> Live(blocks, ptr.value))
      modifies this, bytes
      ensures Valid() && (View(), r) == SmallMemSpec.Realloc(c, old(View()), ptr, n)
      ensures var gone := ptr.Some? && (AlignUp(c.align, n) == 0 || r.Some?);
        PayloadsKept(c.header, old(blocks), if gone then ptr.value else NOWHERE, old(bytes[..]), bytes[..])
      ensures ptr.Some? && r.Some? ==>
        var oldSize, size := old(blocks)[IndexOf(old(blocks), ptr.value)].size, AlignUp(c.align, n);
        Moved(c.header, ptr.value, r.value, if oldSize < size then oldSize else size, old(bytes[..]), bytes[..])
    {
      hide LinksOk, FlagsOk, Inv, PayloadsKept, Moved, SmallMemSpec.Alloc, SmallMemSpec.Free, Shrink;
      var size := AlignUp(c.align, n);
      NothingStored(c.header, blocks, bytes[..]);
      if size > c.total {
        return None;
      } else if size == 0 {
        if ptr.Some? {
          Free(ptr.value);
        }
        return None;
      }
      if ptr.None? {
        r := Alloc(size);
        return;
      }
      r := Resize(ptr.value, n, size);
    }

    method Resize(at: nat, n: nat, size: nat) returns (r: Option<nat>)
      requires Valid() && Live(blocks, at) && size == AlignUp(c.align, n) && 0 < size <= c.total
      modifies this, bytes
      ensures Valid() && (View(), r) == SmallMemSpec.Realloc(c, old(View()), Some(at), n)
      ensures PayloadsKept(c.header, old(blocks), if r.Some? then at else NOWHERE, old(bytes[..]), bytes[..])
      ensures r.Some? ==>
        var oldSize := old(blocks)[IndexOf(old(blocks), at)].size;
        Moved(c.header, at, r.value, if oldSize < size then oldSize else size, old(bytes[..]), bytes[..])
    {
      hide LinksOk, FlagsOk, Inv, PayloadsKept, Moved, SmallMemSpec.Alloc, SmallMemSpec.Free, Shrink;
      ghost var i := IndexOf(blocks, at);
      T.WantedTwice(c, n);
      T.BlockInPool(c, View(), i);
      HeaderRead(c, View(), next, prev, used, i);
      NothingStored(c.header, blocks, bytes[..]);
      var oldSize := next[at] - at - c.header;
      if oldSize == size {
        SamePlace(c.header, old(blocks), i, size, bytes[..], bytes[..]);
        return Some(at);
      }
      if size + c.header + MIN_SIZE < oldSize {
        CutInPlace(at, oldSize, size);
        return Some(at);
      }
      LiveAfterAlloc(c, View(), size, at);
      AllocEffect(c, View(), size);
      r := MoveBlock(at, oldSize, size);
    }
  }

  /** Where the cursor goes when the headers it may be on are merged away. */
  ghost function Cursor(lfree: int, mem: int, j: nat, l: seq<int>, left: bool, right: bool): int
    requires j + 1 < |l| && (left ==> j > 0)
  {
    var f := if right && lfree == l[j + 1] then mem else lfree;
    if left && f == mem then l[j - 1] else f
  }

  // ------------------------------------------------------------------ links

  lemma LinksInsert(next: Links, prev: Links, l: seq<int>, i: nat, x: int)
    requires LinksOk(next, prev, l) && i < |l| - 1 && x !in l
    ensures var next', prev1 := next[x := l[i + 1]][l[i] := x], prev[x := l[i]];
      LinksOk(next', if i + 1 == |l| - 1 then prev1 else prev1[l[i + 1] := x], Inserted(l, i, x))
  {
    var next', prev1 := next[x := l[i + 1]][l[i] := x], prev[x := l[i]];
    var prev' := if i + 1 == |l| - 1 then prev1 else prev1[l[i + 1] := x];
    var r := Inserted(l, i, x);
    UniqueInserted(l, i, x);
    assert forall k :: 0 <= k < |r| ==> r[k] == if k <= i then l[k] else if k == i + 1 then x else l[k - 1];
    forall k | 0 <= k < |r| - 1
      ensures r[k] in next' && next'[r[k]] == r[k + 1]
      ensures r[k] in prev' && prev'[r[k]] == r[if k == 0 then 0 else k - 1]
    {
      if k > i + 1 { assert next[l[k - 1]] == l[k - 1 + 1]; }
    }
  }

  lemma LinksRemove(next: Links, prev: Links, l: seq<int>, i: nat)
    requires LinksOk(next, prev, l) && i + 2 < |l|
    ensures LinksOk(next[l[i] := l[i + 2]], prev[l[i + 2] := l[i]], Removed(l, i + 1))
  {
    hide NextOk, PrevOk;
    UniqueRemoved(l, i + 1);
    NextRemoved(next, l, i);
    PrevRemoved(prev, l, i);
  }

  lemma RemovedAt(l: seq<int>, i: nat, k: nat)
    requires i < |l| && k < |l| - 1
    ensures |Removed(l, i)| == |l| - 1 && Removed(l, i)[k] == l[if k < i then k else k + 1]
  {
  }

  lemma Different(l: seq<int>, i: nat, k: nat)
    requires Unique(l) && i < |l| && k < |l|
    ensures l[i] == l[k] <==> i == k
  {
  }

  lemma NextRemoved(next: Links, l: seq<int>, i: nat)
    requires NextOk(next, l) && Unique(l) && i + 2 < |l|
    ensures NextOk(next[l[i] := l[i + 2]], Removed(l, i + 1))
  {
    hide Removed, Unique;
    var next', r := next[l[i] := l[i + 2]], Removed(l, i + 1);
    RemovedAt(l, i + 1, |l| - 2);
    Different(l, i, |l| - 1);
    forall k | 0 <= k < |r| - 1 ensures r[k] in next' && next'[r[k]] == r[k + 1] {
      RemovedAt(l, i + 1, k);
      RemovedAt(l, i + 1, k + 1);
      var j := if k <= i then k else k + 1;
      Different(l, i, j);
      assert next[l[j]] == l[j + 1];
    }
  }

  lemma PrevRemoved(prev: Links, l: seq<int>, i: nat)
    requires PrevOk(prev, l) && Unique(l) && i + 2 < |l|
    ensures PrevOk(prev[l[i + 2] := l[i]], Removed(l, i + 1))
  {
    hide Removed, Unique;
    var prev', r := prev[l[i + 2] := l[i]], Removed(l, i + 1);
    RemovedAt(l, i + 1, 0);
    forall k | 0 <= k < |r| - 1 ensures r[k] in prev' && prev'[r[k]] == r[if k == 0 then 0 else k - 1] {
      RemovedAt(l, i + 1, k);
      RemovedAt(l, i + 1, if k == 0 then 0 else k - 1);
      var j := if k <= i then k else k + 1;
      Different(l, i + 2, j);
      assert prev[l[j]] == l[if j == 0 then 0 else j - 1];
    }
  }

  lemma RemovedBehind(l: seq<int>, j: nat)
    requires j + 1 < |l|
    ensures var r := Removed(l, j + 1);
      |r| == |l| - 1 && (forall k :: 0 <= k <= j ==> r[k] == l[k]) && forall x :: x in r ==> x in l
  {
  }

  lemma RemovedTwice(l: seq<int>, j: nat)
    requires j + 1 < |l|
    ensures FreedRing(l, j, false, false) == l && FreedRing(l, j, false, true) == Removed(l, j + 1)
    ensures j > 0 ==> FreedRing(l, j, true, false) == Removed(l, j)
    ensures j > 0 ==> FreedRing(l, j, true, true) == Removed(Removed(l, j + 1), j)
  {
  }

  /** The only header at the tail's offset is the tail's. */
  lemma EndIsLast(l: seq<int>, j: nat)
    requires Unique(l) && j < |l|
    ensures l[j] == l[|l| - 1] <==> j == |l| - 1
  {
  }

  // ---------------------------------------------------------------- reading

  /** What the fields of the header at index i say. */
  lemma HeaderRead(c: Config, h: Heap, next: Links, prev: Links, used: map<int, bool>, i: nat)
    requires HeapOk(c, h) && LinksOk(next, prev, Addrs(h.blocks)) && FlagsOk(used, h.blocks)
    requires i < |h.blocks| && (i == |h.blocks| - 1 ==> h.blocks[i].addr < c.total + c.header)
    ensures i < |h.blocks| - 1
    ensures var at := h.blocks[i].addr;
      && at in used && used[at] == h.blocks[i].used
      && at in next && next[at] == h.blocks[i + 1].addr == End(c.header, h.blocks[i])
  {
    hide UsedSum, NoTwoFree;
    assert h.blocks[i] in h.blocks;
    assert Addrs(h.blocks)[i] == h.blocks[i].addr;
    if i < |h.blocks| - 1 { assert Addrs(h.blocks)[i + 1] == h.blocks[i + 1].addr; }
  }

  /** Blocks too close to the end do not fit. */
  lemma NothingBeyond(c: Config, h: Heap, j: nat, size: nat)
    requires HeapOk(c, h) && j < |h.blocks| && h.blocks[j].addr > c.total - size
    ensures forall k :: j <= k < |h.blocks| ==> !Fits(h.blocks[k], size)
  {
    forall k | j <= k < |h.blocks| ensures !Fits(h.blocks[k], size) {
      if j < k { AddrsGrow(c.header, h.blocks, j, k); }
      T.BlockBounds(c, h, k);
    }
  }

  // ------------------------------------------------------------- the cursor

  /** Carving a block other than the lowest leaves the lowest where it is. */
  lemma CarveLowest(c: Config, h: Heap, i: nat, size: nat)
    requires HeapOk(c, h) && i < |h.blocks| && Fits(h.blocks[i], size) && size >= 1
    ensures var l' := Carve(c, h, i, size).blocks;
      && Lowest(h.blocks) <= i < |l'| && l'[i].addr == h.blocks[i].addr
      && (h.blocks[i].addr == h.blocks[Lowest(h.blocks)].addr ==> forall k :: 0 <= k < i ==> l'[k].used)
      && (h.blocks[i].addr != h.blocks[Lowest(h.blocks)].addr ==>
            l'[Lowest(l')].addr == h.blocks[Lowest(h.blocks)].addr)
  {
    var l', f := Carve(c, h, i, size).blocks, Lowest(h.blocks);
    T.TiledOk(c, h);
    hide Inv;
    CarveValue(c, h, i, size);
    if f == i {
    } else {
      AddrsGrow(c.header, h.blocks, f, i);
      LowestIs(l', f);
    }
  }

  lemma CarveValue(c: Config, h: Heap, i: nat, size: nat)
    requires c.align >= 1 && i < |h.blocks| && size <= h.blocks[i].size
    ensures var l' := Carve(c, h, i, size).blocks;
      |l'| >= |h.blocks| && l'[..i] == h.blocks[..i] && l'[i].addr == h.blocks[i].addr
  {
  }

  /** The lowest free block after a free. */
  lemma FreedLowest(c: Config, h: Heap, i: nat)
    requires HeapOk(c, h) && i < |h.blocks| - 1 && h.blocks[i].used
    ensures var l, l' := h.blocks, Freed(c.header, h.blocks, i); var at, f := l[i].addr, l[Lowest(l)].addr;
      && l' != []
      && l'[Lowest(l')].addr ==
           Cursor(if at < f then at else f, at, i, Addrs(l), MergesLeft(l, i), MergesRight(l, i))
  {
    var l, l', lo := h.blocks, Freed(c.header, h.blocks, i), FreeLo(h.blocks, i);
    var f := Lowest(l);
    T.TiledOk(c, h);
    hide Inv;
    SpliceAt(l, lo, [Merged(c.header, l, i)], FreeHi(l, i), lo);
    AddrsGrow(c.header, l, i, i + 1);
    assert Addrs(l)[i + 1] == l[i + 1].addr;
    if MergesLeft(l, i) {
      AddrsGrow(c.header, l, i - 1, i);
      assert f <= i - 1;
    }
    if f < lo {
      AddrsGrow(c.header, l, f, i);
      if f < i - 1 { AddrsGrow(c.header, l, f, i - 1); }
      LowestIs(l', f);
    } else {
      assert f != i;
      if i < f { AddrsGrow(c.header, l, i, f); }
      LowestIs(l', lo);
    }
  }

  // ------------------------------------------------ what the stores need

  /** Every header of the list lies in the pool and may be stored to. */
  ghost predicate HeadersFit(c: Config, l: seq<Block>, hs: set<int>) {
    forall a :: a in Addrs(l) ==> a in hs && 0 <= a && a + c.header <= Pool(c)
  }

  lemma HeadersListed(c: Config, h: Heap)
    requires HeapOk(c, h)
    ensures HeadersFit(c, h.blocks, Headers(h.blocks))
    ensures forall b, k :: b in h.blocks && InPayload(c.header, b, k) ==> Clear(c.header, Headers(h.blocks), k)
    ensures var l := h.blocks; l[|l| - 1].addr == c.total + c.header && Addrs(l)[|l| - 1] == c.total + c.header
  {
    HeadersInPool(c.header, Pool(c), h.blocks);
    forall a | a in Addrs(h.blocks) ensures a in Headers(h.blocks) {
      var i :| 0 <= i < |h.blocks| && Addrs(h.blocks)[i] == a;
      assert h.blocks[i] in h.blocks;
    }
  }

  ghost function CarveHeaders(c: Config, l: seq<Block>, i: nat, size: nat): set<int>
    requires c.align >= 1 && i < |l|
  {
    if Splits(c, l[i].size, size) then Headers(l) + {l[i].addr + c.header + size} else Headers(l)
  }

  ghost predicate CanCarve(c: Config, h: Heap, used: map<int, bool>, i: nat, size: nat, hs: set<int>)
    requires c.align >= 1 && i < |h.blocks| && size <= h.blocks[i].size
  {
    var at := h.blocks[i].addr;
    var rest := at + c.header + size;
    var l' := Carve(c, h, i, size).blocks;
    if Splits(c, h.blocks[i].size, size) then
      && rest in hs && rest !in Addrs(h.blocks) && rest + c.header <= Pool(c)
      && Addrs(l') == Inserted(Addrs(h.blocks), i, rest)
      && FlagsOk(used[rest := false][at := true], l')
    else
      Addrs(l') == Addrs(h.blocks) && FlagsOk(used[at := true], l')
  }

  lemma CarveReady(c: Config, h: Heap, used: map<int, bool>, i: nat, size: nat)
    requires HeapOk(c, h) && FlagsOk(used, h.blocks) && i < |h.blocks| && Fits(h.blocks[i], size) && size >= 1
    ensures var hs := CarveHeaders(c, h.blocks, i, size);
      && i < |h.blocks| - 1
      && CanCarve(c, h, used, i, size, hs) && HeadersFit(c, h.blocks, hs)
      && PayloadsClear(c.header, h.blocks, NOWHERE, hs)
  {
    hide FlagsOk, UsedSum, NoTwoFree, Addrs, HasAddr, Inserted, Max, UsedMin, InHeader, Chain, Elsewhere;
    var b := h.blocks[i];
    HeadersListed(c, h);
    assert h.blocks[i..i + 1] == [b] && b in [b];
    AddrElsewhere(c.header, h.blocks, i, i + 1, b.addr);
    if Splits(c, b.size, size) {
      var front, rest := Block(b.addr, size, true), Block(b.addr + c.header + size, b.size - size - c.header, false);
      NewHeader(c.header, Pool(c), h.blocks, i, rest.addr);
      NotListed(h.blocks, rest.addr);
      AddrsSplit(h.blocks, i, front, rest);
      FlagsTwo(used, h.blocks, i, i + 1, front, rest);
    } else {
      AddrsSame(h.blocks, i, b.(used := true));
      FlagsOne(used, h.blocks, i, i + 1, b.(used := true));
    }
  }

  lemma NotListed(l: seq<Block>, a: nat)
    requires forall b :: b in l ==> b.addr != a
    ensures a !in Addrs(l)
  {
    forall i | 0 <= i < |l| ensures Addrs(l)[i] != a { assert l[i] in l; }
  }

  /** Freeing stores to existing headers only. */
  lemma FreeReady(c: Config, h: Heap, used: map<int, bool>, i: nat)
    requires HeapOk(c, h) && FlagsOk(used, h.blocks) && i < |h.blocks| - 1 && h.blocks[i].used
    ensures var l, hs := h.blocks, Headers(h.blocks);
      && HeadersFit(c, l, hs) && PayloadsClear(c.header, l, l[i].addr, hs)
      && Addrs(l)[|l| - 1] == c.total + c.header && NeighboursRead(c, l, used, i)
      && Addrs(Freed(c.header, l, i)) == FreedRing(Addrs(l), i, MergesLeft(l, i), MergesRight(l, i))
      && FlagsOk(used[l[i].addr := false], Freed(c.header, l, i))
  {
    hide UsedSum, NoTwoFree, Freed;
    HeadersListed(c, h);
    MergedRing(c.header, h.blocks, i);
    MergedFlags(c.header, h.blocks, used, i);
    NeighboursAre(c, h, used, i);
  }

  /** The flags a free looks at. */
  ghost predicate NeighboursRead(c: Config, l: seq<Block>, used: map<int, bool>, i: nat)
    requires i + 1 < |l|
  {
    && c.total + c.header in used && used[c.total + c.header]
    && l[i].addr in used
    && l[i + 1].addr in used && used[l[i + 1].addr] == l[i + 1].used
    && (i > 0 ==> l[i - 1].addr in used && used[l[i - 1].addr] == l[i - 1].used)
  }

  /** The lowest free block after a cut. */
  lemma ShrunkLowest(c: Config, h: Heap, i: nat, size: nat)
    requires HeapOk(c, h) && i < |h.blocks| - 1 && h.blocks[i].used && 1 <= size && Cuts(c, h.blocks[i].size, size)
    ensures var l, l', rest := h.blocks, Shrink(c, h, i, size).blocks, h.blocks[i].addr + c.header + size;
      var f := l[Lowest(l)].addr;
      && l' != [] && l'[Lowest(l')].addr == (if rest < f then rest else f)
      && rest < l[i + 1].addr
  {
    var l, l', rest := h.blocks, Shrink(c, h, i, size).blocks, h.blocks[i].addr + c.header + size;
    var f, mid := Lowest(l), [l[i].(size := size), Rest(c, l, i, size)];
    var hi := if l[i + 1].used then i + 1 else i + 2;
    T.TiledOk(c, h);
    hide Inv;
    assert l[i + 1].addr == End(c.header, l[i]);
    SpliceAt(l, i, mid, hi, i);
    SpliceAt(l, i, mid, hi, i + 1);
    if f < i {
      AddrsGrow(c.header, l, f, i);
      LowestIs(l', f);
    } else {
      if i + 1 < f { AddrsGrow(c.header, l, i + 1, f); }
      LowestIs(l', i + 1);
    }
  }

  /** What the stores of a cut need, and what they leave alone: every other payload in use,
      and the part of this one that stays. */
  lemma CutReady(c: Config, h: Heap, used: map<int, bool>, i: nat, size: nat)
    requires HeapOk(c, h) && FlagsOk(used, h.blocks) && i < |h.blocks| - 1 && h.blocks[i].used
    requires 1 <= size && Cuts(c, h.blocks[i].size, size)
    ensures var l, at := h.blocks, h.blocks[i].addr; var rest := at + c.header + size; var hs := Headers(l) + {rest};
      && HeadersFit(c, l, hs) && rest !in Addrs(l) && rest + c.header <= Pool(c)
      && PayloadsClear(c.header, l, at, hs) && PrefixClear(c.header, at + c.header, rest, hs)
      && Addrs(l)[|l| - 1] == c.total + c.header && NeighboursRead(c, l, used, i) && used[at]
      && Addrs(Shrink(c, h, i, size).blocks) == CutRing(Addrs(l), i, rest, !l[i + 1].used)
      && FlagsOk(used[rest := false], Shrink(c, h, i, size).blocks)
  {
    hide UsedSum, NoTwoFree, FlagsOk, Splice, Addrs, UsedMin, Headers;
    var l, at := h.blocks, h.blocks[i].addr;
    var b, rest, hi := l[i].(size := size), Rest(c, l, i, size), if l[i + 1].used then i + 1 else i + 2;
    HeadersListed(c, h);
    NewHeader(c.header, Pool(c), l, i, rest.addr);
    NotListed(l, rest.addr);
    CutClear(c, h, i, size);
    CutRingValue(l, i, b, rest, !l[i + 1].used);
    ElsewhereWider(l, i, i + 1, i, hi, rest.addr);
    FlagsRest(used, l, i, hi, b, rest);
    NeighboursAre(c, h, used, i);
  }

  lemma NeighboursAre(c: Config, h: Heap, used: map<int, bool>, i: nat)
    requires HeapOk(c, h) && FlagsOk(used, h.blocks) && i < |h.blocks| - 1
    ensures NeighboursRead(c, h.blocks, used, i) && used[h.blocks[i].addr] == h.blocks[i].used
  {
    var l := h.blocks;
    assert l[|l| - 1] in l && l[i] in l && l[i + 1] in l;
    assert i > 0 ==> l[i - 1] in l;
  }

  lemma CutClear(c: Config, h: Heap, i: nat, size: nat)
    requires HeapOk(c, h) && i < |h.blocks| - 1 && h.blocks[i].used && Cuts(c, h.blocks[i].size, size)
    ensures var l, at := h.blocks, h.blocks[i].addr; var rest := at + c.header + size; var hs := Headers(l) + {rest};
      PayloadsClear(c.header, l, at, hs) && PrefixClear(c.header, at + c.header, rest, hs)
  {
    hide UsedSum, NoTwoFree;
    var l, at := h.blocks, h.blocks[i].addr;
    var rest := at + c.header + size;
    HeadersListed(c, h);
    NewHeader(c.header, Pool(c), l, i, rest);
    forall k | at + c.header <= k < rest ensures Clear(c.header, Headers(l) + {rest}, k) {
      assert l[i] in l && InPayload(c.header, l[i], k);
    }
  }
}
