/** The memheap object (rt-thread/src/memheap.c): a circular list of all blocks, a circular
    list of the free ones, and the bytes of the pool.  A header is its fields in the link
    and flag maps below, keyed by the header's address; storing to any of them overwrites
    bytes of that header, here with arbitrary ones.  Each call does to the heap what
    `MemHeapSpec` says of it. */
module MemHeap {
  import opened Wrappers
  import opened Words
  import opened Alignment
  import opened HeapBlocks
  import opened HeapBytes
  import opened HeapEffects
  import opened HeapLinks
  import opened Lists
  import opened MemHeapSpec
  import opened Rings
  import T = MemHeapTheorems

  /** The address of the free list header, which lies outside the pool. */
  const HEAD := -1
  const NULL := -2

  class MemHeap {
    const c: Config
    const bytes: array<bv8>
    var next: Links
    var prev: Links
    var nextFree: Links
    var prevFree: Links
    var used: map<int, bool>
    var availableSize: int
    var maxUsedSize: int
    ghost var blocks: seq<Block>
    ghost var frees: seq<nat>

    ghost function View(): Heap
      reads this
    {
      Heap(blocks, frees, availableSize, maxUsedSize)
    }

    ghost predicate Threaded()
      reads this
    {
      && Ring(next, prev, Addrs(blocks))
      && Ring(nextFree, prevFree, [HEAD] + frees)
      && FlagsOk(used, blocks)
      && bytes.Length == c.pool
    }

    ghost predicate Valid()
      reads this
    {
      Threaded() && T.HeapOk(c, View()) && AlignOk(c)
    }

    /** `rt_memheap_init`: one free block over the whole pool, and a used tail that keeps
        blocks from merging around the end. */
    constructor (c: Config)
      requires ConfigOk(c) && AlignOk(c)
      ensures this.c == c && Valid() && View() == T.Init(c)
    {
      this.c := c;
      bytes := new bv8[c.pool];
      var tail := c.pool - c.header;
      availableSize := c.pool - 2 * c.header;
      maxUsedSize := 2 * c.header;
      next, prev := map[0 := tail, tail := 0], map[0 := tail, tail := 0];
      nextFree := map[HEAD := 0, 0 := HEAD, tail := NULL];
      prevFree := map[HEAD := 0, 0 := HEAD, tail := NULL];
      used := map[0 := false, tail := true];
      blocks, frees := T.Init(c).blocks, T.Init(c).frees;
      T.InitInv(c);
    }

    // ------------------------------------------------------------- the lists

    /** A store to a field of the header at a. */
    method Touch(a: int, ghost hs: set<int>)
      requires MayStore(hs, a)
      modifies bytes
      ensures forall k :: 0 <= k < bytes.Length && Clear(c.header, hs, k) ==> bytes[k] == old(bytes[k])
    {
      if a != HEAD {
        StoreHeader(bytes, c.header, a);
      }
    }

    /** Headers that may be stored to: HEAD, or in hs and inside the pool. */
    ghost predicate MayStore(hs: set<int>, a: int) {
      a != HEAD ==> a in hs && 0 <= a && a + c.header <= bytes.Length
    }

    ghost predicate Storable(hs: set<int>, l: seq<int>) {
      forall a :: a in l ==> MayStore(hs, a)
    }

    /** Put x behind a in the block list. */
    method LinkBlock(a: int, x: int, ghost l: seq<int>, ghost i: nat, ghost hs: set<int>)
      requires Ring(next, prev, l) && i < |l| && l[i] == a && x !in l && Storable(hs, l) && MayStore(hs, x)
      modifies this`next, this`prev, bytes
      ensures Ring(next, prev, Inserted(l, i, x))
      ensures forall k :: 0 <= k < bytes.Length && Clear(c.header, hs, k) ==> bytes[k] == old(bytes[k])
    {
      RingInsert(next, prev, l, i, x);
      RingNext(next, prev, l, i);
      var b := next[a];
      prev := prev[x := a];
      Touch(x, hs);
      next := next[x := b];
      Touch(x, hs);
      prev := prev[b := x];
      Touch(b, hs);
      next := next[a := x];
      Touch(a, hs);
    }

    /** Take x out of the block list. */
    method UnlinkBlock(x: int, ghost l: seq<int>, ghost i: nat, ghost hs: set<int>)
      requires Ring(next, prev, l) && i < |l| && |l| >= 2 && l[i] == x && Storable(hs, l)
      modifies this`next, this`prev, bytes
      ensures Ring(next, prev, Removed(l, i))
      ensures forall k :: 0 <= k < bytes.Length && Clear(c.header, hs, k) ==> bytes[k] == old(bytes[k])
    {
      RingRemove(next, prev, l, i);
      RingNext(next, prev, l, i);
      var a, b := prev[x], next[x];
      prev := prev[b := a];
      Touch(b, hs);
      next := next[a := b];
      Touch(a, hs);
    }

    /** Insert x at the head of the free list. */
    method PushFree(x: nat, ghost l: seq<nat>, ghost hs: set<int>)
      requires Ring(nextFree, prevFree, [HEAD] + l) && x !in l && Storable(hs, [HEAD] + l) && MayStore(hs, x)
      modifies this`nextFree, this`prevFree, bytes
      ensures Ring(nextFree, prevFree, [HEAD] + ([x] + l))
      ensures forall k :: 0 <= k < bytes.Length && Clear(c.header, hs, k) ==> bytes[k] == old(bytes[k])
    {
      RingInsert(nextFree, prevFree, [HEAD] + l, 0, x);
      RingNext(nextFree, prevFree, [HEAD] + l, 0);
      assert Inserted([HEAD] + l, 0, x) == [HEAD] + ([x] + l);
      var n := nextFree[HEAD];
      nextFree := nextFree[x := n];
      Touch(x, hs);
      prevFree := prevFree[x := HEAD];
      Touch(x, hs);
      prevFree := prevFree[n := x];
      Touch(n, hs);
      nextFree := nextFree[HEAD := x];
      Touch(HEAD, hs);
    }

    /** Take x out of the free list. */
    method RemoveFree(x: nat, ghost l: seq<nat>, ghost hs: set<int>)
      requires Ring(nextFree, prevFree, [HEAD] + l) && x in l && Distinct(l) && Storable(hs, [HEAD] + l)
      modifies this`nextFree, this`prevFree, bytes
      ensures Ring(nextFree, prevFree, [HEAD] + Without(l, x))
      ensures forall k :: 0 <= k < bytes.Length && Clear(c.header, hs, k) ==> bytes[k] == old(bytes[k])
    {
      ghost var j :| 0 <= j < |l| && l[j] == x;
      HeadRemoved(HEAD, l, j);
      RingRemove(nextFree, prevFree, [HEAD] + l, j + 1);
      RingNext(nextFree, prevFree, [HEAD] + l, j + 1);
      var a, b := prevFree[x], nextFree[x];
      prevFree := prevFree[b := a];
      Touch(b, hs);
      nextFree := nextFree[a := b];
      Touch(a, hs);
    }

    /** The NULL an allocated block's free links are set to. */
    method ClearFreeLinks(x: nat, ghost l: seq<nat>, ghost hs: set<int>)
      requires Ring(nextFree, prevFree, [HEAD] + l) && x !in l && MayStore(hs, x)
      modifies this`nextFree, this`prevFree, bytes
      ensures Ring(nextFree, prevFree, [HEAD] + l)
      ensures forall k :: 0 <= k < bytes.Length && Clear(c.header, hs, k) ==> bytes[k] == old(bytes[k])
    {
      RingFrame(nextFree, prevFree, nextFree[x := NULL], prevFree[x := NULL], [HEAD] + l);
      nextFree := nextFree[x := NULL];
      Touch(x, hs);
      prevFree := prevFree[x := NULL];
      Touch(x, hs);
    }

    method Mark(x: int, flag: bool, ghost hs: set<int>)
      requires MayStore(hs, x)
      modifies this`used, bytes
      ensures used == old(used)[x := flag]
      ensures forall k :: 0 <= k < bytes.Length && Clear(c.header, hs, k) ==> bytes[k] == old(bytes[k])
    {
      used := used[x := flag];
      Touch(x, hs);
    }

    // ----------------------------------------------------------------- alloc

    /** The search of `rt_memheap_alloc`: the first block of the free list that is big
        enough. */
    method Search(size: nat) returns (r: Option<nat>, freeSize: nat)
      requires Ring(next, prev, Addrs(blocks)) && Ring(nextFree, prevFree, [HEAD] + frees)
      requires size > 0 && FreesHere(View())
      requires forall a :: a in frees ==> IndexOf(blocks, a) < |blocks| - 1
      requires forall b :: 0 <= b < |blocks| - 1 ==> blocks[b + 1].addr == End(c.header, blocks[b])
      ensures r == FirstFit(blocks, frees, size)
      ensures r.Some? ==> freeSize == blocks[IndexOf(blocks, r.value)].size
    {
      hide Linked, FirstFit, Ring, FreesHere;
      ghost var ring := [HEAD] + frees;
      freeSize := 0;
      RingNext(nextFree, prevFree, ring, 0);
      var at := nextFree[HEAD];
      ghost var j := 0;
      assert frees[0..] == frees;
      while at != HEAD && freeSize < size
        invariant j <= |frees| && at == (if j < |frees| then frees[j] else HEAD)
        invariant freeSize < size ==> FirstFit(blocks, frees, size) == FirstFit(blocks, frees[j..], size)
        invariant freeSize >= size ==>
          j < |frees| && freeSize == blocks[IndexOf(blocks, at)].size && FirstFit(blocks, frees, size) == Some(at)
        decreases |frees| - j, if freeSize < size then 1 else 0
      {
        FirstFitNext(blocks, frees, j, size);
        BlockSize(c, blocks, next, prev, IndexOf(blocks, at));
        freeSize := next[at] - at - c.header;
        if freeSize < size {
          RingNext(nextFree, prevFree, ring, j + 1);
          at := nextFree[at];
          j := j + 1;
        }
      }
      r := if freeSize >= size then Some(at) else None;
    }

    /** Replace x by y, which goes to the head of the free list. */
    method ReplaceFree(x: nat, y: nat, ghost l: seq<nat>, ghost hs: set<int>)
      requires Ring(nextFree, prevFree, [HEAD] + l) && x in l && y !in l && Distinct(l)
      requires Storable(hs, [HEAD] + l) && MayStore(hs, y)
      modifies this`nextFree, this`prevFree, bytes
      ensures Ring(nextFree, prevFree, [HEAD] + ([y] + Without(l, x)))
      ensures forall k :: 0 <= k < bytes.Length && Clear(c.header, hs, k) ==> bytes[k] == old(bytes[k])
    {
      WithoutMembers(l, x);
      RemoveFree(x, l, hs);
      ClearFreeLinks(x, Without(l, x), hs);
      PushFree(y, Without(l, x), hs);
    }

    /** Take n bytes off the available size and keep the high-water mark. */
    method Charge(n: int)
      modifies this`availableSize, this`maxUsedSize
      ensures availableSize == old(availableSize) - n
      ensures maxUsedSize == Max(old(maxUsedSize), c.pool - availableSize)
    {
      availableSize := availableSize - n;
      if c.pool - availableSize > maxUsedSize {
        maxUsedSize := c.pool - availableSize;
      }
    }

    /** The stores that split the block at index i of the block list: a new free header
        behind it, the block off the free list, the new one on, and the block marked used. */
    method SplitLinks(at: nat, rest: nat, ghost l: seq<int>, ghost i: nat, ghost fs: seq<nat>, ghost hs: set<int>)
      requires Ring(next, prev, l) && i < |l| && l[i] == at && rest !in l && Storable(hs, l) && MayStore(hs, rest)
      requires Ring(nextFree, prevFree, [HEAD] + fs) && at in fs && rest !in fs && Distinct(fs)
      requires Storable(hs, [HEAD] + fs)
      modifies this`next, this`prev, this`nextFree, this`prevFree, this`used, bytes
      ensures Ring(next, prev, Inserted(l, i, rest))
      ensures Ring(nextFree, prevFree, [HEAD] + ([rest] + Without(fs, at)))
      ensures used == old(used)[rest := false][at := true]
      ensures forall k :: 0 <= k < bytes.Length && Clear(c.header, hs, k) ==> bytes[k] == old(bytes[k])
    {
      Mark(rest, false, hs);
      LinkBlock(at, rest, l, i, hs);
      ReplaceFree(at, rest, fs, hs);
      assert at in l;
      Mark(at, true, hs);
    }

    /** Cut a free block in two: the front becomes used, the rest goes to the head of the
        free list. */
    method SplitBlock(at: nat, rest: nat, size: nat, ghost i: nat, ghost h: Heap, ghost hs: set<int>)
      requires Threaded() && i < |blocks| && blocks[i].addr == at && rest !in Addrs(blocks) && rest !in frees
      requires at in frees && Distinct(frees)
      requires Storable(hs, Addrs(blocks)) && Storable(hs, [HEAD] + frees) && MayStore(hs, rest)
      requires Addrs(h.blocks) == Inserted(Addrs(blocks), i, rest) && h.frees == [rest] + Without(frees, at)
      requires FlagsOk(used[rest := false][at := true], h.blocks)
      requires h.available == availableSize - (size + c.header) && h.maxUsed == Max(maxUsedSize, c.pool - h.available)
      modifies this, bytes
      ensures Threaded() && View() == h
      ensures forall k :: 0 <= k < bytes.Length && Clear(c.header, hs, k) ==> bytes[k] == old(bytes[k])
    {
      SplitLinks(at, rest, Addrs(blocks), i, frees, hs);
      Charge(size + c.header);
      blocks, frees := h.blocks, h.frees;
    }

    method UseLinks(at: nat, ghost fs: seq<nat>, ghost hs: set<int>)
      requires Ring(nextFree, prevFree, [HEAD] + fs) && at in fs && Distinct(fs) && Storable(hs, [HEAD] + fs)
      modifies this`nextFree, this`prevFree, this`used, bytes
      ensures Ring(nextFree, prevFree, [HEAD] + Without(fs, at)) && used == old(used)[at := true]
      ensures forall k :: 0 <= k < bytes.Length && Clear(c.header, hs, k) ==> bytes[k] == old(bytes[k])
    {
      assert at in [HEAD] + fs;
      WithoutMembers(fs, at);
      RemoveFree(at, fs, hs);
      ClearFreeLinks(at, Without(fs, at), hs);
      Mark(at, true, hs);
    }

    /** Use a free block whole. */
    method UseWhole(at: nat, freeSize: nat, ghost h: Heap, ghost hs: set<int>)
      requires Threaded() && at in frees && Distinct(frees) && Storable(hs, [HEAD] + frees)
      requires Addrs(h.blocks) == Addrs(blocks) && h.frees == Without(frees, at)
      requires FlagsOk(used[at := true], h.blocks)
      requires h.available == availableSize - freeSize && h.maxUsed == Max(maxUsedSize, c.pool - h.available)
      modifies this, bytes
      ensures Threaded() && View() == h
      ensures forall k :: 0 <= k < bytes.Length && Clear(c.header, hs, k) ==> bytes[k] == old(bytes[k])
    {
      Charge(freeSize);
      UseLinks(at, frees, hs);
      blocks, frees := h.blocks, h.frees;
    }

    /** The rest of `rt_memheap_alloc`: split the block found, or use it whole. */
    method TakeBlock(at: nat, freeSize: nat, size: nat, ghost i: nat)
      requires Valid() && i < |blocks| && blocks[i] == Block(at, freeSize, false) && MINIALLOC <= size <= freeSize
      modifies this, bytes
      ensures Threaded() && View() == Carve(c, old(View()), i, size)
      ensures PayloadsKept(c.header, old(blocks), at, old(bytes[..]), bytes[..])
    {
      hide Ring, T.HeapOk, Inv, Carve, FlagsOk;
      CarveReady(c, View(), used, i, size);
      TakeReady(at, freeSize, size, i, CarveHeaders(c, View(), i, size));
      KeptWhenClear(c.header, old(blocks), at, CarveHeaders(c, old(View()), i, size), old(bytes[..]), bytes[..]);
    }

    method TakeReady(at: nat, freeSize: nat, size: nat, ghost i: nat, ghost hs: set<int>)
      requires Threaded() && i < |blocks| && blocks[i] == Block(at, freeSize, false) && size <= freeSize
      requires at in frees && Distinct(frees)
      requires HeadersFit(c, View(), hs) && CarveFits(c, View(), used, i, size, hs)
      modifies this, bytes
      ensures Threaded() && View() == Carve(c, old(View()), i, size)
      ensures forall k :: 0 <= k < bytes.Length && Clear(c.header, hs, k) ==> bytes[k] == old(bytes[k])
    {
      ghost var h := Carve(c, View(), i, size);
      if freeSize >= size + c.header + MINIALLOC {
        SplitBlock(at, at + c.header + size, size, i, h, hs);
      } else {
        UseWhole(at, freeSize, h, hs);
      }
    }

    /** `rt_memheap_alloc`; the result is the address of the block's header. */
    method Alloc(n: nat) returns (r: Option<nat>)
      requires Valid()
      modifies this, bytes
      ensures old(FreesHere(View())) && Valid() && (View(), r) == MemHeapSpec.Alloc(c, old(View()), n)
      ensures PayloadsKept(c.header, old(blocks), NOWHERE, old(bytes[..]), bytes[..])
    {
      hide Ring, FlagsOk, PayloadsKept, AlignOk, Carve;
      AllocInv(c, View(), n);
      FreesAreHere(c, View());
      NothingStored(c.header, blocks, bytes[..]);
      var size := Round(c, n);
      if size < availableSize {
        var fit, freeSize := Search(size);
        if fit.Some? {
          ghost var i := IndexOf(blocks, fit.value);
          LiveNotFree(c.header, c.pool, blocks, fit.value);
          TakeBlock(fit.value, freeSize, size, i);
          KeptNowhere(c.header, old(blocks), fit.value, old(bytes[..]), bytes[..]);
          return fit;
        }
      }
      return None;
    }

    // ------------------------------------------------------------------ free

    /** `rt_memheap_free` of the block whose header is at `at`. */
    method Free(at: nat)
      requires Valid() && Live(blocks, at)
      modifies this, bytes
      ensures Valid() && View() == MemHeapSpec.Free(c, old(View()), IndexOf(old(blocks), at))
      ensures PayloadsKept(c.header, old(blocks), at, old(bytes[..]), bytes[..])
    {
      ghost var i := IndexOf(blocks, at);
      FreeInv(c, View(), i);
      FreeReady(c, View(), used, i);
      FreeApply(at, i, MemHeapSpec.Free(c, View(), i), Headers(blocks));
    }

    method FreeApply(at: nat, ghost i: nat, ghost h: Heap, ghost hs: set<int>)
      requires Threaded() && i < |blocks| - 1 && blocks[i].addr == at && HeadersFit(c, View(), hs)
      requires CanMerge(c, View(), used, i, h) && PayloadsClear(c.header, blocks, at, hs)
      modifies this, bytes
      ensures Threaded() && View() == h
      ensures PayloadsKept(c.header, old(blocks), at, old(bytes[..]), bytes[..])
    {
      FreeSection(at, i, h, hs);
      KeptWhenClear(c.header, old(blocks), at, hs, old(bytes[..]), bytes[..]);
    }

    method FreeSection(at: nat, ghost i: nat, ghost h: Heap, ghost hs: set<int>)
      requires Threaded() && i < |blocks| - 1 && blocks[i].addr == at && HeadersFit(c, View(), hs)
      requires CanMerge(c, View(), used, i, h)
      modifies this, bytes
      ensures Threaded() && View() == h
      ensures forall k :: 0 <= k < bytes.Length && Clear(c.header, hs, k) ==> bytes[k] == old(bytes[k])
    {
      hide Clear, FreedRing, FreedList, FlagsOk;
      BlockSize(c, blocks, next, prev, i);
      NeighbourFlags(next, prev, used, blocks, i);
      FreeLinks(at, Addrs(blocks), i, frees, blocks[i + 1].addr, hs);
      blocks, frees := h.blocks, h.frees;
    }

    /** The stores of `rt_memheap_free`. */
    method FreeLinks(at: nat, ghost l: seq<int>, ghost i: nat, ghost fs: seq<nat>, ghost x: nat, ghost hs: set<int>)
      requires Ring(next, prev, l) && i + 1 < |l| && l[i] == at && l[i + 1] == x && Storable(hs, l)
      requires Ring(nextFree, prevFree, [HEAD] + fs) && Distinct(fs) && Storable(hs, [HEAD] + fs) && at !in fs
      requires at in prev && at in next && prev[at] in used && next[at] in used && next[at] == x
      requires i > 0 ==> prev[at] == l[i - 1]
      requires i == 0 ==> used[prev[at]]
      requires !used[x] ==> x in fs && at !in Without(fs, x) && Storable(hs, [HEAD] + Without(fs, x))
      modifies this`next, this`prev, this`nextFree, this`prevFree, this`used, this`availableSize, bytes
      ensures var left, right := !old(used)[old(prev)[at]], !old(used)[x];
        && Ring(next, prev, FreedRing(l, i, left, right))
        && Ring(nextFree, prevFree, [HEAD] + FreedList(fs, at, x, left, right))
        && availableSize == old(availableSize) + (old(next)[at] - at - c.header)
                          + (if left then c.header else 0) + (if right then c.header else 0)
      ensures used == old(used)[at := false]
      ensures forall k :: 0 <= k < bytes.Length && Clear(c.header, hs, k) ==> bytes[k] == old(bytes[k])
    {
      hide Clear, Ring, Distinct, Without;
      assert l[i] == at && MayStore(hs, at);
      RingApart(next, prev, l, i);
      Mark(at, false, hs);
      availableSize := availableSize + (next[at] - at - c.header);
      var header, insert, i' := MergeLeft(at, l, i, hs);
      ghost var l' := if insert then l else Removed(l, i);
      RingNext(next, prev, l', i');
      var right := !used[next[header]];
      if right {
        availableSize := availableSize + c.header;
        MergeNext(header, l', i', fs, x, hs);
      }
      if insert {
        PushFree(at, if right then Without(fs, x) else fs, hs);
      }
    }

    /** Merge the block being freed into a free left neighbour; `insert` stays true when
        there is none. */
    method MergeLeft(at: nat, ghost l: seq<int>, ghost i: nat, ghost hs: set<int>)
      returns (header: int, insert: bool, ghost i': nat)
      requires Ring(next, prev, l) && i + 1 < |l| && l[i] == at && Storable(hs, l)
      requires at in prev && prev[at] in used && (i > 0 ==> prev[at] == l[i - 1]) && (i == 0 ==> used[prev[at]])
      modifies this`next, this`prev, this`availableSize, bytes
      ensures insert == old(used[prev[at]])
      ensures insert ==> header == at && i' == i && next == old(next) && prev == old(prev)
      ensures !insert ==> i > 0 && i' == i - 1 && header == l[i - 1] && Ring(next, prev, Removed(l, i))
      ensures availableSize == old(availableSize) + (if insert then 0 else c.header)
      ensures forall k :: 0 <= k < bytes.Length && Clear(c.header, hs, k) ==> bytes[k] == old(bytes[k])
    {
      header, insert, i' := at, true, i;
      if !used[prev[at]] {
        availableSize := availableSize + c.header;
        header, insert, i' := prev[at], false, i - 1;
        UnlinkBlock(at, l, i, hs);
      }
    }

    /** The free block behind `header` leaves both lists. */
    method MergeNext(header: int, ghost l: seq<int>, ghost i: nat, ghost fs: seq<nat>, ghost x: nat, ghost hs: set<int>)
      requires Ring(next, prev, l) && i + 1 < |l| && l[i] == header && l[i + 1] == x && Storable(hs, l)
      requires Ring(nextFree, prevFree, [HEAD] + fs) && x in fs && Distinct(fs) && Storable(hs, [HEAD] + fs)
      modifies this`next, this`prev, this`nextFree, this`prevFree, bytes
      ensures Ring(next, prev, Removed(l, i + 1)) && Ring(nextFree, prevFree, [HEAD] + Without(fs, x))
      ensures forall k :: 0 <= k < bytes.Length && Clear(c.header, hs, k) ==> bytes[k] == old(bytes[k])
    {
      RingNext(next, prev, l, i);
      var n := next[header];
      UnlinkBlock(n, l, i + 1, hs);
      RemoveFree(n, fs, hs);
    }

    // --------------------------------------------------------------- realloc

    /** The stores of an in-place growth: the block x behind leaves both lists and a new
        free header takes its place further on. */
    method GrowLinks(at: nat, rest: nat, ghost l: seq<int>, ghost i: nat, ghost fs: seq<nat>, ghost x: nat,
                     ghost hs: set<int>)
      requires Ring(next, prev, l) && i + 1 < |l| && l[i] == at && l[i + 1] == x && Storable(hs, l)
      requires Ring(nextFree, prevFree, [HEAD] + fs) && x in fs && Distinct(fs) && Storable(hs, [HEAD] + fs)
      requires rest !in l && rest !in fs && MayStore(hs, rest)
      modifies this`next, this`prev, this`nextFree, this`prevFree, this`used, bytes
      ensures Ring(next, prev, Inserted(Removed(l, i + 1), i, rest))
      ensures Ring(nextFree, prevFree, [HEAD] + ([rest] + Without(fs, x)))
      ensures used == old(used)[rest := false]
      ensures forall k :: 0 <= k < bytes.Length && Clear(c.header, hs, k) ==> bytes[k] == old(bytes[k])
    {
      WithoutMembers(fs, x);
      RingNext(next, prev, l, i);
      RemoveFree(next[at], fs, hs);
      UnlinkBlock(next[at], l, i + 1, hs);
      Mark(rest, false, hs);
      LinkBlock(at, rest, Removed(l, i + 1), i, hs);
      PushFree(rest, Without(fs, x), hs);
    }

    /** Take what a growth in place uses off the available size, in 32-bit arithmetic. */
    method ChargeGrowth(n: int)
      modifies this`availableSize, this`maxUsedSize
      ensures availableSize == (old(availableSize) - n) % WORD
      ensures maxUsedSize == Max(old(maxUsedSize), (c.pool - availableSize) % WORD)
    {
      availableSize := (availableSize - n) % WORD;
      if (c.pool - availableSize) % WORD > maxUsedSize {
        maxUsedSize := (c.pool - availableSize) % WORD;
      }
    }

    method GrowSection(at: nat, oldSize: nat, size: nat, ghost i: nat, ghost h: Heap, ghost hs: set<int>)
      requires Threaded() && i + 1 < |blocks| && blocks[i].addr == at && blocks[i].size == oldSize
      requires HeadersFit(c, View(), hs) && (at + c.header + size) % WORD in hs && CanGrow(c, View(), used, i, size, h)
      modifies this, bytes
      ensures Threaded() && View() == h
      ensures forall k :: 0 <= k < bytes.Length && Clear(c.header, hs, k) ==> bytes[k] == old(bytes[k])
    {
      hide Ring, Clear, Distinct, Without, Inserted, Removed, FlagsOk, Max;
      assert blocks[i + 1] in blocks;
      ChargeGrowth(size - oldSize);
      GrowLinks(at, (at + c.header + size) % WORD, Addrs(blocks), i, frees, blocks[i + 1].addr, hs);
      blocks, frees := h.blocks, h.frees;
    }

    /** Growth in place, once the test for it has been passed; it keeps the heap in order if
        the size does not wrap. */
    method GrowInPlace(at: nat, oldSize: nat, size: nat)
      requires Valid() && Live(blocks, at)
      requires var i := IndexOf(blocks, at);
        && !blocks[i + 1].used && oldSize == blocks[i].size < size < WORD
        && (oldSize + blocks[i + 1].size > size + MINIALLOC || size + MINIALLOC >= WORD)
      modifies this, bytes
      ensures Threaded() && View() == GrowWord(c, old(View()), IndexOf(old(blocks), at), size)
      ensures size + MINIALLOC < WORD ==>
        Valid() && PayloadsKept(c.header, old(blocks), NOWHERE, old(bytes[..]), bytes[..])
      ensures PayloadsKept(c.header, old(blocks), at, old(bytes[..]), bytes[..])
    {
      hide CanGrow, HeadersFit, PayloadsClear, PayloadsKept, FlagsOk, Ring, Inv, GrowWord, Grow, IndexOf, Clear;
      ghost var i := IndexOf(blocks, at);
      ghost var hs := GrowHeaders(c, View(), i, size);
      GrowReady(c, View(), used, i, size);
      GrowClear(c, View(), i, size);
      if size + MINIALLOC < WORD {
        GrowWordPlain(c, View(), i, size);
        GrowInv(c, View(), i, size);
      }
      GrowSection(at, oldSize, size, i, GrowWord(c, View(), i, size), hs);
      KeptWhenClear(c.header, old(blocks), at, hs, old(bytes[..]), bytes[..]);
      if size + MINIALLOC < WORD {
        KeptWhenClear(c.header, old(blocks), NOWHERE, hs, old(bytes[..]), bytes[..]);
      }
    }

    /** The stores of a cut: a new free header behind the block, merged with a free block
        behind that. */
    method CutLinks(at: nat, rest: nat, ghost l: seq<int>, ghost i: nat, ghost fs: seq<nat>, ghost x: nat,
                    ghost hs: set<int>)
      requires Ring(next, prev, l) && i + 1 < |l| && l[i] == at && l[i + 1] == x && Storable(hs, l)
      requires Ring(nextFree, prevFree, [HEAD] + fs) && Distinct(fs) && Storable(hs, [HEAD] + fs)
      requires rest !in l && rest !in fs && MayStore(hs, rest) && x in used && (!used[x] ==> x in fs)
      requires !used[x] ==> i + 2 < |l|
      modifies this`next, this`prev, this`nextFree, this`prevFree, this`used, this`availableSize, bytes
      ensures var merges := !old(used)[x];
        && Ring(next, prev, CutRing(l, i, rest, merges))
        && Ring(nextFree, prevFree, [HEAD] + ([rest] + (if merges then Without(fs, x) else fs)))
        && availableSize == old(availableSize) - (if merges then l[i + 2] - x - c.header else 0)
                          + ((if merges then l[i + 2] else x) - rest - c.header)
      ensures used == old(used)[rest := false]
      ensures forall k :: 0 <= k < bytes.Length && Clear(c.header, hs, k) ==> bytes[k] == old(bytes[k])
    {
      hide Clear, Distinct, Without;
      assert x in l && x != rest;
      Mark(rest, false, hs);
      LinkBlock(at, rest, l, i, hs);
      ghost var l' := Inserted(l, i, rest);
      RingNext(next, prev, l', i + 1);
      var n := next[rest];
      if !used[n] {
        WithoutMembers(fs, x);
        RingNext(next, prev, l', i + 2);
        availableSize := availableSize - (next[n] - n - c.header);
        assert Storable(hs, l');
        MergeNext(rest, l', i + 1, fs, x, hs);
        RingNext(next, prev, Removed(l', i + 2), i + 1);
        PushFree(rest, Without(fs, x), hs);
      } else {
        PushFree(rest, fs, hs);
      }
      availableSize := availableSize + (next[rest] - rest - c.header);
    }

    method CutSection(at: nat, size: nat, ghost i: nat, ghost h: Heap, ghost hs: set<int>)
      requires Threaded() && i + 1 < |blocks| && blocks[i].addr == at
      requires HeadersFit(c, View(), hs) && at + c.header + size in hs && CanCut(c, View(), used, i, size, h)
      modifies this, bytes
      ensures Threaded() && View() == h
      ensures forall k :: 0 <= k < bytes.Length && Clear(c.header, hs, k) ==> bytes[k] == old(bytes[k])
    {
      assert blocks[i + 1] in blocks;
      CutLinks(at, at + c.header + size, Addrs(blocks), i, frees, blocks[i + 1].addr, hs);
      blocks, frees := h.blocks, h.frees;
    }

    method CutInPlace(at: nat, size: nat)
      requires Valid() && Live(blocks, at)
      requires MINIALLOC <= size && size + c.header + MINIALLOC < blocks[IndexOf(blocks, at)].size
      modifies this, bytes
      ensures Valid() && View() == Shrink(c, old(View()), IndexOf(old(blocks), at), size)
      ensures PayloadsKept(c.header, old(blocks), at, old(bytes[..]), bytes[..])
      ensures PrefixKept(at + c.header, at + c.header + size, old(bytes[..]), bytes[..])
    {
      hide CanCut, HeadersFit, PayloadsClear, PayloadsKept, PrefixClear, PrefixKept, FlagsOk, Ring, Inv, Shrink,
           Splice, Tiled, Chain, UsedMin, IndexOf;
      ghost var i := IndexOf(blocks, at);
      ShrinkInv(c, View(), i, size);
      CutReady(c, View(), used, i, size);
      CutHeaders(c, View(), i, size);
      CutApply(at, size, i, Shrink(c, View(), i, size), RestHeaders(c, View(), i, size));
    }

    method CutApply(at: nat, size: nat, ghost i: nat, ghost h: Heap, ghost hs: set<int>)
      requires Threaded() && i + 1 < |blocks| && blocks[i].addr == at
      requires HeadersFit(c, View(), hs) && at + c.header + size in hs && CanCut(c, View(), used, i, size, h)
      requires PayloadsClear(c.header, blocks, at, hs) && PrefixClear(c.header, at + c.header, at + c.header + size, hs)
      modifies this, bytes
      ensures Threaded() && View() == h
      ensures PayloadsKept(c.header, old(blocks), at, old(bytes[..]), bytes[..])
      ensures PrefixKept(at + c.header, at + c.header + size, old(bytes[..]), bytes[..])
    {
      CutSection(at, size, i, h, hs);
      KeptWhenClear(c.header, old(blocks), at, hs, old(bytes[..]), bytes[..]);
      PrefixWhenClear(c.header, at + c.header, at + c.header + size, hs, old(bytes[..]), bytes[..]);
    }

    /** The last resort of `rt_memheap_realloc`: a new block, a copy, and the old block
        freed; nothing happens when there is no new block. */
    method MoveBlock(at: nat, oldSize: nat, size: nat) returns (r: Option<nat>)
      requires Valid() && Live(blocks, at) && blocks[IndexOf(blocks, at)].size == oldSize < size
      requires Round(c, size) >= size
      modifies this, bytes
      ensures old(FreesHere(View())) && Valid()
      ensures var (h1, r1) := MemHeapSpec.Alloc(c, old(View()), size);
        && r == r1
        && (r.Some? ==> CanFree(c, h1, IndexOf(h1.blocks, at)))
        && View() == if r.Some? then MemHeapSpec.Free(c, h1, IndexOf(h1.blocks, at)) else h1
      ensures PayloadsKept(c.header, old(blocks), if r.Some? then at else NOWHERE, old(bytes[..]), bytes[..])
      ensures r.Some? ==> Moved(c.header, at, r.value, oldSize, old(bytes[..]), bytes[..])
    {
      hide Inv, Tiled, Ring, FlagsOk, PayloadsKept, Moved, KeepsOthers, IsFree, FreesHere, MemHeapSpec.Alloc,
           MemHeapSpec.Free, IndexOf;
      T.TiledOk(c, View());
      T.LiveAfterAlloc(c, View(), size, at);
      T.AllocEffect(c, View(), size);
      r := Alloc(size);
      if r.Some? {
        LiveNotFree(c.header, c.pool, old(blocks), r.value);
        T.TiledOk(c, View());
        CopyBlock(bytes, c.header, at, r.value, oldSize, old(blocks), blocks, old(bytes[..]));
        ghost var copied, l1 := bytes[..], blocks;
        Free(at);
        MoveKept(c.header, c.pool, old(blocks), l1, at, r.value, oldSize, old(bytes[..]), copied, bytes[..]);
      }
    }

    /** `rt_memheap_realloc`.  All other blocks in use keep their bytes; the block returned
        starts with the bytes of the old one, as many as fit; and a failed call leaves the
        old block's bytes alone, too.  A request that wraps leaves the links in order but not
        the heap. */
    method Realloc(ptr: Option<nat>, n: nat) returns (r: Option<nat>)
      requires Valid() && (ptr.Some? ==> Live(blocks, ptr.value))
      modifies this, bytes
      ensures Threaded() && (View(), r) == T.Realloc(c, old(View()), ptr, n)
      ensures (ptr.None? || T.Safe(c, old(View()), ptr.value, n)) ==> Valid()
      ensures PayloadsKept(c.header, old(blocks), if ptr.Some? && (n == 0 || r.Some?) then ptr.value else NOWHERE,
                           old(bytes[..]), bytes[..])
      ensures n > 0 && ptr.Some? && r.Some? && T.Safe(c, old(View()), ptr.value, n) ==>
        var oldSize := old(blocks)[IndexOf(old(blocks), ptr.value)].size;
        Moved(c.header, ptr.value, r.value, if oldSize < Round(c, n) then oldSize else Round(c, n), old(bytes[..]),
              bytes[..])
    {
      if n == 0 {
        if ptr.Some? {
          Free(ptr.value);
        }
        return None;
      }
      var size := Round(c, n);
      if ptr.None? {
        FreesAreHere(c, View());
        r := Alloc(size);
        return;
      }
      r := Resize(ptr.value, n, size);
    }

    method Resize(at: nat, n: nat, size: nat) returns (r: Option<nat>)
      requires Valid() && Live(blocks, at) && n > 0 && size == Round(c, n)
      modifies this, bytes
      ensures Threaded() && (View(), r) == T.Realloc(c, old(View()), Some(at), n)
      ensures T.Safe(c, old(View()), at, n) ==> Valid()
      ensures PayloadsKept(c.header, old(blocks), if r.Some? then at else NOWHERE, old(bytes[..]), bytes[..])
      ensures r.Some? && T.Safe(c, old(View()), at, n) ==>
        var oldSize := old(blocks)[IndexOf(old(blocks), at)].size;
        Moved(c.header, at, r.value, if oldSize < size then oldSize else size, old(bytes[..]), bytes[..])
    {
      hide Inv, Ring, PayloadsKept, Moved, IsFree, MemHeapSpec.Alloc, MemHeapSpec.Free, Grow, GrowWord, Shrink,
           FreesHere, FlagsOk, FreeSum, Linked, NoTwoFree, End, Unique;
      ghost var i := IndexOf(blocks, at);
      if T.NoWrap(c, n) { T.GuardIsFit(c, View(), i, n); } else { T.GuardWraps(c, View(), i, n); }
      T.RoundTwice(c, n);
      SizesRead(c, View(), next, prev, used, i);
      BytesInPool(c, View(), i, bytes[..]);
      var oldSize := next[at] - at - c.header;
      if size > oldSize {
        var x := next[at];
        if !used[x] {
          var nextSize := next[x] - x - c.header;
          if (nextSize + oldSize) % WORD > (size + MINIALLOC) % WORD {
            GrowInPlace(at, oldSize, size);
            if T.NoWrap(c, n) { SamePlace(c.header, old(blocks), i, oldSize, old(bytes[..]), bytes[..]); }
            return Some(at);
          }
        }
        T.LiveAfterAlloc(c, View(), size, at);
        r := MoveBlock(at, oldSize, size);
        return;
      }
      if size + c.header + MINIALLOC >= oldSize {
        SamePlace(c.header, old(blocks), i, size, old(bytes[..]), bytes[..]);
        return Some(at);
      }
      CutInPlace(at, size);
      SamePrefix(c.header, at, size, old(bytes[..]), bytes[..]);
      return Some(at);
    }
  }

  ghost function CarveHeaders(c: Config, h: Heap, i: nat, size: nat): set<int>
    requires i < |h.blocks|
  {
    if Splits(c, h.blocks[i].size, size) then Headers(h.blocks) + {h.blocks[i].addr + c.header + size}
    else Headers(h.blocks)
  }

  /** What the lists and the flags must be for a block to be split or used up. */
  ghost predicate CarveFits(c: Config, h: Heap, used: map<int, bool>, i: nat, size: nat, hs: set<int>)
    requires i < |h.blocks| && size <= h.blocks[i].size
  {
    var at := h.blocks[i].addr;
    var rest := at + c.header + size;
    var h' := Carve(c, h, i, size);
    if Splits(c, h.blocks[i].size, size) then
      && rest !in Addrs(h.blocks) && rest !in h.frees && rest in hs
      && Addrs(h'.blocks) == Inserted(Addrs(h.blocks), i, rest)
      && FlagsOk(used[rest := false][at := true], h'.blocks)
    else
      Addrs(h'.blocks) == Addrs(h.blocks) && FlagsOk(used[at := true], h'.blocks)
  }

  lemma FreesTrue(c: Config, h: Heap)
    requires T.HeapOk(c, h)
    ensures Chain(c.header, h.blocks) && c.header > 0 && Distinct(h.frees)
    ensures forall a :: a in h.frees <==> IsFree(h.blocks, a)
  {
    hide Chain, Distinct, IsFree, NoTwoFree, UsedMin, FreeSum;
  }

  /** Where the blocks behind a block in use start; the last block is in use. */
  lemma PlacesBehind(c: Config, h: Heap, i: nat)
    requires T.HeapOk(c, h) && i + 1 < |h.blocks|
    ensures h.blocks[i + 1].addr == End(c.header, h.blocks[i])
    ensures !h.blocks[i + 1].used ==> i + 2 < |h.blocks| && h.blocks[i + 2].addr == End(c.header, h.blocks[i + 1])
  {
    hide Distinct, IsFree, NoTwoFree, UsedMin, FreeSum;
    assert h.blocks[i + 1].addr == End(c.header, h.blocks[i]);
    if !h.blocks[i + 1].used { assert h.blocks[i + 1 + 1].addr == End(c.header, h.blocks[i + 1]); }
  }

  lemma CarveReady(c: Config, h: Heap, used: map<int, bool>, i: nat, size: nat)
    requires T.HeapOk(c, h) && i < |h.blocks| && !h.blocks[i].used && MINIALLOC <= size <= h.blocks[i].size
    requires FlagsOk(used, h.blocks)
    ensures h.blocks[i].addr in h.frees && Distinct(h.frees)
    ensures var hs := CarveHeaders(c, h, i, size);
      && HeadersFit(c, h, hs) && CarveFits(c, h, used, i, size, hs)
      && PayloadsClear(c.header, h.blocks, h.blocks[i].addr, hs)
  {
    hide Inv, Chain, Distinct, HeadersFit, PayloadsClear, FlagsOk, IsFree, Elsewhere;
    FreesTrue(c, h);
    FreeAt(c.header, h.blocks, i);
    CarveHeadersFit(c, h, i, size);
    AddrElsewhere(c.header, h.blocks, i, i + 1, h.blocks[i].addr);
    if Splits(c, h.blocks[i].size, size) {
      NewListed(c, h, i, h.blocks[i].addr + c.header + size);
      SplitFits(c, h, used, i, size);
    } else {
      var b := h.blocks[i].(used := true);
      AddrsSame(h.blocks, i, b);
      FlagsOne(used, h.blocks, i, i + 1, b);
    }
  }

  lemma CarveHeadersFit(c: Config, h: Heap, i: nat, size: nat)
    requires T.HeapOk(c, h) && i < |h.blocks| && !h.blocks[i].used && size <= h.blocks[i].size
    ensures var hs := CarveHeaders(c, h, i, size);
      HeadersFit(c, h, hs) && PayloadsClear(c.header, h.blocks, h.blocks[i].addr, hs)
  {
    ListsInPool(c, h);
    if Splits(c, h.blocks[i].size, size) { NewListed(c, h, i, h.blocks[i].addr + c.header + size); }
  }

  lemma SplitFits(c: Config, h: Heap, used: map<int, bool>, i: nat, size: nat)
    requires i < |h.blocks| && Splits(c, h.blocks[i].size, size) && FlagsOk(used, h.blocks) && c.header > 0
    requires Elsewhere(h.blocks, i, i + 1, h.blocks[i].addr)
    requires Elsewhere(h.blocks, i, i + 1, h.blocks[i].addr + c.header + size)
    ensures var at := h.blocks[i].addr; var rest := at + c.header + size; var h' := Carve(c, h, i, size);
      && Addrs(h'.blocks) == Inserted(Addrs(h.blocks), i, rest)
      && FlagsOk(used[rest := false][at := true], h'.blocks)
  {
    var at := h.blocks[i].addr;
    var front, back := Block(at, size, true), Block(at + c.header + size, h.blocks[i].size - size - c.header, false);
    T.CarveSplitValue(c, h, i, size);
    AddrsSplit(h.blocks, i, front, back);
    FlagsTwo(used, h.blocks, i, i + 1, front, back);
  }

  /** What the lists and the flags must be for the block at index i to be freed, with h'
      the heap that results. */
  ghost predicate CanMerge(c: Config, h: Heap, used: map<int, bool>, i: nat, h': Heap)
    requires i + 1 < |h.blocks|
  {
    var at, x, left, right := h.blocks[i].addr, h.blocks[i + 1].addr, MergesLeft(h.blocks, i), MergesRight(h.blocks, i);
    && h.blocks[|h.blocks| - 1].used && x == End(c.header, h.blocks[i])
    && Distinct(h.frees) && at !in h.frees
    && (right ==> x in h.frees && forall y :: y in Without(h.frees, x) ==> y in h.frees)
    && Addrs(h'.blocks) == FreedRing(Addrs(h.blocks), i, left, right)
    && h'.frees == FreedList(h.frees, at, x, left, right)
    && FlagsOk(used[at := false], h'.blocks)
    && h'.available == h.available + h.blocks[i].size + (if left then c.header else 0) + (if right then c.header else 0)
    && h'.maxUsed == h.maxUsed
  }

  ghost function FreedList(fs: seq<nat>, at: nat, x: nat, left: bool, right: bool): seq<nat> {
    var fs' := if right then Without(fs, x) else fs;
    if left then fs' else [at] + fs'
  }

  lemma FreeReady(c: Config, h: Heap, used: map<int, bool>, i: nat)
    requires CanFree(c, h, i) && FlagsOk(used, h.blocks)
    ensures HeadersFit(c, h, Headers(h.blocks)) && CanMerge(c, h, used, i, MemHeapSpec.Free(c, h, i))
    ensures PayloadsClear(c.header, h.blocks, h.blocks[i].addr, Headers(h.blocks))
  {
    ListsInPool(c, h);
    NeighboursListed(c, h, i);
    MergedRing(c.header, h.blocks, i);
    MergedFlags(c.header, h.blocks, used, i);
    FreeValue(c, h, i);
  }

  lemma NeighboursListed(c: Config, h: Heap, i: nat)
    requires CanFree(c, h, i)
    ensures Distinct(h.frees) && h.blocks[i].addr !in h.frees
    ensures h.blocks[|h.blocks| - 1].used && h.blocks[i + 1].addr == End(c.header, h.blocks[i])
    ensures MergesRight(h.blocks, i) ==>
      h.blocks[i + 1].addr in h.frees && forall y :: y in Without(h.frees, h.blocks[i + 1].addr) ==> y in h.frees
  {
    FreeAt(c.header, h.blocks, i);
    FreeAt(c.header, h.blocks, i + 1);
    if MergesRight(h.blocks, i) { WithoutMembers(h.frees, h.blocks[i + 1].addr); }
  }

  lemma FreeValue(c: Config, h: Heap, i: nat)
    requires i + 1 < |h.blocks|
    ensures var h' := MemHeapSpec.Free(c, h, i); var left, right := MergesLeft(h.blocks, i), MergesRight(h.blocks, i);
      && h'.frees == FreedList(h.frees, h.blocks[i].addr, h.blocks[i + 1].addr, left, right)
      && h'.available == h.available + h.blocks[i].size + (if left then c.header else 0) +
           (if right then c.header else 0)
      && h'.maxUsed == h.maxUsed
  {
  }

  /** The flags `rt_memheap_free` looks at: those of the neighbours, where the first block's
      left neighbour is the used tail. */
  lemma NeighbourFlags(next: Links, prev: Links, used: map<int, bool>, l: seq<Block>, i: nat)
    requires Ring(next, prev, Addrs(l)) && FlagsOk(used, l) && i + 1 < |l| && l[|l| - 1].used
    ensures var at := l[i].addr;
      && at in prev && at in next && prev[at] in used && next[at] in used
      && next[at] == l[i + 1].addr && used[next[at]] == l[i + 1].used
      && (i > 0 ==> prev[at] == l[i - 1].addr && used[prev[at]] == l[i - 1].used)
      && (i == 0 ==> used[prev[at]])
  {
    RingNext(next, prev, Addrs(l), i);
    assert l[i + 1] in l && l[|l| - 1] in l;
    assert i > 0 ==> l[i - 1] in l;
  }

  /** The listed addresses have their headers inside the pool. */
  ghost predicate HeadersFit(c: Config, h: Heap, hs: set<int>) {
    && (forall a :: a in Addrs(h.blocks) ==> a in hs)
    && (forall a :: a in h.frees ==> a in hs)
    && (forall a :: a in hs ==> 0 <= a && a + c.header <= c.pool)
  }

  // ------------------------------------------------- links, flags and headers

  /** Every header lies in the pool, clear of every payload. */
  lemma ListsInPool(c: Config, h: Heap)
    requires T.HeapOk(c, h)
    ensures HeadersFit(c, h, Headers(h.blocks))
    ensures forall b, k :: b in h.blocks && InPayload(c.header, b, k) ==> Clear(c.header, Headers(h.blocks), k)
  {
    HeadersInPool(c.header, c.pool, h.blocks);
    forall a | a in Addrs(h.blocks) ensures a in Headers(h.blocks) {
      var i :| 0 <= i < |h.blocks| && Addrs(h.blocks)[i] == a;
      assert h.blocks[i] in h.blocks;
    }
    forall a | a in h.frees ensures a in Headers(h.blocks) {
      assert IsFree(h.blocks, a);
    }
  }

  /** An address inside a block is on neither list. */
  lemma InsideIsNew(c: Config, h: Heap, i: nat, x: nat)
    requires T.HeapOk(c, h) && i < |h.blocks| && h.blocks[i].addr < x < End(c.header, h.blocks[i])
    ensures x !in Addrs(h.blocks) && x !in h.frees && Elsewhere(h.blocks, i, i + 1, x)
  {
    RestIsNew(c, h, i, x);
    NewAddr(c.header, h.blocks, i, x);
    forall j | 0 <= j < |h.blocks| ensures h.blocks[j].addr != x {
      assert h.blocks[j] in h.blocks;
    }
  }

  /** A header placed inside a block is in neither list, and clear of every other payload. */
  lemma NewListed(c: Config, h: Heap, i: nat, x: nat)
    requires T.HeapOk(c, h) && i < |h.blocks|
    requires h.blocks[i].addr < x && x + c.header <= End(c.header, h.blocks[i])
    ensures x !in Addrs(h.blocks) && x !in h.frees && x + c.header <= c.pool
    ensures Elsewhere(h.blocks, i, i + 1, x)
    ensures forall b, k :: b in h.blocks && b != h.blocks[i] && InPayload(c.header, b, k) ==> !InHeader(c.header, x, k)
  {
    NewHeader(c.header, c.pool, h.blocks, i, x);
    InsideIsNew(c, h, i, x);
  }

  lemma FirstFitNext(l: seq<Block>, frees: seq<nat>, j: nat, size: nat)
    requires j < |frees| && forall a :: a in frees ==> IndexOf(l, a) < |l|
    ensures frees[j] in frees
    ensures FirstFit(l, frees[j..], size) ==
      if l[IndexOf(l, frees[j])].size >= size then Some(frees[j]) else FirstFit(l, frees[j + 1..], size)
  {
    assert frees[j..][1..] == frees[j + 1..];
  }

  /** What `MEMITEM_SIZE` computes from the links is the block's size. */
  lemma BlockSize(c: Config, l: seq<Block>, next: Links, prev: Links, i: nat)
    requires Ring(next, prev, Addrs(l)) && i < |l| - 1 && l[i + 1].addr == End(c.header, l[i])
    ensures l[i].addr in next && next[l[i].addr] - l[i].addr - c.header == l[i].size
  {
    RingNext(next, prev, Addrs(l), i);
  }

  // ----------------------------------------------- what realloc's stores need

  ghost function RestHeaders(c: Config, h: Heap, i: nat, size: nat): set<int>
    requires i < |h.blocks|
  {
    Headers(h.blocks) + {h.blocks[i].addr + c.header + size}
  }

  ghost function GrowHeaders(c: Config, h: Heap, i: nat, size: nat): set<int>
    requires i < |h.blocks|
  {
    Headers(h.blocks) + {(h.blocks[i].addr + c.header + size) % WORD}
  }

  /** What the lists and the flags must be for the block at index i to grow. */
  ghost predicate CanGrow(c: Config, h: Heap, used: map<int, bool>, i: nat, size: nat, h': Heap)
    requires i + 1 < |h.blocks|
  {
    var rest, x := (h.blocks[i].addr + c.header + size) % WORD, h.blocks[i + 1].addr;
    && x in h.frees && Distinct(h.frees) && rest !in Addrs(h.blocks) && rest !in h.frees
    && Addrs(h'.blocks) == Inserted(Removed(Addrs(h.blocks), i + 1), i, rest)
    && h'.frees == [rest] + Without(h.frees, x) && FlagsOk(used[rest := false], h'.blocks)
    && h'.available == (h.available - (size - h.blocks[i].size)) % WORD
    && h'.maxUsed == Max(h.maxUsed, (c.pool - h'.available) % WORD)
  }

  /** The remainder's header lies in the block behind or, when the size wraps, in the block's
      own header; it is a new one either way. */
  lemma GrowRest(c: Config, h: Heap, i: nat, size: nat)
    requires CanFree(c, h, i) && !h.blocks[i + 1].used && h.blocks[i].size < size < WORD
    requires h.blocks[i].size + h.blocks[i + 1].size > size + MINIALLOC || size + MINIALLOC >= WORD
    ensures var rest := (h.blocks[i].addr + c.header + size) % WORD;
      && rest !in Addrs(h.blocks) && rest !in h.frees && Elsewhere(h.blocks, i, i + 2, rest)
      && h.blocks[i].addr < rest && rest + c.header <= End(c.header, h.blocks[i + 1]) <= c.pool
      && (size + MINIALLOC < WORD ==> h.blocks[i + 1].addr < rest)
  {
    hide IsFree, NoTwoFree;
    var b, n := h.blocks[i], h.blocks[i + 1];
    assert n.addr == End(c.header, b);
    Inside(c.header, c.pool, h.blocks, i + 1);
    var rest := b.addr + c.header + size;
    if size + MINIALLOC < WORD {
      assert rest % WORD == rest;
      InsideIsNew(c, h, i + 1, rest);
      ElsewhereWider(h.blocks, i + 1, i + 2, i, i + 2, rest);
    } else {
      assert rest % WORD == rest - WORD;
      InsideIsNew(c, h, i, rest - WORD);
      ElsewhereWider(h.blocks, i, i + 1, i, i + 2, rest - WORD);
    }
  }

  lemma GrowReady(c: Config, h: Heap, used: map<int, bool>, i: nat, size: nat)
    requires CanFree(c, h, i) && FlagsOk(used, h.blocks) && !h.blocks[i + 1].used && h.blocks[i].size < size < WORD
    requires h.blocks[i].size + h.blocks[i + 1].size > size + MINIALLOC || size + MINIALLOC >= WORD
    ensures CanGrow(c, h, used, i, size, GrowWord(c, h, i, size))
  {
    hide FlagsOk, NoTwoFree, UsedMin, Elsewhere, GrowWord;
    GrowRest(c, h, i, size);
    FreeAt(c.header, h.blocks, i + 1);
    GrowValue(c, h, used, i, size);
  }

  lemma GrowValue(c: Config, h: Heap, used: map<int, bool>, i: nat, size: nat)
    requires i + 1 < |h.blocks| && FlagsOk(used, h.blocks) && h.blocks[i].used
    requires var rest := (h.blocks[i].addr + c.header + size) % WORD;
      rest != h.blocks[i].addr && Elsewhere(h.blocks, i, i + 2, rest)
    ensures var rest := (h.blocks[i].addr + c.header + size) % WORD; var h' := GrowWord(c, h, i, size);
      && Addrs(h'.blocks) == Inserted(Removed(Addrs(h.blocks), i + 1), i, rest)
      && h'.frees == [rest] + Without(h.frees, h.blocks[i + 1].addr) && FlagsOk(used[rest := false], h'.blocks)
      && h'.available == (h.available - (size - h.blocks[i].size)) % WORD
      && h'.maxUsed == Max(h.maxUsed, (c.pool - h'.available) % WORD)
  {
    var b, n := h.blocks[i], h.blocks[i + 1];
    var used', rest := b.(size := size),
        Block((b.addr + c.header + size) % WORD, (b.size + n.size - size) % WORD, false);
    GrowRing(h.blocks, i, used', rest);
    FlagsRest(used, h.blocks, i, i + 2, used', rest);
  }

  /** Growing touches no other payload in use and, unless the size wraps, not even the
      growing one's. */
  lemma GrowClear(c: Config, h: Heap, i: nat, size: nat)
    requires CanFree(c, h, i) && !h.blocks[i + 1].used && h.blocks[i].size < size < WORD
    requires h.blocks[i].size + h.blocks[i + 1].size > size + MINIALLOC || size + MINIALLOC >= WORD
    ensures var hs := GrowHeaders(c, h, i, size);
      && HeadersFit(c, h, hs) && PayloadsClear(c.header, h.blocks, h.blocks[i].addr, hs)
      && (size + MINIALLOC < WORD ==> PayloadsClear(c.header, h.blocks, NOWHERE, hs))
  {
    hide Inv, FreesHere, InPayload, NoTwoFree, FreeSum, Elsewhere;
    ListsInPool(c, h);
    GrowRest(c, h, i, size);
    T.TiledOk(c, h);
    RestClear(c.header, h.blocks, i, (h.blocks[i].addr + c.header + size) % WORD);
  }

  lemma RestClear(header: nat, l: seq<Block>, i: nat, rest: nat)
    requires Chain(header, l) && header > 0 && i + 1 < |l| && !l[i + 1].used && l[i].addr < rest
    requires rest + header <= End(header, l[i + 1])
    ensures forall b, k ::
      (b in l && b.used && (b.addr != l[i].addr || l[i + 1].addr < rest) && InPayload(header, b, k)) ==>
        !InHeader(header, rest, k)
  {
    assert l[i + 1].addr == End(header, l[i]);
    forall b, k | b in l && b.used && (b.addr != l[i].addr || l[i + 1].addr < rest) && InPayload(header, b, k)
      ensures !InHeader(header, rest, k)
    {
      var j :| 0 <= j < |l| && l[j] == b;
      if j < i { AddrsGrow(header, l, j, i); }
      if i + 1 < j { AddrsGrow(header, l, i + 1, j); }
    }
  }

  lemma GrowRing(l: seq<Block>, i: nat, b: Block, rest: Block)
    requires i + 1 < |l| && b.addr == l[i].addr
    ensures Addrs(Splice(l, i, [b, rest], i + 2)) == Inserted(Removed(Addrs(l), i + 1), i, rest.addr)
  {
  }

  /** What the lists and the flags must be for the block at index i to be cut. */
  ghost predicate CanCut(c: Config, h: Heap, used: map<int, bool>, i: nat, size: nat, h': Heap)
    requires i + 1 < |h.blocks|
  {
    var rest, x, merges := h.blocks[i].addr + c.header + size, h.blocks[i + 1].addr, !h.blocks[i + 1].used;
    && Distinct(h.frees) && rest !in Addrs(h.blocks) && rest !in h.frees
    && (merges ==> x in h.frees && i + 2 < |h.blocks|)
    && Addrs(h'.blocks) == CutRing(Addrs(h.blocks), i, rest, merges)
    && h'.frees == [rest] + (if merges then Without(h.frees, x) else h.frees) && FlagsOk(used[rest := false], h'.blocks)
    && h'.maxUsed == h.maxUsed
    && h'.available == h.available - (if merges then h.blocks[i + 2].addr - x - c.header else 0)
                     + ((if merges then h.blocks[i + 2].addr else x) - rest - c.header)
  }

  lemma CutReady(c: Config, h: Heap, used: map<int, bool>, i: nat, size: nat)
    requires CanFree(c, h, i) && FlagsOk(used, h.blocks) && size + c.header + MINIALLOC < h.blocks[i].size
    ensures CanCut(c, h, used, i, size, Shrink(c, h, i, size))
  {
    hide Inv, Chain, Distinct, FlagsOk, IsFree, Elsewhere, Shrink, CutRing;
    var rest := h.blocks[i].addr + c.header + size;
    FreesTrue(c, h);
    PlacesBehind(c, h, i);
    FreeAt(c.header, h.blocks, i + 1);
    NewListed(c, h, i, rest);
    ElsewhereWider(h.blocks, i, i + 1, i, if h.blocks[i + 1].used then i + 1 else i + 2, rest);
    CutValue(c, h, used, i, size);
  }

  function CutRest(c: Config, h: Heap, i: nat, size: nat): Block
    requires i + 1 < |h.blocks| && h.blocks[i].size >= size + c.header
  {
    var b, n := h.blocks[i], h.blocks[i + 1];
    Block(b.addr + c.header + size, b.size - size - c.header + (if n.used then 0 else c.header + n.size), false)
  }

  lemma ShrinkValue(c: Config, h: Heap, i: nat, size: nat)
    requires i + 1 < |h.blocks| && h.blocks[i].size >= size + c.header
    ensures var b, n, rest := h.blocks[i], h.blocks[i + 1], CutRest(c, h, i, size);
      Shrink(c, h, i, size) == Heap(Splice(h.blocks, i, [b.(size := size), rest], if n.used then i + 1 else i + 2),
                                    [rest.addr] + (if n.used then h.frees else Without(h.frees, n.addr)),
                                    h.available - (if n.used then 0 else n.size) + rest.size, h.maxUsed)
  {
  }

  lemma CutValue(c: Config, h: Heap, used: map<int, bool>, i: nat, size: nat)
    requires i + 1 < |h.blocks| && h.blocks[i].used && h.blocks[i].size >= size + c.header && FlagsOk(used, h.blocks)
    requires c.header > 0 && h.blocks[i + 1].addr == End(c.header, h.blocks[i])
    requires !h.blocks[i + 1].used ==> i + 2 < |h.blocks| && h.blocks[i + 2].addr == End(c.header, h.blocks[i + 1])
    requires Elsewhere(h.blocks, i, if h.blocks[i + 1].used then i + 1 else i + 2, h.blocks[i].addr + c.header + size)
    ensures var rest, x, merges := h.blocks[i].addr + c.header + size, h.blocks[i + 1].addr, !h.blocks[i + 1].used;
      var h' := Shrink(c, h, i, size);
      && Addrs(h'.blocks) == CutRing(Addrs(h.blocks), i, rest, merges)
      && h'.frees == [rest] + (if merges then Without(h.frees, x) else h.frees)
      && FlagsOk(used[rest := false], h'.blocks)
      && h'.maxUsed == h.maxUsed
      && h'.available == h.available - (if merges then h.blocks[i + 2].addr - x - c.header else 0)
                       + ((if merges then h.blocks[i + 2].addr else x) - rest - c.header)
  {
    var b, merges, rest := h.blocks[i].(size := size), !h.blocks[i + 1].used, CutRest(c, h, i, size);
    ShrinkValue(c, h, i, size);
    CutRingValue(h.blocks, i, b, rest, merges);
    FlagsRest(used, h.blocks, i, if merges then i + 2 else i + 1, b, rest);
  }

  /** Cutting touches no other payload in use, and not the part of this one that stays. */
  lemma CutHeaders(c: Config, h: Heap, i: nat, size: nat)
    requires CanFree(c, h, i) && size + c.header + MINIALLOC < h.blocks[i].size
    ensures var rest, hs := h.blocks[i].addr + c.header + size, RestHeaders(c, h, i, size);
      && HeadersFit(c, h, hs) && PayloadsClear(c.header, h.blocks, h.blocks[i].addr, hs)
      && PrefixClear(c.header, h.blocks[i].addr + c.header, rest, hs)
  {
    ListsInPool(c, h);
    NewListed(c, h, i, h.blocks[i].addr + c.header + size);
    forall k | h.blocks[i].addr + c.header <= k < h.blocks[i].addr + c.header + size
      ensures Clear(c.header, RestHeaders(c, h, i, size), k)
    {
      assert h.blocks[i] in h.blocks && InPayload(c.header, h.blocks[i], k);
    }
  }

  // ---------------------------------------------------- staying in place

  /** What `rt_memheap_realloc` reads of the block and of the one behind it. */
  lemma SizesRead(c: Config, h: Heap, next: Links, prev: Links, used: map<int, bool>, i: nat)
    requires CanFree(c, h, i) && Ring(next, prev, Addrs(h.blocks)) && FlagsOk(used, h.blocks)
    ensures var at, x := h.blocks[i].addr, h.blocks[i + 1].addr;
      && at in next && next[at] == x && next[at] - at - c.header == h.blocks[i].size
      && x in used && used[x] == h.blocks[i + 1].used
      && (!used[x] ==> x in next && next[x] - x - c.header == h.blocks[i + 1].size)
  {
    BlockSize(c, h.blocks, next, prev, i);
    NeighbourFlags(next, prev, used, h.blocks, i);
    if !h.blocks[i + 1].used { BlockSize(c, h.blocks, next, prev, i + 1); }
  }

  lemma BytesInPool(c: Config, h: Heap, i: nat, bytes: seq<bv8>)
    requires CanFree(c, h, i) && |bytes| == c.pool
    ensures h.blocks[i].addr + c.header + h.blocks[i].size <= |bytes|
    ensures PayloadsKept(c.header, h.blocks, NOWHERE, bytes, bytes)
  {
    Inside(c.header, c.pool, h.blocks, i);
  }
}
