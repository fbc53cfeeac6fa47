/** The bytes of a boundary-tag heap, and the flags in its headers (rt-thread/src/memheap.c,
    rt-thread/src/mem.c).  A store to a header overwrites bytes of that header, here with
    arbitrary ones; what the heaps promise is that no store reaches a payload in use. */
module HeapBytes {
  import opened HeapBlocks

  /** No block starts here. */
  const NOWHERE := -1

  // ----------------------------------------------------------------- stores

  /** A store to some field of the header at a. */
  method StoreHeader(bytes: array<bv8>, header: nat, a: nat)
    requires a + header <= bytes.Length
    modifies bytes
    ensures forall k :: 0 <= k < bytes.Length && !InHeader(header, a, k) ==> bytes[k] == old(bytes[k])
  {
    var k: nat := a;
    while k < a + header
      invariant a <= k <= a + header
      invariant forall m :: 0 <= m < bytes.Length && !InHeader(header, a, m) ==> bytes[m] == old(bytes[m])
    {
      bytes[k] := *;
      k := k + 1;
    }
  }

  /** `rt_memcpy` between two parts of the pool that do not overlap. */
  method Copy(bytes: array<bv8>, dst: nat, src: nat, n: nat)
    requires dst + n <= bytes.Length && src + n <= bytes.Length && (dst + n <= src || src + n <= dst)
    modifies bytes
    ensures bytes[dst..dst + n] == old(bytes[src..src + n])
    ensures forall k :: 0 <= k < bytes.Length && !(dst <= k < dst + n) ==> bytes[k] == old(bytes[k])
  {
    var k: nat := 0;
    while k < n
      invariant k <= n
      invariant bytes[dst..dst + k] == old(bytes[src..src + k])
      invariant forall m :: 0 <= m < bytes.Length && !(dst <= m < dst + k) ==> bytes[m] == old(bytes[m])
    {
      bytes[dst + k] := bytes[src + k];
      k := k + 1;
    }
  }

  // ------------------------------------------------------------------ flags

  ghost predicate FlagsOk(used: map<int, bool>, l: seq<Block>) {
    forall b :: b in l ==> b.addr in used && used[b.addr] == b.used
  }

  /** No block outside the part from lo to hi has this address. */
  ghost predicate Elsewhere(l: seq<Block>, lo: nat, hi: nat, a: int)
    requires lo <= hi <= |l|
  {
    forall b :: b in l[..lo] || b in l[hi..] ==> b.addr != a
  }

  lemma AddrElsewhere(header: nat, l: seq<Block>, lo: nat, hi: nat, a: nat)
    requires Chain(header, l) && header > 0 && lo < hi <= |l| && HasAddr(l[lo..hi], a)
    ensures Elsewhere(l, lo, hi, a)
  {
    var x :| x in l[lo..hi] && x.addr == a;
    forall b | b in l[..lo] || b in l[hi..] ensures b.addr != a { PartsApart(header, l, lo, hi, b, x); }
  }

  lemma ElsewhereWider(l: seq<Block>, lo: nat, hi: nat, lo': nat, hi': nat, a: int)
    requires lo' <= lo <= hi <= hi' <= |l| && Elsewhere(l, lo, hi, a)
    ensures Elsewhere(l, lo', hi', a)
  {
    forall b | b in l[..lo'] || b in l[hi'..] ensures b.addr != a {
      assert l[..lo'] == l[..lo][..lo'] && l[hi'..] == l[hi..][hi' - hi..];
    }
  }

  /** Flags follow a splice when those of the blocks that came in are stored. */
  lemma FlagsOne(used: map<int, bool>, l: seq<Block>, lo: nat, hi: nat, b: Block)
    requires lo <= hi <= |l| && FlagsOk(used, l) && Elsewhere(l, lo, hi, b.addr)
    ensures FlagsOk(used[b.addr := b.used], Splice(l, lo, [b], hi))
  {
    forall x | x in Splice(l, lo, [b], hi)
      ensures x.addr in used[b.addr := b.used] && used[b.addr := b.used][x.addr] == x.used
    {
      InSplice(l, lo, [b], hi, x);
    }
  }

  lemma FlagsTwo(used: map<int, bool>, l: seq<Block>, lo: nat, hi: nat, b: Block, d: Block)
    requires lo <= hi <= |l| && FlagsOk(used, l) && Elsewhere(l, lo, hi, b.addr) && Elsewhere(l, lo, hi, d.addr)
    requires b.addr != d.addr
    ensures FlagsOk(used[d.addr := d.used][b.addr := b.used], Splice(l, lo, [b, d], hi))
  {
    var used' := used[d.addr := d.used][b.addr := b.used];
    forall x | x in Splice(l, lo, [b, d], hi) ensures x.addr in used' && used'[x.addr] == x.used {
      InSplice(l, lo, [b, d], hi, x);
    }
  }

  /** Only the flag of the new header is stored; the block in front keeps its own. */
  lemma FlagsRest(used: map<int, bool>, l: seq<Block>, lo: nat, hi: nat, b: Block, rest: Block)
    requires lo < hi <= |l| && FlagsOk(used, l) && Elsewhere(l, lo, hi, rest.addr)
    requires b.addr == l[lo].addr && b.used == l[lo].used && b.addr != rest.addr
    ensures FlagsOk(used[rest.addr := rest.used], Splice(l, lo, [b, rest], hi))
  {
    var used' := used[rest.addr := rest.used];
    assert l[lo] in l;
    forall x | x in Splice(l, lo, [b, rest], hi) ensures x.addr in used' && used'[x.addr] == x.used {
      InSplice(l, lo, [b, rest], hi, x);
    }
  }

  // ---------------------------------------------------------------- headers

  ghost function Headers(l: seq<Block>): set<int> {
    set b | b in l :: b.addr
  }

  /** Byte k is in none of these headers. */
  ghost predicate Clear(header: nat, hs: set<int>, k: int) {
    forall a :: a in hs ==> !InHeader(header, a, k)
  }

  /** Every header lies in the pool, clear of every payload. */
  lemma HeadersInPool(header: nat, pool: nat, l: seq<Block>)
    requires Tiled(header, pool, l)
    ensures forall a :: a in Headers(l) ==> 0 <= a && a + header <= pool
    ensures forall b, k :: b in l && InPayload(header, b, k) ==> Clear(header, Headers(l), k)
  {
    forall b | b in l ensures b.addr + header <= pool {
      var i :| 0 <= i < |l| && l[i] == b;
      Inside(header, pool, l, i);
    }
    forall b, k | b in l && InPayload(header, b, k) ensures Clear(header, Headers(l), k) {
      var i :| 0 <= i < |l| && l[i] == b;
      forall a | a in Headers(l) ensures !InHeader(header, a, k) {
        var d :| d in l && d.addr == a;
        var j :| 0 <= j < |l| && l[j] == d;
        PayloadApart(header, l, i, j, k);
      }
    }
  }

  /** An address inside a block is no block's. */
  lemma NewAddr(header: nat, l: seq<Block>, i: nat, x: nat)
    requires Chain(header, l) && i < |l| && l[i].addr < x < End(header, l[i])
    ensures (forall b :: b in l ==> b.addr != x) && Elsewhere(l, i, i + 1, x)
  {
    forall b | b in l ensures b.addr != x {
      var j :| 0 <= j < |l| && l[j] == b;
      if j < i { AddrsGrow(header, l, j, i); }
      if i < j { AddrsGrow(header, l, i, j); }
    }
  }

  /** A header placed inside a block, perhaps over part of its header, is new, and clear of
      every other payload. */
  lemma NewHeader(header: nat, pool: nat, l: seq<Block>, i: nat, x: nat)
    requires Tiled(header, pool, l) && i < |l| && l[i].addr < x && x + header <= End(header, l[i])
    ensures x + header <= pool && (forall b :: b in l ==> b.addr != x) && Elsewhere(l, i, i + 1, x)
    ensures forall b, k :: b in l && b != l[i] && InPayload(header, b, k) ==> !InHeader(header, x, k)
  {
    Inside(header, pool, l, i);
    NewAddr(header, l, i, x);
    forall b, k | b in l && b != l[i] && InPayload(header, b, k) ensures !InHeader(header, x, k) {
      var j :| 0 <= j < |l| && l[j] == b;
      if j < i { AddrsGrow(header, l, j, i); }
      if i < j { AddrsGrow(header, l, i, j); }
    }
  }

  // ----------------------------------------------------------- kept payloads

  /** No payload byte of a block in use, other than the one at a, is in these headers. */
  ghost predicate PayloadsClear(header: nat, l: seq<Block>, a: int, hs: set<int>) {
    forall b, k :: b in l && b.used && b.addr != a && InPayload(header, b, k) ==> Clear(header, hs, k)
  }

  /** Every byte of every block in use, except the one at a, is as it was. */
  ghost predicate PayloadsKept(header: nat, l: seq<Block>, a: int, bytes: seq<bv8>, bytes': seq<bv8>) {
    && |bytes| == |bytes'|
    && forall b, k :: b in l && b.used && b.addr != a && InPayload(header, b, k) && 0 <= k < |bytes| ==>
         bytes'[k] == bytes[k]
  }

  lemma KeptWhenClear(header: nat, l: seq<Block>, a: int, hs: set<int>, bytes: seq<bv8>, bytes': seq<bv8>)
    requires PayloadsClear(header, l, a, hs) && |bytes| == |bytes'|
    requires forall k :: 0 <= k < |bytes| && Clear(header, hs, k) ==> bytes'[k] == bytes[k]
    ensures PayloadsKept(header, l, a, bytes, bytes')
  {
  }

  /** A block that was not in use need not be left out. */
  lemma KeptNowhere(header: nat, l: seq<Block>, a: int, bytes: seq<bv8>, bytes': seq<bv8>)
    requires PayloadsKept(header, l, a, bytes, bytes') && forall b :: b in l && b.used ==> b.addr != a
    ensures PayloadsKept(header, l, NOWHERE, bytes, bytes')
  {
  }

  lemma NothingStored(header: nat, l: seq<Block>, bytes: seq<bv8>)
    ensures PayloadsKept(header, l, NOWHERE, bytes, bytes)
  {
  }

  /** The bytes from lo up to hi are as they were. */
  ghost predicate PrefixKept(lo: nat, hi: nat, bytes: seq<bv8>, bytes': seq<bv8>) {
    |bytes| == |bytes'| && forall k :: lo <= k < hi && k < |bytes| ==> bytes'[k] == bytes[k]
  }

  ghost predicate PrefixClear(header: nat, lo: nat, hi: nat, hs: set<int>) {
    forall k :: lo <= k < hi ==> Clear(header, hs, k)
  }

  lemma PrefixWhenClear(header: nat, lo: nat, hi: nat, hs: set<int>, bytes: seq<bv8>, bytes': seq<bv8>)
    requires |bytes| == |bytes'| && PrefixClear(header, lo, hi, hs)
    requires forall k :: 0 <= k < |bytes| && Clear(header, hs, k) ==> bytes'[k] == bytes[k]
    ensures PrefixKept(lo, hi, bytes, bytes')
  {
  }

  // -------------------------------------------------------- moved payloads

  /** The first n payload bytes of the block at r are those the block at a had. */
  ghost predicate Moved(header: nat, a: nat, r: nat, n: nat, bytes: seq<bv8>, bytes': seq<bv8>) {
    && a + header + n <= |bytes| == |bytes'| && r + header + n <= |bytes|
    && bytes'[r + header..r + header + n] == bytes[a + header..a + header + n]
  }

  lemma PayloadSlice(header: nat, l: seq<Block>, b: Block, a: int, n: nat, bytes: seq<bv8>, bytes': seq<bv8>)
    requires PayloadsKept(header, l, a, bytes, bytes') && b in l && b.used && b.addr != a && n <= b.size
    requires b.addr + header + n <= |bytes|
    ensures bytes'[b.addr + header..b.addr + header + n] == bytes[b.addr + header..b.addr + header + n]
  {
    forall k | b.addr + header <= k < b.addr + header + n ensures bytes'[k] == bytes[k] {
      assert InPayload(header, b, k);
    }
  }

  lemma SamePrefix(header: nat, at: nat, n: nat, bytes: seq<bv8>, bytes': seq<bv8>)
    requires PrefixKept(at + header, at + header + n, bytes, bytes') && at + header + n <= |bytes|
    ensures Moved(header, at, at, n, bytes, bytes')
  {
  }

  /** A block that stays where it is and keeps its bytes. */
  lemma SamePlace(header: nat, l: seq<Block>, i: nat, n: nat, bytes: seq<bv8>, bytes': seq<bv8>)
    requires i < |l| && l[i].used && PayloadsKept(header, l, NOWHERE, bytes, bytes') && n <= l[i].size
    requires l[i].addr + header + l[i].size <= |bytes|
    ensures Moved(header, l[i].addr, l[i].addr, n, bytes, bytes')
    ensures PayloadsKept(header, l, l[i].addr, bytes, bytes')
  {
    PayloadSlice(header, l, l[i], NOWHERE, n, bytes, bytes');
  }

  /** The old and the new block do not overlap. */
  lemma CopyRegions(header: nat, pool: nat, l: seq<Block>, a: nat, r: nat, n: nat)
    requires Tiled(header, pool, l) && Live(l, a) && Live(l, r) && a != r
    requires n <= l[IndexOf(l, a)].size && n <= l[IndexOf(l, r)].size
    ensures a + header + n <= pool && r + header + n <= pool
    ensures r + header + n <= a + header || a + header + n <= r + header
  {
    var i, j := IndexOf(l, a), IndexOf(l, r);
    Inside(header, pool, l, i);
    Inside(header, pool, l, j);
    if i < j { AddrsGrow(header, l, i, j); }
    if j < i { AddrsGrow(header, l, j, i); }
  }

  /** After the copy the new block holds the old one's bytes, which are still there, and so
      are everyone else's. */
  lemma CopyKept(header: nat, pool: nat, l: seq<Block>, l1: seq<Block>, a: nat, r: nat, n: nat,
                 was: seq<bv8>, mid: seq<bv8>, copied: seq<bv8>)
    requires Tiled(header, pool, l1) && Live(l1, r) && a != r && |was| == |mid| == |copied| == pool
    requires Live(l, a) && n <= l[IndexOf(l, a)].size && n <= l1[IndexOf(l1, r)].size
    requires r + header + n <= pool && a + header + n <= pool
    requires KeepsOthers(l, l1, r) && (forall b :: b in l && b.used ==> b.addr != r)
    requires PayloadsKept(header, l, NOWHERE, was, mid)
    requires copied[r + header..r + header + n] == mid[a + header..a + header + n]
    requires forall k :: 0 <= k < pool && !(r + header <= k < r + header + n) ==> copied[k] == mid[k]
    ensures PayloadsKept(header, l, NOWHERE, was, copied)
    ensures Moved(header, a, r, n, was, copied)
  {
    hide IndexOf, Chain;
    var x := l[IndexOf(l, a)];
    assert x in l;
    PayloadSlice(header, l, x, NOWHERE, n, was, mid);
    var j := IndexOf(l1, r);
    forall b, k | b in l && b.used && b.addr != NOWHERE && InPayload(header, b, k) && 0 <= k < |was|
      ensures copied[k] == was[k]
    {
      assert b in l1;
      var i :| 0 <= i < |l1| && l1[i] == b;
      PayloadApart(header, l1, i, j, k);
    }
  }

  /** The copy from an old block to a new one. */
  method CopyBlock(bytes: array<bv8>, header: nat, a: nat, r: nat, n: nat,
                   ghost l: seq<Block>, ghost l1: seq<Block>, ghost was: seq<bv8>)
    requires Tiled(header, bytes.Length, l1) && Live(l1, a) && Live(l1, r) && Live(l, a) && a != r
    requires n <= l1[IndexOf(l1, a)].size && n <= l1[IndexOf(l1, r)].size && n <= l[IndexOf(l, a)].size
    requires KeepsOthers(l, l1, r) && (forall b :: b in l && b.used ==> b.addr != r)
    requires |was| == bytes.Length && PayloadsKept(header, l, NOWHERE, was, bytes[..])
    modifies bytes
    ensures PayloadsKept(header, l, NOWHERE, was, bytes[..]) && Moved(header, a, r, n, was, bytes[..])
  {
    hide Tiled, IndexOf, KeepsOthers, PayloadsKept, Moved;
    ghost var mid := bytes[..];
    CopyRegions(header, bytes.Length, l1, a, r, n);
    Copy(bytes, r + header, a + header, n);
    CopyKept(header, bytes.Length, l, l1, a, r, n, was, mid, bytes[..]);
  }

  /** Freeing the old block leaves the copy and everyone else's bytes alone. */
  lemma MoveKept(header: nat, pool: nat, l: seq<Block>, l1: seq<Block>, a: nat, r: nat, n: nat,
                 was: seq<bv8>, copied: seq<bv8>, now: seq<bv8>)
    requires Tiled(header, pool, l1) && Live(l1, r) && r != a && l1[IndexOf(l1, r)].size >= n
    requires KeepsOthers(l, l1, r) && (forall b :: b in l && b.used ==> b.addr != r)
    requires PayloadsKept(header, l, NOWHERE, was, copied) && Moved(header, a, r, n, was, copied)
    requires PayloadsKept(header, l1, a, copied, now)
    ensures PayloadsKept(header, l, a, was, now) && Moved(header, a, r, n, was, now)
  {
    var d := l1[IndexOf(l1, r)];
    assert d in l1;
    PayloadSlice(header, l1, d, a, n, copied, now);
    forall b, k | b in l && b.used && b.addr != a && InPayload(header, b, k) && 0 <= k < |was|
      ensures now[k] == was[k]
    {
      assert b in l1;
    }
  }
}
