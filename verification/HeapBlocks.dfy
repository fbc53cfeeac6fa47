/** Boundary-tag heaps: a pool cut into consecutive blocks, each a header followed by its
    payload (rt-thread/src/memheap.c, rt-thread/src/mem.c).  Addresses count from the
    start of the pool. */
module HeapBlocks {

  datatype Block = Block(addr: nat, size: nat, used: bool)

  /** Where the block after b starts. */
  function End(header: nat, b: Block): nat { b.addr + header + b.size }

  /** Consecutive blocks touch. */
  ghost predicate Chain(header: nat, l: seq<Block>) {
    forall i :: 0 <= i < |l| - 1 ==> l[i + 1].addr == End(header, l[i])
  }

  /** The blocks cover the pool from 0 on without gap or overlap, and end in a used tail
      with no payload. */
  ghost predicate Tiled(header: nat, pool: nat, l: seq<Block>) {
    && l != [] && header > 0 && Chain(header, l) && l[0].addr == 0
    && var tail := l[|l| - 1]; tail.used && tail.size == 0 && End(header, tail) == pool
  }

  ghost predicate NoTwoFree(l: seq<Block>) {
    forall i :: 0 <= i < |l| - 1 ==> l[i].used || l[i + 1].used
  }

  function FreeSum(l: seq<Block>): nat {
    if l == [] then 0 else (if l[0].used then 0 else l[0].size) + FreeSum(l[1..])
  }

  /** Replacing the blocks from lo up to hi. */
  function Splice(l: seq<Block>, lo: nat, mid: seq<Block>, hi: nat): seq<Block>
    requires lo <= hi <= |l|
  {
    l[..lo] + (mid + l[hi..])
  }

  lemma SpliceAt(l: seq<Block>, lo: nat, mid: seq<Block>, hi: nat, k: nat)
    requires lo <= hi <= |l| && k < lo + |mid| + (|l| - hi)
    ensures |Splice(l, lo, mid, hi)| == lo + |mid| + (|l| - hi)
    ensures Splice(l, lo, mid, hi)[k] ==
      if k < lo then l[k] else if k < lo + |mid| then mid[k - lo] else l[k - lo - |mid| + hi]
  {
  }

  // ------------------------------------------------------------ addresses

  lemma {:induction false} AddrsGrow(header: nat, l: seq<Block>, i: nat, j: nat)
    requires Chain(header, l) && i < j < |l|
    ensures End(header, l[i]) <= l[j].addr
    decreases j
  {
    if i + 1 < j { AddrsGrow(header, l, i, j - 1); }
    assert l[j - 1 + 1].addr == End(header, l[j - 1]);
  }

  lemma AddrsDistinct(header: nat, l: seq<Block>, i: nat, j: nat)
    requires Chain(header, l) && header > 0 && i < |l| && j < |l| && l[i].addr == l[j].addr
    ensures i == j
  {
    if i < j { AddrsGrow(header, l, i, j); }
    if j < i { AddrsGrow(header, l, j, i); }
  }

  /** Every block lies inside the pool. */
  lemma Inside(header: nat, pool: nat, l: seq<Block>, i: nat)
    requires Tiled(header, pool, l) && i < |l|
    ensures End(header, l[i]) <= pool
    ensures i < |l| - 1 ==> End(header, l[i]) + header <= pool
  {
    if i < |l| - 1 { AddrsGrow(header, l, i, |l| - 1); }
  }

  ghost predicate InHeader(header: nat, a: int, k: int) { a <= k < a + header }

  ghost predicate InPayload(header: nat, b: Block, k: int) { b.addr + header <= k < End(header, b) }

  /** Blocks do not overlap: no byte of a payload is in any header or any other payload. */
  lemma PayloadApart(header: nat, l: seq<Block>, i: nat, j: nat, k: int)
    requires Chain(header, l) && header > 0 && i < |l| && j < |l| && InPayload(header, l[i], k)
    ensures !InHeader(header, l[j].addr, k)
    ensures i != j ==> !InPayload(header, l[j], k)
  {
    if i < j { AddrsGrow(header, l, i, j); }
    if j < i { AddrsGrow(header, l, j, i); }
  }

  /** The index of the block at an address. */
  function IndexOf(l: seq<Block>, a: nat): (i: nat)
    ensures i <= |l| && (i < |l| ==> l[i].addr == a)
    ensures i == |l| ==> forall k :: 0 <= k < |l| ==> l[k].addr != a
  {
    if l == [] then 0 else if l[0].addr == a then 0 else
      assert forall k :: 1 <= k < |l| ==> l[k] == l[1..][k - 1];
      1 + IndexOf(l[1..], a)
  }

  lemma IndexOfExact(header: nat, l: seq<Block>, i: nat)
    requires Chain(header, l) && header > 0 && i < |l|
    ensures IndexOf(l, l[i].addr) == i
  {
    AddrsDistinct(header, l, IndexOf(l, l[i].addr), i);
  }

  // -------------------------------------------------------------- splicing

  lemma SpliceTiled(header: nat, pool: nat, l: seq<Block>, lo: nat, mid: seq<Block>, hi: nat)
    requires Tiled(header, pool, l) && lo < hi < |l| && mid != [] && Chain(header, mid)
    requires mid[0].addr == l[lo].addr && End(header, mid[|mid| - 1]) == End(header, l[hi - 1])
    ensures Tiled(header, pool, Splice(l, lo, mid, hi))
  {
    var r := Splice(l, lo, mid, hi);
    assert r[|r| - 1] == l[|l| - 1];
    forall k | 0 <= k < |r| - 1 ensures r[k + 1].addr == End(header, r[k]) {
      SpliceAt(l, lo, mid, hi, k);
      SpliceAt(l, lo, mid, hi, k + 1);
      assert k < lo - 1 ==> l[k + 1].addr == End(header, l[k]);
      assert k == lo - 1 ==> l[k + 1].addr == End(header, l[k]);
      assert lo <= k < lo + |mid| - 1 ==> mid[k - lo + 1].addr == End(header, mid[k - lo]);
      assert k == lo + |mid| - 1 ==> l[hi - 1 + 1].addr == End(header, l[hi - 1]);
      assert k >= lo + |mid| ==> l[k - lo - |mid| + hi + 1].addr == End(header, l[k - lo - |mid| + hi]);
    }
  }

  lemma SpliceNoTwoFree(l: seq<Block>, lo: nat, mid: seq<Block>, hi: nat)
    requires NoTwoFree(l) && lo <= hi <= |l| && mid != [] && NoTwoFree(mid)
    requires lo > 0 ==> l[lo - 1].used || mid[0].used
    requires hi < |l| ==> mid[|mid| - 1].used || l[hi].used
    ensures NoTwoFree(Splice(l, lo, mid, hi))
  {
    var r := Splice(l, lo, mid, hi);
    forall k | 0 <= k < |r| - 1 ensures r[k].used || r[k + 1].used {
      SpliceAt(l, lo, mid, hi, k);
      SpliceAt(l, lo, mid, hi, k + 1);
      assert k < lo - 1 ==> l[k].used || l[k + 1].used;
      assert lo <= k < lo + |mid| - 1 ==> mid[k - lo].used || mid[k - lo + 1].used;
      assert k >= lo + |mid| ==> l[k - lo - |mid| + hi].used || l[k - lo - |mid| + hi + 1].used;
    }
  }

  lemma {:induction false} FreeSumConcat(a: seq<Block>, b: seq<Block>)
    ensures FreeSum(a + b) == FreeSum(a) + FreeSum(b)
  {
    if a == [] {
      assert a + b == b;
    } else {
      assert (a + b)[1..] == a[1..] + b;
      FreeSumConcat(a[1..], b);
    }
  }

  lemma SpliceFreeSum(l: seq<Block>, lo: nat, mid: seq<Block>, hi: nat)
    requires lo <= hi <= |l|
    ensures FreeSum(Splice(l, lo, mid, hi)) == FreeSum(l) - FreeSum(l[lo..hi]) + FreeSum(mid)
  {
    FreeSumConcat(l[..lo], mid + l[hi..]);
    FreeSumConcat(mid, l[hi..]);
    assert l == l[..lo] + (l[lo..hi] + l[hi..]);
    FreeSumConcat(l[..lo], l[lo..hi] + l[hi..]);
    FreeSumConcat(l[lo..hi], l[hi..]);
  }

  lemma FreeSumOne(b: Block)
    ensures FreeSum([b]) == if b.used then 0 else b.size
  {
    assert [b][1..] == [];
  }

  lemma FreeSumTwo(a: Block, b: Block)
    ensures FreeSum([a, b]) == FreeSum([a]) + FreeSum([b])
  {
    assert [a, b] == [a] + [b];
    FreeSumConcat([a], [b]);
  }

  lemma {:induction false} FreeSumBounds(l: seq<Block>, i: nat)
    requires i < |l| && !l[i].used
    ensures l[i].size <= FreeSum(l)
  {
    if i > 0 { FreeSumBounds(l[1..], i - 1); }
  }

  lemma ChainTail(header: nat, l: seq<Block>)
    requires Chain(header, l) && l != []
    ensures Chain(header, l[1..])
  {
    forall i | 0 <= i < |l[1..]| - 1 ensures l[1..][i + 1].addr == End(header, l[1..][i]) {
      assert l[i + 1 + 1].addr == End(header, l[i + 1]);
    }
  }

  /** Free blocks take up no more than there is. */
  lemma {:induction false} FreeSumWithin(header: nat, l: seq<Block>)
    requires Chain(header, l) && l != []
    ensures FreeSum(l) <= End(header, l[|l| - 1]) - l[0].addr
    decreases |l|
  {
    if |l| > 1 {
      assert l[0 + 1].addr == End(header, l[0]);
      ChainTail(header, l);
      FreeSumWithin(header, l[1..]);
    }
  }

  // ------------------------------------------------------------ free blocks

  ghost predicate HasAddr(l: seq<Block>, a: nat) { exists b :: b in l && b.addr == a }

  ghost predicate IsFree(l: seq<Block>, a: nat) { exists b :: b in l && b.addr == a && !b.used }

  lemma InSplice(l: seq<Block>, lo: nat, mid: seq<Block>, hi: nat, b: Block)
    requires lo <= hi <= |l|
    ensures b in Splice(l, lo, mid, hi) <==> b in l[..lo] || b in mid || b in l[hi..]
    ensures b in l <==> b in l[..lo] || b in l[lo..hi] || b in l[hi..]
  {
    assert l == l[..lo] + (l[lo..hi] + l[hi..]);
  }

  /** Blocks of a part of the pool have their addresses to themselves. */
  lemma PartsApart(header: nat, l: seq<Block>, lo: nat, hi: nat, b: Block, x: Block)
    requires Chain(header, l) && header > 0 && lo <= hi <= |l|
    requires b in l[..lo] || b in l[hi..]
    requires x in l[lo..hi]
    ensures b.addr != x.addr
  {
    var j :| 0 <= j < |l[lo..hi]| && l[lo..hi][j] == x;
    if b in l[..lo] {
      var i :| 0 <= i < lo && l[..lo][i] == b;
      AddrsGrow(header, l, i, lo + j);
    } else {
      var i :| 0 <= i < |l[hi..]| && l[hi..][i] == b;
      AddrsGrow(header, l, lo + j, hi + i);
    }
  }

  /** Which addresses are free after a splice. */
  lemma SpliceFree(header: nat, l: seq<Block>, lo: nat, mid: seq<Block>, hi: nat, a: nat)
    requires Chain(header, l) && header > 0 && lo <= hi <= |l|
    ensures IsFree(Splice(l, lo, mid, hi), a) <==> IsFree(mid, a) || (IsFree(l, a) && !HasAddr(l[lo..hi], a))
  {
    var r := Splice(l, lo, mid, hi);
    if IsFree(r, a) && !IsFree(mid, a) {
      var b :| b in r && b.addr == a && !b.used;
      InSplice(l, lo, mid, hi, b);
      forall x | x in l[lo..hi] ensures x.addr != a { PartsApart(header, l, lo, hi, b, x); }
    }
    if IsFree(mid, a) {
      var b :| b in mid && b.addr == a && !b.used;
      InSplice(l, lo, mid, hi, b);
    }
    if IsFree(l, a) && !HasAddr(l[lo..hi], a) {
      var b :| b in l && b.addr == a && !b.used;
      InSplice(l, lo, mid, hi, b);
    }
  }

  lemma FreeAt(header: nat, l: seq<Block>, i: nat)
    requires Chain(header, l) && header > 0 && i < |l|
    ensures IsFree(l, l[i].addr) <==> !l[i].used
  {
    if IsFree(l, l[i].addr) {
      var b :| b in l && b.addr == l[i].addr && !b.used;
      var j :| 0 <= j < |l| && l[j] == b;
      AddrsDistinct(header, l, i, j);
    } else {
      assert l[i] in l;
    }
  }

  ghost predicate UsedMin(min: nat, l: seq<Block>) {
    forall i :: 0 <= i < |l| - 1 && l[i].used ==> l[i].size >= min
  }

  lemma SpliceUsedMin(min: nat, l: seq<Block>, lo: nat, mid: seq<Block>, hi: nat)
    requires UsedMin(min, l) && lo <= hi < |l|
    requires forall k :: 0 <= k < |mid| && mid[k].used ==> mid[k].size >= min
    ensures UsedMin(min, Splice(l, lo, mid, hi))
  {
    var r := Splice(l, lo, mid, hi);
    forall k | 0 <= k < |r| - 1 && r[k].used ensures r[k].size >= min {
      SpliceAt(l, lo, mid, hi, k);
    }
  }

  lemma OneBlock(b: Block, a: nat)
    ensures HasAddr([b], a) <==> a == b.addr
    ensures IsFree([b], a) <==> a == b.addr && !b.used
  {
    assert b in [b];
  }

  lemma TwoBlocks(b: Block, d: Block, a: nat)
    ensures HasAddr([b, d], a) <==> a == b.addr || a == d.addr
    ensures IsFree([b, d], a) <==> (a == b.addr && !b.used) || (a == d.addr && !d.used)
  {
    assert b in [b, d] && d in [b, d];
  }

  lemma LeftOfFree(l: seq<Block>, i: nat)
    requires NoTwoFree(l) && i < |l| && !l[i].used
    ensures i > 0 ==> l[i - 1].used
    ensures i < |l| - 1 ==> l[i + 1].used
  {
    if i > 0 {
      var before, here := l[i - 1].used, l[i - 1 + 1].used;
      assert before || here;
    }
  }

  /** Undoing a splice of one block. */
  lemma SpliceBack(l: seq<Block>, i: nat, mid: seq<Block>)
    requires i < |l| - 1 && mid != []
    ensures var l' := Splice(l, i, mid, i + 1);
      && |l'| == |l| - 1 + |mid|
      && (forall k :: 0 <= k < |mid| ==> l'[i + k] == mid[k])
      && (i > 0 ==> l'[i - 1] == l[i - 1]) && l'[i + |mid|] == l[i + 1]
      && Splice(l', i, [l[i]], i + |mid|) == l
  {
    var l' := Splice(l, i, mid, i + 1);
    assert l'[i + |mid|..] == l[i + 1..] && l'[..i] == l[..i];
    assert l == l[..i] + ([l[i]] + l[i + 1..]);
  }

  // -------------------------------------------------------- blocks in use

  /** The address of a block in use: what a caller may pass to free and realloc is this
      plus the header size. */
  ghost predicate Live(l: seq<Block>, a: nat) {
    var i := IndexOf(l, a); i < |l| - 1 && l[i].used
  }

  /** Every block in use, except perhaps the one at a, is still there as it was. */
  ghost predicate KeepsOthers(l: seq<Block>, l': seq<Block>, a: nat) {
    forall b :: b in l && b.used && b.addr != a ==> b in l'
  }

  // ------------------------------------------------------------- merging

  /** A block being freed merges with a free neighbour on either side. */
  predicate MergesLeft(l: seq<Block>, i: nat)
    requires i < |l|
  {
    i > 0 && !l[i - 1].used
  }

  predicate MergesRight(l: seq<Block>, i: nat)
    requires i + 1 < |l|
  {
    !l[i + 1].used
  }

  function FreeLo(l: seq<Block>, i: nat): nat
    requires i < |l|
  {
    if MergesLeft(l, i) then i - 1 else i
  }

  function FreeHi(l: seq<Block>, i: nat): nat
    requires i + 1 < |l|
  {
    if MergesRight(l, i) then i + 2 else i + 1
  }

  function Merged(header: nat, l: seq<Block>, i: nat): Block
    requires i + 1 < |l|
  {
    Block(l[FreeLo(l, i)].addr,
          (if MergesLeft(l, i) then l[i - 1].size + header else 0) + l[i].size
          + (if MergesRight(l, i) then header + l[i + 1].size else 0),
          false)
  }
}
