/** What freeing, cutting and moving a block do to the other blocks, in both boundary-tag
    heaps (rt-thread/src/memheap.c, rt-thread/src/mem.c). */
module HeapEffects {
  import opened HeapBlocks

  /** The part of a free that both heaps share: the block at index i and its free neighbours
      become one free block. */
  function Freed(header: nat, l: seq<Block>, i: nat): seq<Block>
    requires i + 1 < |l|
  {
    Splice(l, FreeLo(l, i), [Merged(header, l, i)], FreeHi(l, i))
  }

  // --------------------------------------------------------- who is in use

  lemma LiveNotFree(header: nat, pool: nat, l: seq<Block>, a: nat)
    requires Tiled(header, pool, l) && IsFree(l, a)
    ensures forall b :: b in l && b.used ==> b.addr != a
  {
    forall b | b in l && b.used ensures b.addr != a {
      var i :| 0 <= i < |l| && l[i] == b;
      FreeAt(header, l, i);
    }
  }

  /** A block in use that is found in another heap is live there. */
  lemma KeptIsLive(header: nat, pool: nat, l: seq<Block>, b: Block)
    requires Tiled(header, pool, l) && b in l && b.used && b.size > 0
    ensures Live(l, b.addr) && l[IndexOf(l, b.addr)] == b
  {
    var j :| 0 <= j < |l| && l[j] == b;
    IndexOfExact(header, l, j);
  }

  lemma LiveBlock(header: nat, pool: nat, min: nat, l: seq<Block>, a: nat)
    requires Tiled(header, pool, l) && UsedMin(min, l) && Live(l, a)
    ensures var b := l[IndexOf(l, a)];
      b in l && b.used && b.size >= min && b.addr == a && !IsFree(l, a)
  {
    FreeAt(header, l, IndexOf(l, a));
  }

  /** The tail keeps its address. */
  lemma TailAddr(header: nat, pool: nat, l: seq<Block>, l': seq<Block>, a: nat)
    requires Tiled(header, pool, l) && Tiled(header, pool, l') && Live(l, a)
    ensures l[|l| - 1].addr == l'[|l'| - 1].addr > a
  {
    AddrsGrow(header, l, IndexOf(l, a), |l| - 1);
  }

  // --------------------------------------------------------------- freeing

  /** Freeing keeps the pool tiled and leaves no two free neighbours. */
  lemma FreedShape(header: nat, pool: nat, min: nat, l: seq<Block>, i: nat)
    requires Tiled(header, pool, l) && NoTwoFree(l) && UsedMin(min, l) && i + 1 < |l| && l[i].used
    ensures Tiled(header, pool, Freed(header, l, i)) && NoTwoFree(Freed(header, l, i))
    ensures UsedMin(min, Freed(header, l, i))
  {
    var lo, hi, b := FreeLo(l, i), FreeHi(l, i), Merged(header, l, i);
    assert l[i + 1].addr == End(header, l[i]);
    if MergesLeft(l, i) {
      LeftOfFree(l, i - 1);
      assert l[i - 1 + 1].addr == End(header, l[i - 1]);
    }
    if MergesRight(l, i) {
      LeftOfFree(l, i + 1);
      assert i + 1 < |l| - 1;
    }
    SpliceTiled(header, pool, l, lo, [b], hi);
    SpliceNoTwoFree(l, lo, [b], hi);
    SpliceUsedMin(min, l, lo, [b], hi);
  }

  /** What a free replaces, apart from the block itself, was free already. */
  lemma FreedSegment(l: seq<Block>, i: nat)
    requires i + 1 < |l|
    ensures forall b :: b in l[FreeLo(l, i)..FreeHi(l, i)] && b != l[i] ==> !b.used
  {
    var lo, hi := FreeLo(l, i), FreeHi(l, i);
    forall b | b in l[lo..hi] && b != l[i] ensures !b.used {
      var k :| 0 <= k < hi - lo && l[lo..hi][k] == b;
    }
  }

  lemma FreedOthers(header: nat, l: seq<Block>, i: nat)
    requires i + 1 < |l|
    ensures KeepsOthers(l, Freed(header, l, i), l[i].addr) && KeepsOthers(Freed(header, l, i), l, l[i].addr)
  {
    var lo, mid, hi := FreeLo(l, i), [Merged(header, l, i)], FreeHi(l, i);
    var l' := Freed(header, l, i);
    FreedSegment(l, i);
    forall x | x in l && x.used && x.addr != l[i].addr ensures x in l' {
      InSplice(l, lo, mid, hi, x);
    }
    forall x | x in l' && x.used ensures x in l {
      InSplice(l, lo, mid, hi, x);
    }
  }

  lemma FreedNotLive(header: nat, pool: nat, l: seq<Block>, i: nat)
    requires Tiled(header, pool, l) && i + 1 < |l| && Tiled(header, pool, Freed(header, l, i))
    ensures !Live(Freed(header, l, i), l[i].addr)
  {
    var l', a, lo := Freed(header, l, i), l[i].addr, FreeLo(l, i);
    SpliceAt(l, lo, [Merged(header, l, i)], FreeHi(l, i), lo);
    if MergesLeft(l, i) {
      assert l[i - 1 + 1].addr == End(header, l[i - 1]);
      var k := IndexOf(l', a);
      if k < |l'| {
        if k < lo { AddrsGrow(header, l', k, lo); }
        if lo < k { AddrsGrow(header, l', lo, k); }
      }
    } else {
      IndexOfExact(header, l', i);
    }
  }

  /** The neighbours a free merges with. */
  function Left(l: seq<Block>, i: nat): seq<Block>
    requires i + 1 < |l|
  {
    if MergesLeft(l, i) then [l[i - 1]] else []
  }

  function Right(l: seq<Block>, i: nat): seq<Block>
    requires i + 1 < |l|
  {
    if MergesRight(l, i) then [l[i + 1]] else []
  }

  lemma FreedPart(l: seq<Block>, i: nat)
    requires i + 1 < |l|
    ensures l[FreeLo(l, i)..FreeHi(l, i)] == Left(l, i) + ([l[i]] + Right(l, i))
  {
  }

  lemma FreedPartSum(l: seq<Block>, i: nat)
    requires i + 1 < |l| && l[i].used
    ensures FreeSum(l[FreeLo(l, i)..FreeHi(l, i)]) ==
      (if MergesLeft(l, i) then l[i - 1].size else 0) + (if MergesRight(l, i) then l[i + 1].size else 0)
  {
    FreedPart(l, i);
    FreeSumConcat(Left(l, i), [l[i]] + Right(l, i));
    FreeSumConcat([l[i]], Right(l, i));
    FreeSumOne(l[i]);
    FreeSumOne(l[i + 1]);
    if MergesLeft(l, i) { FreeSumOne(l[i - 1]); }
  }

  /** What a free adds to the free space: the block, and the headers it swallows. */
  lemma FreedSum(header: nat, l: seq<Block>, i: nat)
    requires i + 1 < |l| && l[i].used
    ensures FreeSum(Freed(header, l, i)) ==
      FreeSum(l) + l[i].size + (if MergesLeft(l, i) then header else 0) + (if MergesRight(l, i) then header else 0)
  {
    hide FreeSum, Splice;
    var b := Merged(header, l, i);
    SpliceFreeSum(l, FreeLo(l, i), [b], FreeHi(l, i));
    FreeSumOne(b);
    FreedPartSum(l, i);
  }

  /** Which addresses are free after a free. */
  lemma FreedFree(header: nat, l: seq<Block>, i: nat, a: nat)
    requires Chain(header, l) && header > 0 && i + 1 < |l|
    ensures IsFree(Freed(header, l, i), a) <==>
      (IsFree(l, a) && !(MergesRight(l, i) && a == l[i + 1].addr) && a != l[i].addr)
      || (!MergesLeft(l, i) && a == l[i].addr)
  {
    var lo, hi, b := FreeLo(l, i), FreeHi(l, i), Merged(header, l, i);
    SpliceFree(header, l, lo, [b], hi, a);
    OneBlock(b, a);
    forall x ensures x in l[lo..hi] <==>
      x == l[i] || (MergesLeft(l, i) && x == l[i - 1]) || (MergesRight(l, i) && x == l[i + 1])
    {
      FreedPart(l, i);
    }
    if MergesLeft(l, i) {
      FreeAt(header, l, i - 1);
      AddrsGrow(header, l, i - 1, i);
      AddrsGrow(header, l, i - 1, i + 1);
    }
  }

  // -------------------------------------------------------------- resizing

  /** What became of the block at a: everything else in use is as it was, and the block
      answering the request is in use and big enough. */
  ghost predicate Answered(l: seq<Block>, l': seq<Block>, a: nat, r: nat, size: nat) {
    && Live(l', r) && l'[IndexOf(l', r)].size >= size
    && (forall b :: b in l && b.used && b.addr != a ==> b in l' && b.addr != r)
    && (forall b :: b in l' && b.used && b.addr != r ==> b in l && b.addr != a)
  }

  /** A splice that changes the block at index i and free blocks only. */
  lemma SameBlockAnswers(header: nat, pool: nat, l: seq<Block>, l': seq<Block>, i: nat, mid: seq<Block>, hi: nat,
                         size: nat)
    requires Tiled(header, pool, l) && Tiled(header, pool, l') && i < hi < |l| && l' == Splice(l, i, mid, hi)
    requires |mid| == 2 && mid[0] == l[i].(size := size) && l[i].used && !mid[1].used
    requires forall k :: i < k < hi ==> !l[k].used
    ensures Answered(l, l', l[i].addr, l[i].addr, size)
  {
    SpliceAt(l, i, mid, hi, i);
    SpliceAt(l, i, mid, hi, i + 1);
    IndexOfExact(header, l', i);
    forall x | x in l && x.used && x.addr != l[i].addr ensures x in l' {
      InSplice(l, i, mid, hi, x);
    }
    forall x | x in l' && x.used && x.addr != l[i].addr ensures x in l {
      InSplice(l, i, mid, hi, x);
    }
  }

  /** An allocation of the block at r, then a free of the one at a. */
  lemma MoveAnswers(header: nat, pool: nat, l: seq<Block>, l1: seq<Block>, l2: seq<Block>, a: nat, r: nat, size: nat)
    requires Tiled(header, pool, l) && Tiled(header, pool, l1) && Tiled(header, pool, l2)
    requires Live(l, a) && Live(l1, r) && r != a && !Live(l2, a)
    requires KeepsOthers(l, l1, r) && KeepsOthers(l1, l, r) && KeepsOthers(l1, l2, a) && KeepsOthers(l2, l1, a)
    requires forall b :: b in l && b.used ==> b.addr != r
    requires l1[IndexOf(l1, r)].size >= size > 0
    ensures Answered(l, l2, a, r, size)
  {
    var d := l1[IndexOf(l1, r)];
    assert d in l1;
    KeptIsLive(header, pool, l2, d);
    TailAddr(header, pool, l, l2, a);
    forall b | b in l2 && b.used && b.addr != r ensures b in l && b.addr != a {
      var m :| 0 <= m < |l2| && l2[m] == b;
      IndexOfExact(header, l2, m);
    }
  }

  // ------------------------------------------- the blocks in use say it all

  /** The blocks in use afterwards: those of before without `gone`, and `come`. */
  ghost predicate InUseAfter(l: seq<Block>, l': seq<Block>, gone: set<Block>, come: set<Block>) {
    forall b: Block :: b.used ==> (b in l' <==> (b in l && b !in gone) || b in come)
  }

  /** Two heaps with the same blocks in use are the same: between two blocks in use the gap
      is one free block. */
  lemma InUseDetermines(header: nat, pool: nat, l: seq<Block>, l': seq<Block>)
    requires Tiled(header, pool, l) && NoTwoFree(l) && Tiled(header, pool, l') && NoTwoFree(l')
    requires InUseAfter(l, l', {}, {})
    ensures l == l'
  {
    EqualPrefix(header, pool, l, l', |l|);
    if |l| < |l'| { Inside(header, pool, l', |l| - 1); }
  }

  lemma {:induction false} EqualPrefix(header: nat, pool: nat, l: seq<Block>, l': seq<Block>, k: nat)
    requires Tiled(header, pool, l) && NoTwoFree(l) && Tiled(header, pool, l') && NoTwoFree(l')
    requires InUseAfter(l, l', {}, {}) && k <= |l|
    ensures k <= |l'| && l[..k] == l'[..k]
  {
    hide Tiled, NoTwoFree, InUseAfter;
    if k > 0 {
      EqualPrefix(header, pool, l, l', k - 1);
      EqualNext(header, pool, l, l', k - 1);
    }
  }

  lemma EqualNext(header: nat, pool: nat, l: seq<Block>, l': seq<Block>, k: nat)
    requires Tiled(header, pool, l) && NoTwoFree(l) && Tiled(header, pool, l') && NoTwoFree(l')
    requires InUseAfter(l, l', {}, {}) && k < |l| && k <= |l'| && l[..k] == l'[..k]
    ensures k < |l'| && l[k] == l'[k]
  {
    EqualStart(header, pool, l, l', k);
    if l[k].used {
      EqualUsed(header, l, l', k);
    } else if l'[k].used {
      EqualUsed(header, l', l, k);
    } else {
      LeftOfFree(l, k);
      LeftOfFree(l', k);
      GapNotLonger(header, l, l', k);
      GapNotLonger(header, l', l, k);
    }
  }

  lemma EqualStart(header: nat, pool: nat, l: seq<Block>, l': seq<Block>, k: nat)
    requires Tiled(header, pool, l) && Tiled(header, pool, l') && k < |l| && k <= |l'| && l[..k] == l'[..k]
    ensures k < |l'| && l[k].addr == l'[k].addr
  {
    if k > 0 {
      assert l[k - 1] == l[..k][k - 1] == l'[..k][k - 1] == l'[k - 1];
      assert l[k - 1 + 1].addr == End(header, l[k - 1]);
      Inside(header, pool, l, k - 1);
      if k < |l'| { assert l'[k - 1 + 1].addr == End(header, l'[k - 1]); }
    }
  }

  lemma EqualUsed(header: nat, l: seq<Block>, l': seq<Block>, k: nat)
    requires Chain(header, l') && header > 0 && InUseAfter(l, l', {}, {})
    requires k < |l| && k < |l'| && l[k].used && l[k].addr == l'[k].addr
    ensures l[k] == l'[k]
  {
    assert l[k] in l && l[k] in l';
    var j :| 0 <= j < |l'| && l'[j] == l[k];
    AddrsDistinct(header, l', j, k);
  }

  /** The block in use behind a free one is in the other heap too, no nearer. */
  lemma GapNotLonger(header: nat, l: seq<Block>, l': seq<Block>, k: nat)
    requires Chain(header, l) && Chain(header, l') && header > 0 && InUseAfter(l, l', {}, {})
    requires k + 1 < |l| && k < |l'| && l[k].addr == l'[k].addr && !l'[k].used && l[k + 1].used
    ensures l'[k].size <= l[k].size
  {
    assert l[k + 1] in l && l[k + 1] in l';
    assert l[k + 1].addr == End(header, l[k]);
    var j :| 0 <= j < |l'| && l'[j] == l[k + 1];
    if j < k { AddrsGrow(header, l', j, k); }
    if j > k { AddrsGrow(header, l', k, j); }
  }

  /** What `KeepsOthers` says of a splice that gives up or takes one block at one address. */
  lemma OneTaken(header: nat, l: seq<Block>, l': seq<Block>, d: Block)
    requires KeepsOthers(l, l', d.addr) && KeepsOthers(l', l, d.addr)
    requires d in l' && d.used && Chain(header, l') && header > 0
    requires forall b :: b in l && b.used ==> b.addr != d.addr
    ensures InUseAfter(l, l', {}, {d})
  {
    forall b: Block | b.used ensures b in l' <==> b in l || b in {d} {
      if b in l' && b.addr == d.addr { SameAddress(header, l', b, d); }
    }
  }

  lemma OneGone(header: nat, l: seq<Block>, l': seq<Block>, d: Block)
    requires KeepsOthers(l, l', d.addr) && KeepsOthers(l', l, d.addr)
    requires d in l && Chain(header, l) && header > 0
    requires forall b :: b in l' && b.used ==> b.addr != d.addr
    ensures InUseAfter(l, l', {d}, {})
  {
    forall b: Block | b.used ensures b in l' <==> b in l && b !in {d} {
      if b in l && b.addr == d.addr { SameAddress(header, l, b, d); }
    }
  }

  /** A free gives up one block. */
  lemma FreedGone(header: nat, pool: nat, l: seq<Block>, i: nat)
    requires i + 1 < |l| && l[i].used && Tiled(header, pool, l) && Tiled(header, pool, Freed(header, l, i))
    ensures InUseAfter(l, Freed(header, l, i), {l[i]}, {})
  {
    hide Freed, KeepsOthers, InUseAfter, Live;
    var l' := Freed(header, l, i);
    FreedOthers(header, l, i);
    FreedNotLive(header, pool, l, i);
    TailAbove(header, pool, l, l', i);
    forall b | b in l' && b.used ensures b.addr != l[i].addr { NotAt(header, l', l[i].addr, b); }
    OneGone(header, l, l', l[i]);
  }

  lemma TailAbove(header: nat, pool: nat, l: seq<Block>, l': seq<Block>, i: nat)
    requires Tiled(header, pool, l) && Tiled(header, pool, l') && i < |l| - 1
    ensures l'[|l'| - 1].addr > l[i].addr
  {
    Inside(header, pool, l, i);
  }

  lemma NotAt(header: nat, l: seq<Block>, a: nat, b: Block)
    requires Chain(header, l) && header > 0 && l != [] && l[|l| - 1].addr > a && !Live(l, a) && b in l && b.used
    ensures b.addr != a
  {
    var j :| 0 <= j < |l| && l[j] == b;
    IndexOfExact(header, l, j);
  }

  lemma OneResized(header: nat, l: seq<Block>, l': seq<Block>, b: Block, d: Block)
    requires Chain(header, l) && Chain(header, l') && header > 0 && b in l && d in l' && d.used && b.addr == d.addr
    requires forall x :: x in l && x.used && x.addr != d.addr ==> x in l'
    requires forall x :: x in l' && x.used && x.addr != d.addr ==> x in l
    ensures InUseAfter(l, l', {b}, {d})
  {
    forall x: Block | x.used ensures x in l' <==> (x in l && x !in {b}) || x in {d} {
      if x in l' && x.addr == d.addr { SameAddress(header, l', x, d); }
      if x in l && x.addr == d.addr { SameAddress(header, l, x, b); }
    }
  }

  lemma AnsweredInUse(header: nat, pool: nat, l: seq<Block>, l': seq<Block>, i: nat, size: nat)
    requires Tiled(header, pool, l) && Tiled(header, pool, l') && i < |l| && i < |l'|
    requires Answered(l, l', l[i].addr, l[i].addr, size) && l'[i] == Block(l[i].addr, size, true)
    ensures InUseAfter(l, l', {l[i]}, {Block(l[i].addr, size, true)})
  {
    assert l[i] in l && l'[i] in l';
    OneResized(header, l, l', l[i], l'[i]);
  }

  lemma SameAddress(header: nat, l: seq<Block>, b: Block, d: Block)
    requires Chain(header, l) && header > 0 && b in l && d in l && b.addr == d.addr
    ensures b == d
  {
    var i :| 0 <= i < |l| && l[i] == b;
    var j :| 0 <= j < |l| && l[j] == d;
    AddrsDistinct(header, l, i, j);
  }
}
