/** The links between neighbouring headers, as sequences of addresses
    (rt-thread/src/memheap.c, rt-thread/src/mem.c). */
module HeapLinks {
  import opened HeapBlocks
  import opened HeapBytes
  import opened HeapEffects
  import opened Rings

  ghost function Addrs(l: seq<Block>): seq<int> {
    seq(|l|, i requires 0 <= i < |l| => l[i].addr)
  }

  lemma AddrsSplit(l: seq<Block>, i: nat, b: Block, rest: Block)
    requires i < |l| && b.addr == l[i].addr
    ensures Addrs(Splice(l, i, [b, rest], i + 1)) == Inserted(Addrs(l), i, rest.addr)
  {
  }

  lemma AddrsSame(l: seq<Block>, i: nat, b: Block)
    requires i < |l| && b.addr == l[i].addr
    ensures Addrs(Splice(l, i, [b], i + 1)) == Addrs(l)
  {
  }

  lemma AddrsMerged(l: seq<Block>, lo: nat, b: Block, hi: nat)
    requires lo < hi <= |l| && b.addr == l[lo].addr
    ensures Addrs(Splice(l, lo, [b], hi)) == Addrs(l)[..lo + 1] + Addrs(l)[hi..]
  {
  }

  /** The addresses after a free of the block at index i. */
  ghost function FreedRing(l: seq<int>, i: nat, left: bool, right: bool): seq<int>
    requires i + 1 < |l|
  {
    var l' := if left then Removed(l, i) else l;
    if right then Removed(l', if left then i else i + 1) else l'
  }

  lemma FreedRingValue(l: seq<int>, i: nat, left: bool, right: bool)
    requires i + 1 < |l| && (left ==> i > 0)
    ensures FreedRing(l, i, left, right) == l[..if left then i else i + 1] + l[if right then i + 2 else i + 1..]
  {
  }

  lemma MergedRing(header: nat, l: seq<Block>, i: nat)
    requires i + 1 < |l|
    ensures Addrs(Freed(header, l, i)) == FreedRing(Addrs(l), i, MergesLeft(l, i), MergesRight(l, i))
  {
    AddrsMerged(l, FreeLo(l, i), Merged(header, l, i), FreeHi(l, i));
    FreedRingValue(Addrs(l), i, MergesLeft(l, i), MergesRight(l, i));
  }

  lemma MergedFlags(header: nat, l: seq<Block>, used: map<int, bool>, i: nat)
    requires Chain(header, l) && header > 0 && i + 1 < |l| && FlagsOk(used, l)
    ensures FlagsOk(used[l[i].addr := false], Freed(header, l, i))
  {
    var at, lo, hi, b := l[i].addr, FreeLo(l, i), FreeHi(l, i), Merged(header, l, i);
    assert l[i] in l[lo..hi] && l[lo] in l[lo..hi] && l[lo] in l by {
      assert l[lo..hi][i - lo] == l[i] && l[lo..hi][0] == l[lo];
    }
    AddrElsewhere(header, l, lo, hi, at);
    AddrElsewhere(header, l, lo, hi, b.addr);
    FlagsOne(used, l, lo, hi, b);
    var r := Splice(l, lo, [b], hi);
    forall x | x in r ensures x.addr in used[at := false] && used[at := false][x.addr] == x.used {
      InSplice(l, lo, [b], hi, x);
    }
  }

  /** The addresses after a cut of the block at index i. */
  ghost function CutRing(l: seq<int>, i: nat, rest: int, merges: bool): seq<int>
    requires i + 1 < |l|
  {
    var l' := Inserted(l, i, rest);
    if merges then Removed(l', i + 2) else l'
  }

  lemma CutRingValue(l: seq<Block>, i: nat, b: Block, rest: Block, merges: bool)
    requires i + 1 < |l| && b.addr == l[i].addr && (merges ==> i + 2 < |l|)
    ensures Addrs(Splice(l, i, [b, rest], if merges then i + 2 else i + 1)) == CutRing(Addrs(l), i, rest.addr, merges)
  {
  }
}
