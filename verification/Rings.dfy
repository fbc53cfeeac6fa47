/** Circular doubly linked lists, as two maps of links and the sequence of nodes they
    thread (the intrusive lists of rt-thread/include/rtservice.h and the block and free
    lists of rt-thread/src/memheap.c). */
module Rings {
  import opened Lists

  type Links = map<int, int>

  function Succ(i: nat, n: nat): nat
    requires i < n
  {
    if i + 1 < n then i + 1 else 0
  }

  ghost predicate Linked(next: Links, prev: Links, a: int, b: int) {
    a in next && b in prev && next[a] == b && prev[b] == a
  }

  ghost predicate Unique(l: seq<int>) {
    forall i, j :: 0 <= i < j < |l| ==> l[i] != l[j]
  }

  /** Following `next` from any node of l visits l in order and comes round; `prev` goes
      the other way. */
  ghost predicate Ring(next: Links, prev: Links, l: seq<int>) {
    && l != [] && Unique(l)
    && (forall i :: 0 <= i < |l| - 1 ==> Linked(next, prev, l[i], l[i + 1]))
    && Linked(next, prev, l[|l| - 1], l[0])
  }

  lemma RingNext(next: Links, prev: Links, l: seq<int>, i: nat)
    requires Ring(next, prev, l) && i < |l|
    ensures l[i] in next && l[i] in prev && next[l[i]] == l[Succ(i, |l|)]
    ensures prev[l[i]] == if i == 0 then l[|l| - 1] else l[i - 1]
  {
    assert i < |l| - 1 ==> Linked(next, prev, l[i], l[i + 1]);
    assert i > 0 ==> Linked(next, prev, l[i - 1], l[i - 1 + 1]);
  }

  /** On a ring of two nodes or more no node is its own neighbour. */
  lemma RingApart(next: Links, prev: Links, l: seq<int>, i: nat)
    requires Ring(next, prev, l) && i < |l| && |l| >= 2
    ensures l[i] in next && l[i] in prev && next[l[i]] != l[i] && prev[l[i]] != l[i]
  {
    RingNext(next, prev, l, i);
  }

  /** Links of nodes that are not on the ring do not matter. */
  lemma RingFrame(next: Links, prev: Links, next': Links, prev': Links, l: seq<int>)
    requires Ring(next, prev, l)
    requires forall a :: a in l && a in next ==> a in next' && next'[a] == next[a]
    requires forall a :: a in l && a in prev ==> a in prev' && prev'[a] == prev[a]
    ensures Ring(next', prev', l)
  {
    forall i | 0 <= i < |l| - 1 ensures Linked(next', prev', l[i], l[i + 1]) {
      assert Linked(next, prev, l[i], l[i + 1]) && l[i] in l && l[i + 1] in l;
    }
    assert l[0] in l && l[|l| - 1] in l;
  }

  function Inserted(l: seq<int>, i: nat, x: int): seq<int>
    requires i < |l|
  {
    l[..i + 1] + ([x] + l[i + 1..])
  }

  function Removed(l: seq<int>, i: nat): seq<int>
    requires i < |l|
  {
    l[..i] + l[i + 1..]
  }

  lemma UniqueInserted(l: seq<int>, i: nat, x: int)
    requires Unique(l) && i < |l| && x !in l
    ensures Unique(Inserted(l, i, x))
  {
    var r := Inserted(l, i, x);
    forall p, q | 0 <= p < q < |r| ensures r[p] != r[q] {
      assert r[p] == if p <= i then l[p] else if p == i + 1 then x else l[p - 1];
      assert r[q] == if q <= i then l[q] else if q == i + 1 then x else l[q - 1];
    }
  }

  /** The four stores that put x behind the node at index i. */
  lemma RingInsert(next: Links, prev: Links, l: seq<int>, i: nat, x: int)
    requires Ring(next, prev, l) && i < |l| && x !in l
    ensures l[i] in next
    ensures Ring(next[x := next[l[i]]][l[i] := x], prev[x := l[i]][next[l[i]] := x], Inserted(l, i, x))
  {
    RingNext(next, prev, l, i);
    var a, b := l[i], next[l[i]];
    var next', prev' := next[x := b][a := x], prev[x := a][b := x];
    var r := Inserted(l, i, x);
    UniqueInserted(l, i, x);
    assert forall k :: 0 <= k < |r| ==> r[k] == if k <= i then l[k] else if k == i + 1 then x else l[k - 1];
    forall k | 0 <= k < |r| - 1 ensures Linked(next', prev', r[k], r[k + 1]) {
      if k < i { assert Linked(next, prev, l[k], l[k + 1]); }
      if k > i + 1 { assert Linked(next, prev, l[k - 1], l[k - 1 + 1]); }
    }
  }

  lemma UniqueRemoved(l: seq<int>, i: nat)
    requires Unique(l) && i < |l|
    ensures Unique(Removed(l, i)) && l[i] !in Removed(l, i)
  {
    var r := Removed(l, i);
    assert forall k :: 0 <= k < |r| ==> r[k] == l[if k < i then k else k + 1];
  }

  /** The two stores that take the node at index i out. */
  lemma RingRemove(next: Links, prev: Links, l: seq<int>, i: nat)
    requires Ring(next, prev, l) && i < |l| && |l| >= 2
    ensures l[i] in next && l[i] in prev
    ensures Ring(next[prev[l[i]] := next[l[i]]], prev[next[l[i]] := prev[l[i]]], Removed(l, i))
  {
    RingNext(next, prev, l, i);
    var a, b := prev[l[i]], next[l[i]];
    var next', prev' := next[a := b], prev[b := a];
    var r := Removed(l, i);
    UniqueRemoved(l, i);
    assert forall k :: 0 <= k < |r| ==> r[k] == l[if k < i then k else k + 1];
    forall k | 0 <= k < |r| - 1 ensures Linked(next', prev', r[k], r[k + 1]) {
      if k + 1 < i { assert Linked(next, prev, l[k], l[k + 1]); }
      if k >= i { assert Linked(next, prev, l[k + 1], l[k + 1 + 1]); }
    }
  }

  /** A ring through a list head: taking out a node behind the head. */
  lemma HeadRemoved(head: int, l: seq<nat>, j: nat)
    requires Distinct(l) && j < |l|
    ensures var r: seq<int> := [head] + l;
      |r| >= 2 && r[j + 1] == l[j] && Removed(r, j + 1) == [head] + Without(l, l[j])
  {
    WithoutIndex(l, j);
    hide Without, Distinct;
    var r: seq<int> := [head] + l;
    assert Removed(r, j + 1) == [head] + (l[..j] + l[j + 1..]);
  }

  /** Taking a node out and linking it to itself. */
  lemma RingUnlink(next: Links, prev: Links, l: seq<int>, i: nat)
    requires Ring(next, prev, l) && i < |l| && |l| >= 2
    ensures l[i] in next && l[i] in prev
    ensures var x := l[i]; var a, b := prev[x], next[x];
      Ring(next[a := b][x := x], prev[b := a][x := x], Removed(l, i)) && a in l && b in l && a != x && b != x
  {
    var x := l[i];
    RingNext(next, prev, l, i);
    RingRemove(next, prev, l, i);
    UniqueRemoved(l, i);
    var a, b := prev[x], next[x];
    var next', prev' := next[a := b], prev[b := a];
    RingFrame(next', prev', next'[x := x], prev'[x := x], Removed(l, i));
  }
}
