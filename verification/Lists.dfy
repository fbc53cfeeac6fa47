/** Facts about lists of identifiers: threads, message nodes and block addresses. */
module Lists {

  ghost predicate Distinct(l: seq<nat>) {
    forall i, j :: 0 <= i < j < |l| ==> l[i] != l[j]
  }

  function Without(l: seq<nat>, t: nat): seq<nat> {
    if l == [] then [] else if l[0] == t then l[1..] else [l[0]] + Without(l[1..], t)
  }

  lemma {:induction false} WithoutMembers(l: seq<nat>, t: nat)
    requires Distinct(l) && t in l
    ensures Distinct(Without(l, t)) && |Without(l, t)| == |l| - 1
    ensures forall x :: x in Without(l, t) <==> x in l && x != t
  {
    TailMembers(l);
    if l[0] != t {
      WithoutMembers(l[1..], t);
      ConsMembers(l[0], Without(l[1..], t));
    }
  }

  lemma TailMembers(l: seq<nat>)
    requires Distinct(l) && l != []
    ensures Distinct(l[1..])
    ensures forall x :: x in l[1..] <==> x in l && x != l[0]
  {
    forall x | x in l && x != l[0] ensures x in l[1..] {
      var i :| 0 <= i < |l| && l[i] == x;
      assert l[1..][i - 1] == x;
    }
  }

  lemma ConsMembers(h: nat, t: seq<nat>)
    ensures forall y :: y in [h] + t <==> y == h || y in t
    ensures Distinct(t) && h !in t ==> Distinct([h] + t)
  {
  }

  lemma {:induction false} WithoutAbsent(l: seq<nat>, t: nat)
    requires t !in l
    ensures Without(l, t) == l
  {
    if l != [] { WithoutAbsent(l[1..], t); }
  }

  lemma {:induction false} WithoutIndex(l: seq<nat>, j: nat)
    requires Distinct(l) && j < |l|
    ensures Without(l, l[j]) == l[..j] + l[j + 1..]
  {
    if j > 0 {
      assert l[0] != l[j];
      WithoutIndex(l[1..], j - 1);
      assert l[..j] + l[j + 1..] == [l[0]] + (l[1..][..j - 1] + l[1..][j..]);
    }
  }

  /** Whether the list holds the element or not. */
  lemma {:induction false} WithoutAny(l: seq<nat>, a: nat)
    requires Distinct(l)
    ensures Distinct(Without(l, a)) && forall x :: x in Without(l, a) <==> x in l && x != a
  {
    if a in l { WithoutMembers(l, a); } else { WithoutAbsent(l, a); }
  }
}
