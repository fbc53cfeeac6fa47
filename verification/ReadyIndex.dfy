/** The two-level bitmap over the ready queues (rt-thread/src/scheduler.c): bit b of byte g
    of the ready table stands for the queue of priority 8g + b, and bit g of the group word
    for byte g. */
module ReadyIndex {
  import opened BitSearch
  import opened Lists

  type Queues = seq<seq<nat>>

  /** `w |= m` and `w &= ~m`. */
  function With(w: Word, m: Word): Word { w | m }

  function Minus(w: Word, m: Word): Word { w & !m }

  /** Setting and clearing one bit. */
  lemma SetMeets(w: Word, m: Word)
    requires m != 0
    ensures Meets(With(w, m), m)
  {
  }

  lemma SetMisses(w: Word, m: Word, n: Word)
    requires !Meets(m, n)
    ensures Meets(With(w, m), n) <==> Meets(w, n)
  {
  }

  lemma ClearMisses(w: Word, m: Word)
    ensures !Meets(Minus(w, m), m)
  {
  }

  lemma ClearKeeps(w: Word, m: Word, n: Word)
    requires !Meets(m, n)
    ensures Meets(Minus(w, m), n) ==> Meets(w, n)
  {
  }

  lemma ClearLeaves(w: Word, m: Word, n: Word)
    requires !Meets(m, n)
    ensures Meets(w, n) ==> Meets(Minus(w, m), n)
  {
  }

  lemma SetHas(w: Word, i: nat, j: nat)
    requires i < 32 && j < 32
    ensures Has(With(w, Mask(i)), j) <==> Has(w, j) || i == j
  {
    hide Mask, Meets, With, Minus;
    MaskNotZero(i);
    if i == j { SetMeets(w, Mask(i)); } else { MasksMiss(i, j); SetMisses(w, Mask(i), Mask(j)); }
  }

  lemma ClearHas(w: Word, i: nat, j: nat)
    requires i < 32 && j < 32
    ensures Has(Minus(w, Mask(i)), j) <==> Has(w, j) && i != j
  {
    hide Mask, Meets, With, Minus;
    if i == j {
      ClearMisses(w, Mask(i));
    } else {
      MasksMiss(i, j);
      ClearKeeps(w, Mask(i), Mask(j));
      ClearLeaves(w, Mask(i), Mask(j));
    }
  }

  lemma MasksMiss(i: nat, j: nat)
    requires i < 32 && j < 32 && i != j
    ensures !Meets(Mask(i), Mask(j))
  {
    hide Mask;
    MasksApart(i, j);
  }

  lemma MaskNotZero(i: nat)
    requires i < 32
    ensures Mask(i) != 0
  {
  }

  lemma HasSome(w: Word)
    ensures w != 0 <==> exists i: nat :: Has(w, i)
  {
    if w != 0 {
      LowestExists(w);
      assert Has(w, PositionOf(Isolated(w)));
    } else {
      forall i: nat ensures !Has(0, i) { ZeroHasNone(i); }
    }
  }

  lemma ZeroHasNone(i: nat)
    ensures !Has(0, i)
  {
    if i < 32 { ZeroMeets(Mask(i)); }
  }

  lemma ZeroMeets(m: Word)
    ensures !Meets(0, m)
  {
  }

  /** A byte has no bit beyond the eighth. */
  lemma ByteHas(w: Word, i: nat)
    requires w < 256 && i >= 8
    ensures !Has(w, i)
  {
  }

  lemma ByteSet(w: Word, i: nat)
    requires w < 256 && i < 8
    ensures With(w, Mask(i)) < 256 && Minus(w, Mask(i)) < 256
  {
  }

  // ---------------------------------------------------------------- the index

  ghost predicate Waiting(queues: Queues, g: nat, b: nat) {
    8 * g + b < |queues| && queues[8 * g + b] != []
  }

  ghost predicate ByteOk(queues: Queues, table: seq<Word>, g: nat)
    requires g < |table|
  {
    table[g] < 256 && forall b: nat :: b < 8 ==> (Has(table[g], b) <==> Waiting(queues, g, b))
  }

  ghost predicate GroupOk(table: seq<Word>, group: Word) {
    |table| == 32 && forall g: nat :: g < 32 ==> (Has(group, g) <==> table[g] != 0)
  }

  /** The index tells which queues are empty. */
  ghost predicate IndexOk(queues: Queues, table: seq<Word>, group: Word) {
    && |queues| <= 256 && GroupOk(table, group)
    && forall g: nat :: g < 32 ==> ByteOk(queues, table, g)
  }

  lemma EmptyIndex(queues: Queues, table: seq<Word>)
    requires |queues| <= 256 && |table| == 32 && (forall g: nat :: g < 32 ==> table[g] == 0)
    requires forall p :: 0 <= p < |queues| ==> queues[p] == []
    ensures IndexOk(queues, table, 0)
  {
    hide Has;
    forall i: nat ensures !Has(0, i) { ZeroHasNone(i); }
  }

  lemma WaitingUpdate(queues: Queues, p: nat, q: seq<nat>, g0: nat, b0: nat, g: nat, b: nat)
    requires p < |queues| && p == 8 * g0 + b0 && b0 < 8 && b < 8
    ensures Waiting(queues[p := q], g, b) <==> if g == g0 && b == b0 then q != [] else Waiting(queues, g, b)
  {
  }

  lemma ByteSetOk(queues: Queues, table: seq<Word>, p: nat, q: seq<nat>, g0: nat, b0: nat)
    requires p < |queues| && p == 8 * g0 + b0 && b0 < 8 && g0 < |table| == 32 && ByteOk(queues, table, g0) && q != []
    ensures ByteOk(queues[p := q], table[g0 := With(table[g0], Mask(b0))], g0)
  {
    hide Mask, Has, With;
    ByteSet(table[g0], b0);
    forall b: nat | b < 8
      ensures Has(With(table[g0], Mask(b0)), b) <==> Waiting(queues[p := q], g0, b)
    {
      SetHas(table[g0], b0, b);
      WaitingUpdate(queues, p, q, g0, b0, g0, b);
    }
  }

  lemma ByteClearOk(queues: Queues, table: seq<Word>, p: nat, g0: nat, b0: nat)
    requires p < |queues| && p == 8 * g0 + b0 && b0 < 8 && g0 < |table| == 32 && ByteOk(queues, table, g0)
    ensures ByteOk(queues[p := []], table[g0 := Minus(table[g0], Mask(b0))], g0)
  {
    hide Mask, Has, Minus;
    ByteSet(table[g0], b0);
    forall b: nat | b < 8
      ensures Has(Minus(table[g0], Mask(b0)), b) <==> Waiting(queues[p := []], g0, b)
    {
      ClearHas(table[g0], b0, b);
      WaitingUpdate(queues, p, [], g0, b0, g0, b);
    }
  }

  /** Bytes other than the one that changed. */
  lemma OtherBytes(queues: Queues, table: seq<Word>, p: nat, q: seq<nat>, g0: nat, b0: nat, w: Word)
    requires p < |queues| && p == 8 * g0 + b0 && b0 < 8 && g0 < |table| == 32
    requires forall g: nat :: g < 32 ==> ByteOk(queues, table, g)
    ensures var queues', table' := queues[p := q], table[g0 := w];
      forall g: nat :: g < 32 && g != g0 ==> ByteOk(queues', table', g)
  {
    hide Has;
    var queues', table' := queues[p := q], table[g0 := w];
    forall g: nat | g < 32 && g != g0 ensures ByteOk(queues', table', g) {
      assert ByteOk(queues, table, g);
      forall b: nat | b < 8 ensures Waiting(queues', g, b) <==> Waiting(queues, g, b) {
        WaitingUpdate(queues, p, q, g0, b0, g, b);
      }
    }
  }

  lemma GroupSetOk(table: seq<Word>, group: Word, g0: nat, w: Word)
    requires GroupOk(table, group) && g0 < 32 && w != 0
    ensures GroupOk(table[g0 := w], With(group, Mask(g0)))
  {
    hide Mask, Has, With;
    forall g: nat | g < 32 ensures Has(With(group, Mask(g0)), g) <==> table[g0 := w][g] != 0 {
      SetHas(group, g0, g);
    }
  }

  lemma GroupClearOk(table: seq<Word>, group: Word, g0: nat, w: Word)
    requires GroupOk(table, group) && g0 < 32 && (w != 0 ==> table[g0] != 0)
    ensures GroupOk(table[g0 := w], if w == 0 then Minus(group, Mask(g0)) else group)
  {
    hide Mask, Has, Minus;
    var group' := if w == 0 then Minus(group, Mask(g0)) else group;
    forall g: nat | g < 32 ensures Has(group', g) <==> table[g0 := w][g] != 0 {
      ClearHas(group, g0, g);
    }
  }

  /** A thread joins the queue of priority p. */
  lemma SetIndex(queues: Queues, table: seq<Word>, group: Word, p: nat, q: seq<nat>, g0: nat, b0: nat)
    requires IndexOk(queues, table, group) && p < |queues| && q != [] && g0 == p / 8 && b0 == p % 8
    ensures g0 < 32 && b0 < 8
    ensures IndexOk(queues[p := q], table[g0 := With(table[g0], Mask(b0))], With(group, Mask(g0)))
  {
    hide Mask, Has, With;
    assert ByteOk(queues, table, g0);
    ByteSetOk(queues, table, p, q, g0, b0);
    OtherBytes(queues, table, p, q, g0, b0, With(table[g0], Mask(b0)));
    SetHas(table[g0], b0, b0);
    HasSome(With(table[g0], Mask(b0)));
    GroupSetOk(table, group, g0, With(table[g0], Mask(b0)));
  }

  /** The queue of priority p is empty now; its bits are cleared. */
  lemma ClearIndex(queues: Queues, table: seq<Word>, group: Word, p: nat, g0: nat, b0: nat)
    requires IndexOk(queues, table, group) && p < |queues| && g0 == p / 8 && b0 == p % 8
    ensures g0 < 32 && b0 < 8
    ensures var byte := Minus(table[g0], Mask(b0));
      IndexOk(queues[p := []], table[g0 := byte], if byte == 0 then Minus(group, Mask(g0)) else group)
  {
    hide Mask, Has, Minus;
    var byte := Minus(table[g0], Mask(b0));
    assert ByteOk(queues, table, g0);
    ByteClearOk(queues, table, p, g0, b0);
    OtherBytes(queues, table, p, [], g0, b0, byte);
    MinusNonZero(table[g0], b0);
    GroupClearOk(table, group, g0, byte);
  }

  lemma MinusNonZero(w: Word, i: nat)
    requires i < 32
    ensures Minus(w, Mask(i)) != 0 ==> w != 0
  {
    hide Mask;
  }

  /** A queue changes and stays non-empty, or stays empty. */
  lemma SameIndex(queues: Queues, table: seq<Word>, group: Word, p: nat, q: seq<nat>)
    requires IndexOk(queues, table, group) && p < |queues| && (q == [] <==> queues[p] == [])
    ensures IndexOk(queues[p := q], table, group)
  {
    hide Has;
    var queues' := queues[p := q];
    forall g: nat | g < 32 ensures ByteOk(queues', table, g) {
      assert ByteOk(queues, table, g);
      forall b: nat | b < 8 ensures Waiting(queues', g, b) <==> Waiting(queues, g, b) { }
    }
  }

  /** The search through both levels finds the most urgent queue that is not empty; there is
      one exactly when the group word is not zero. */
  lemma PickExact(queues: Queues, table: seq<Word>, group: Word)
    requires IndexOk(queues, table, group)
    ensures group != 0 <==> exists p :: 0 <= p < |queues| && queues[p] != []
    ensures group != 0 ==>
      var number := ByteFfs(group) - 1;
      && 0 <= number < 32
      && var p := 8 * number + ByteFfs(table[number]) - 1;
      && 0 <= p < |queues| && queues[p] != [] && forall r :: 0 <= r < p ==> queues[r] == []
  {
    hide Mask, Has, ByteFfs;
    HasSome(group);
    if group != 0 {
      ByteFfsExact(group);
      var number := ByteFfs(group) - 1;
      LowestHas(group, number);
      ByteFfsExact(table[number]);
      var b := ByteFfs(table[number]) - 1;
      LowestHas(table[number], b);
      assert ByteOk(queues, table, number);
      if b >= 8 { ByteHas(table[number], b); }
      var p := 8 * number + b;
      assert Waiting(queues, number, b);
      forall r | 0 <= r < p ensures queues[r] == [] { EmptyBefore(queues, table, group, number, b, r); }
    } else {
      forall r | 0 <= r < |queues| ensures queues[r] == [] { EmptyAll(queues, table, group, r); }
    }
  }

  lemma LowestHas(w: Word, i: nat)
    requires Lowest(w, i)
    ensures i < 32 && Has(w, i) && forall j :: 0 <= j < i ==> !Has(w, j)
  {
  }

  lemma EmptyBefore(queues: Queues, table: seq<Word>, group: Word, number: nat, b: nat, r: nat)
    requires IndexOk(queues, table, group) && number < 32 && b < 8 && r < 8 * number + b && r < |queues|
    requires forall g: nat :: g < number ==> !Has(group, g)
    requires forall j: nat :: j < b ==> !Has(table[number], j)
    ensures queues[r] == []
  {
    hide Mask, Has;
    var g, j := r / 8, r % 8;
    assert ByteOk(queues, table, g);
    if g < number {
      assert table[g] == 0;
      ZeroHasNone(j);
    }
    assert !Waiting(queues, g, j);
  }

  lemma EmptyAll(queues: Queues, table: seq<Word>, group: Word, r: nat)
    requires IndexOk(queues, table, group) && group == 0 && r < |queues|
    ensures queues[r] == []
  {
    hide Mask, Has;
    var g, j := r / 8, r % 8;
    assert ByteOk(queues, table, g);
    ZeroHasNone(g);
    ZeroHasNone(j);
    assert !Waiting(queues, g, j);
  }
}
