/** Finding the lowest one bit of a word (rt-thread/src/kservice.c): the form that looks up
    a remainder modulo 37 and the form that looks up bytes. */
module BitSearch {

  type Word = bv32

  /** 1 << i. */
  function Mask(i: nat): Word
    requires i < 32
  {
    match i
    case 0 => 0x1 case 1 => 0x2 case 2 => 0x4 case 3 => 0x8
    case 4 => 0x10 case 5 => 0x20 case 6 => 0x40 case 7 => 0x80
    case 8 => 0x100 case 9 => 0x200 case 10 => 0x400 case 11 => 0x800
    case 12 => 0x1000 case 13 => 0x2000 case 14 => 0x4000 case 15 => 0x8000
    case 16 => 0x10000 case 17 => 0x20000 case 18 => 0x40000 case 19 => 0x80000
    case 20 => 0x100000 case 21 => 0x200000 case 22 => 0x400000 case 23 => 0x800000
    case 24 => 0x1000000 case 25 => 0x2000000 case 26 => 0x4000000 case 27 => 0x8000000
    case 28 => 0x10000000 case 29 => 0x20000000 case 30 => 0x40000000 case 31 => 0x80000000
  }

  /** The same as a number. */
  function Value(i: nat): nat
    requires i < 32
  {
    match i
    case 0 => 0x1 case 1 => 0x2 case 2 => 0x4 case 3 => 0x8
    case 4 => 0x10 case 5 => 0x20 case 6 => 0x40 case 7 => 0x80
    case 8 => 0x100 case 9 => 0x200 case 10 => 0x400 case 11 => 0x800
    case 12 => 0x1000 case 13 => 0x2000 case 14 => 0x4000 case 15 => 0x8000
    case 16 => 0x10000 case 17 => 0x20000 case 18 => 0x40000 case 19 => 0x80000
    case 20 => 0x100000 case 21 => 0x200000 case 22 => 0x400000 case 23 => 0x800000
    case 24 => 0x1000000 case 25 => 0x2000000 case 26 => 0x4000000 case 27 => 0x8000000
    case 28 => 0x10000000 case 29 => 0x20000000 case 30 => 0x40000000 case 31 => 0x80000000
  }

  predicate Meets(w: Word, m: Word) { w & m != 0 }

  predicate Has(w: Word, i: nat) { i < 32 && Meets(w, Mask(i)) }

  /** Bit i is the lowest one bit of w. */
  ghost predicate Lowest(w: Word, i: nat) {
    Has(w, i) && forall j :: 0 <= j < i ==> !Has(w, j)
  }

  // ------------------------------------------------------------- masks

  /** The bits below a single bit. */
  function Under(m: Word): Word { m - 1 }

  predicate Covered(a: Word, b: Word) { a & b == a }

  predicate OneBit(m: Word) { m != 0 && m & (m - 1) == 0 }

  lemma MaskValue(i: nat)
    requires i < 32
    ensures (Mask(i) as nat) == Value(i)
  {
  }

  lemma MaskOneBit(i: nat)
    requires i < 32
    ensures OneBit(Mask(i))
  {
  }

  lemma MasksBelow16(i: nat, j: nat)
    requires j < i && 0 <= i < 16
    ensures Covered(Mask(j), Under(Mask(i)))
  {
  }

  lemma MasksBelow24(i: nat, j: nat)
    requires j < i && 16 <= i < 24
    ensures Covered(Mask(j), Under(Mask(i)))
  {
  }

  lemma MasksBelow32(i: nat, j: nat)
    requires j < i && 24 <= i < 32
    ensures Covered(Mask(j), Under(Mask(i)))
  {
  }

  lemma MasksBelow(i: nat, j: nat)
    requires j < i < 32
    ensures Covered(Mask(j), Under(Mask(i)))
  {
    hide Mask, Under, Covered;
    if i < 16 { MasksBelow16(i, j); } else if i < 24 { MasksBelow24(i, j); } else { MasksBelow32(i, j); }
  }

  lemma CoveredApart(a: Word, b: Word)
    requires Covered(a, Under(b)) && OneBit(b)
    ensures a & b == 0 && b & a == 0
  {
  }

  lemma MasksApart(i: nat, j: nat)
    requires i < 32 && j < 32 && i != j
    ensures Mask(i) & Mask(j) == 0
  {
    hide Mask, Under, Covered, OneBit;
    if j < i {
      MasksBelow(i, j);
      MaskOneBit(i);
      CoveredApart(Mask(j), Mask(i));
    } else {
      MasksBelow(j, i);
      MaskOneBit(j);
      CoveredApart(Mask(i), Mask(j));
    }
  }

  function PositionOf(m: Word): nat {
    if m < 0x100 then Position8(m) else if m < 0x10000 then Position16(m)
    else if m < 0x1000000 then Position24(m) else Position32(m)
  }

  function Position8(m: Word): nat {
    if m == 0x1 then 0 else if m == 0x2 then 1 else if m == 0x4 then 2 else if m == 0x8 then 3 else
    if m == 0x10 then 4 else if m == 0x20 then 5 else if m == 0x40 then 6 else 7
  }

  function Position16(m: Word): nat {
    if m == 0x100 then 8 else if m == 0x200 then 9 else if m == 0x400 then 10 else if m == 0x800 then 11 else
    if m == 0x1000 then 12 else if m == 0x2000 then 13 else if m == 0x4000 then 14 else 15
  }

  function Position24(m: Word): nat {
    if m == 0x10000 then 16 else if m == 0x20000 then 17 else if m == 0x40000 then 18 else if m == 0x80000 then 19 else
    if m == 0x100000 then 20 else if m == 0x200000 then 21 else if m == 0x400000 then 22 else 23
  }

  function Position32(m: Word): nat {
    if m == 0x1000000 then 24 else if m == 0x2000000 then 25 else if m == 0x4000000 then 26 else
    if m == 0x8000000 then 27 else if m == 0x10000000 then 28 else if m == 0x20000000 then 29 else
    if m == 0x40000000 then 30 else 31
  }

  lemma Position8Exact(m: Word)
    requires OneBit(m) && m < 0x100
    ensures Position8(m) < 32 && Mask(Position8(m)) == m
  {
  }

  lemma Position16Exact(m: Word)
    requires OneBit(m) && 0x100 <= m < 0x10000
    ensures Position16(m) < 32 && Mask(Position16(m)) == m
  {
  }

  lemma Position24Exact(m: Word)
    requires OneBit(m) && 0x10000 <= m < 0x1000000
    ensures Position24(m) < 32 && Mask(Position24(m)) == m
  {
  }

  lemma Position32Exact(m: Word)
    requires OneBit(m) && 0x1000000 <= m
    ensures Position32(m) < 32 && Mask(Position32(m)) == m
  {
  }

  lemma PositionExact(m: Word)
    requires OneBit(m)
    ensures PositionOf(m) < 32 && Mask(PositionOf(m)) == m
  {
    hide OneBit, Position8, Position16, Position24, Position32, Mask;
    if m < 0x100 { Position8Exact(m); } else if m < 0x10000 { Position16Exact(m); }
    else if m < 0x1000000 { Position24Exact(m); } else { Position32Exact(m); }
  }

  // ------------------------------------------------------- the lowest bit

  /** `value & (value - 1) ^ value`, in C's order of operations. */
  function Isolated(w: Word): Word { (w & (w - 1)) ^ w }

  lemma LowBitMeets(w: Word, m: Word)
    requires w != 0 && m == (w & (w - 1)) ^ w
    ensures Meets(w, m)
  {
  }

  lemma LowBitOne(w: Word, m: Word)
    requires w != 0 && m == (w & (w - 1)) ^ w
    ensures OneBit(m)
  {
  }

  lemma LowBitUnder(w: Word, m: Word)
    requires w != 0 && m == (w & (w - 1)) ^ w
    ensures !Meets(w, Under(m))
  {
  }

  lemma IsolatedFacts(w: Word)
    requires w != 0
    ensures var m := Isolated(w); OneBit(m) && Meets(w, m) && !Meets(w, Under(m))
  {
    hide Meets, OneBit, Under;
    LowBitOne(w, Isolated(w));
    LowBitMeets(w, Isolated(w));
    LowBitUnder(w, Isolated(w));
  }

  lemma MissBelow(w: Word, a: Word, b: Word)
    requires !Meets(w, b) && Covered(a, b)
    ensures !Meets(w, a)
  {
  }

  lemma MissesBelow(w: Word, i: nat, j: nat)
    requires j < i < 32 && !Meets(w, Under(Mask(i)))
    ensures !Has(w, j)
  {
    hide Mask, Meets, Under, Covered;
    MasksBelow(i, j);
    MissBelow(w, Mask(j), Under(Mask(i)));
  }

  /** A nonzero word has a lowest one bit, at the place of the isolated one. */
  lemma LowestExists(w: Word)
    requires w != 0
    ensures var i := PositionOf(Isolated(w)); i < 32 && Mask(i) == Isolated(w) && Lowest(w, i)
  {
    var m := Isolated(w);
    var i := PositionOf(m);
    hide Mask, PositionOf, Isolated, OneBit, Meets, Under;
    IsolatedFacts(w);
    PositionExact(m);
    forall j | 0 <= j < i ensures !Has(w, j) { MissesBelow(w, i, j); }
  }

  /** A word has at most one lowest one bit. */
  lemma LowestUnique(w: Word, i: nat, j: nat)
    requires Lowest(w, i) && Lowest(w, j)
    ensures i == j
  {
    hide Has;
    assert i < j ==> !Has(w, i);
    assert j < i ==> !Has(w, j);
  }

  // ----------------------------------------------------- the remainder form

  /** `__lowest_bit_bitmap` of the small form: 32 where no power of two falls. */
  function TinyTable(k: nat): nat
    requires k < 37
  {
    match k
    case 0 => 0 case 1 => 1 case 2 => 2 case 3 => 27
    case 4 => 3 case 5 => 24 case 6 => 28 case 7 => 32
    case 8 => 4 case 9 => 17 case 10 => 25 case 11 => 31
    case 12 => 29 case 13 => 12 case 14 => 32 case 15 => 14
    case 16 => 5 case 17 => 8 case 18 => 18 case 19 => 32
    case 20 => 26 case 21 => 23 case 22 => 32 case 23 => 16
    case 24 => 30 case 25 => 11 case 26 => 13 case 27 => 7
    case 28 => 32 case 29 => 22 case 30 => 15 case 31 => 10
    case 32 => 6 case 33 => 21 case 34 => 9 case 35 => 20 case 36 => 19
  }

  function TinyFfs(w: Word): nat { TinyTable((Isolated(w) as nat) % 37) }

  lemma Tiny8(i: nat)
    requires 0 <= i < 8
    ensures TinyTable(Value(i) % 37) == i + 1
  {
  }

  lemma Tiny16(i: nat)
    requires 8 <= i < 16
    ensures TinyTable(Value(i) % 37) == i + 1
  {
  }

  lemma Tiny24(i: nat)
    requires 16 <= i < 24
    ensures TinyTable(Value(i) % 37) == i + 1
  {
  }

  lemma Tiny32(i: nat)
    requires 24 <= i < 32
    ensures TinyTable(Value(i) % 37) == i + 1
  {
  }

  lemma TinyAt(i: nat)
    requires i < 32
    ensures TinyTable(Value(i) % 37) == i + 1
  {
    hide TinyTable, Value;
    if i < 8 { Tiny8(i); } else if i < 16 { Tiny16(i); } else if i < 24 { Tiny24(i); } else { Tiny32(i); }
  }

  lemma IsolatedZero()
    ensures Isolated(0) == 0
  {
  }

  /** The remainder form returns 0 for 0, and otherwise one more than the place of the
      lowest one bit. */
  lemma TinyFfsExact(w: Word)
    ensures w == 0 ==> TinyFfs(w) == 0
    ensures w != 0 ==> TinyFfs(w) >= 1 && Lowest(w, TinyFfs(w) - 1)
  {
    hide Mask, Value, PositionOf, Isolated, Has;
    if w == 0 {
      IsolatedZero();
    } else {
      LowestExists(w);
      var i := PositionOf(Isolated(w));
      MaskValue(i);
      TinyAt(i);
    }
  }

  // ----------------------------------------------------------- the byte form

  /** `__lowest_bit_bitmap` of the other form, by rows of sixteen: the first entry of each
      row, and the entries all rows share. */
  function ByteTable(k: nat): nat
    requires k < 256
  {
    if k % 16 == 0 then RowFirst(k / 16) else RowEntry(k % 16)
  }

  function RowFirst(r: nat): nat
    requires r < 16
  {
    match r
    case 0 => 0 case 1 => 4 case 2 => 5 case 3 => 4 case 4 => 6 case 5 => 4 case 6 => 5 case 7 => 4
    case 8 => 7 case 9 => 4 case 10 => 5 case 11 => 4
    case 12 => 6 case 13 => 4 case 14 => 5 case 15 => 4
  }

  function RowEntry(e: nat): nat
    requires 0 < e < 16
  {
    match e
    case 1 => 0 case 2 => 1 case 3 => 0 case 4 => 2 case 5 => 0 case 6 => 1 case 7 => 0
    case 8 => 3 case 9 => 0 case 10 => 1 case 11 => 0
    case 12 => 2 case 13 => 0 case 14 => 1 case 15 => 0
  }

  lemma ByteRange(b: Word)
    requires b < 256
    ensures (b as nat) < 256 && (b as nat) / 16 == ((b >> 4) as nat) && (b as nat) % 16 == ((b & 0xf) as nat)
  {
  }

  /** The table entry of a nonzero byte is the place of its lowest one bit. */
  lemma ByteTableExact(b: Word)
    requires 0 < b < 256
    ensures (b as nat) < 256
    ensures var i := ByteTable(b as nat); i < 8 && Meets(b, Mask(i)) && !Meets(b, Under(Mask(i)))
  {
    ByteRange(b);
    var high, low := b >> 4, b & 0xf;
    if low == 0 { HighNibble(high, b); } else { LowNibble(low, b); }
  }

  lemma LowNibble(low: Word, b: Word)
    requires 0 < low < 16 && low == b & 0xf
    ensures 0 < (low as nat) < 16
    ensures var i := RowEntry(low as nat); i < 4 && Meets(b, Mask(i)) && !Meets(b, Under(Mask(i)))
  {
    NibbleCases(low);
  }

  lemma HighNibble(high: Word, b: Word)
    requires 0 < b < 256 && high == b >> 4 && b & 0xf == 0
    ensures 0 < (high as nat) < 16
    ensures var i := RowFirst(high as nat); 4 <= i < 8 && Meets(b, Mask(i)) && !Meets(b, Under(Mask(i)))
  {
    NibbleCases(high);
  }

  lemma NibbleCases(n: Word)
    requires 0 < n < 16
    ensures n == 1 || n == 2 || n == 3 || n == 4 || n == 5 || n == 6 || n == 7 || n == 8
         || n == 9 || n == 10 || n == 11 || n == 12 || n == 13 || n == 14 || n == 15
  {
  }

  /** Which byte the byte form looks at, and where its bits start in the word. */
  function ByteAt(w: Word, shift: nat): Word
    requires shift == 0 || shift == 8 || shift == 16 || shift == 24
  {
    if shift == 0 then w & 0xff else if shift == 8 then (w & 0xff00) >> 8
    else if shift == 16 then (w & 0xff0000) >> 16 else (w & 0xff000000) >> 24
  }

  function ByteFfs(w: Word): nat {
    if w == 0 then 0
    else if w & 0xff != 0 then ByteEntry(ByteAt(w, 0)) + 1
    else if w & 0xff00 != 0 then ByteEntry(ByteAt(w, 8)) + 9
    else if w & 0xff0000 != 0 then ByteEntry(ByteAt(w, 16)) + 17
    else ByteEntry(ByteAt(w, 24)) + 25
  }

  function ByteEntry(b: Word): nat {
    if b < 256 then ByteRange(b); ByteTable(b as nat) else 0
  }

  lemma ByteShifted(w: Word, shift: nat, m: Word)
    requires shift == 0 || shift == 8 || shift == 16 || shift == 24
    requires m <= 0x80 && Meets(ByteAt(w, shift), m) && !Meets(ByteAt(w, shift), Under(m))
    requires shift > 0 ==> w & 0xff == 0
    requires shift > 8 ==> w & 0xff00 == 0
    requires shift > 16 ==> w & 0xff0000 == 0
    ensures Meets(w, Shifted(m, shift)) && !Meets(w, Under(Shifted(m, shift)))
  {
  }

  function Shifted(m: Word, shift: nat): Word
    requires shift == 0 || shift == 8 || shift == 16 || shift == 24
  {
    if shift == 0 then m else if shift == 8 then m << 8 else if shift == 16 then m << 16 else m << 24
  }

  lemma MaskShifted(i: nat, shift: nat)
    requires i < 8 && (shift == 0 || shift == 8 || shift == 16 || shift == 24)
    ensures Mask(i) <= 0x80 && Shifted(Mask(i), shift) == Mask(i + shift)
  {
  }

  lemma BytesOf(w: Word)
    ensures forall s :: s in {0, 8, 16, 24} ==> ByteAt(w, s) < 256
    ensures ByteAt(w, 0) != 0 <==> w & 0xff != 0
    ensures ByteAt(w, 8) != 0 <==> w & 0xff00 != 0
    ensures ByteAt(w, 16) != 0 <==> w & 0xff0000 != 0
    ensures w & 0xff == 0 && w & 0xff00 == 0 && w & 0xff0000 == 0 ==> (w != 0 <==> ByteAt(w, 24) != 0)
  {
  }

  lemma EntryExact(b: Word)
    requires 0 < b < 256
    ensures var i := ByteEntry(b); i < 8 && Meets(b, Mask(i)) && !Meets(b, Under(Mask(i)))
  {
    hide Mask, Meets, Under, ByteTable;
    ByteTableExact(b);
  }

  /** The first byte that is not zero holds the lowest bit. */
  lemma LowestInByte(w: Word, shift: nat)
    requires shift == 0 || shift == 8 || shift == 16 || shift == 24
    requires 0 < ByteAt(w, shift) < 256
    requires shift > 0 ==> w & 0xff == 0
    requires shift > 8 ==> w & 0xff00 == 0
    requires shift > 16 ==> w & 0xff0000 == 0
    ensures ByteEntry(ByteAt(w, shift)) < 8 && Lowest(w, ByteEntry(ByteAt(w, shift)) + shift)
  {
    hide Mask, Meets, Under, ByteAt, Shifted, ByteTable, ByteEntry;
    var b := ByteAt(w, shift);
    var i := ByteEntry(b);
    EntryExact(b);
    MaskShifted(i, shift);
    ByteShifted(w, shift, Mask(i));
    forall j | 0 <= j < i + shift ensures !Has(w, j) { MissesBelow(w, i + shift, j); }
  }

  /** The byte form agrees with the remainder form on every word. */
  lemma ByteFfsExact(w: Word)
    ensures w == 0 ==> ByteFfs(w) == 0
    ensures w != 0 ==> ByteFfs(w) >= 1 && Lowest(w, ByteFfs(w) - 1)
  {
    hide Mask, Meets, Under, ByteAt, ByteEntry, Lowest;
    if w != 0 {
      BytesOf(w);
      if w & 0xff != 0 {
        LowestInByte(w, 0);
      } else if w & 0xff00 != 0 {
        LowestInByte(w, 8);
      } else if w & 0xff0000 != 0 {
        LowestInByte(w, 16);
      } else {
        LowestInByte(w, 24);
      }
    }
  }

  /** Both forms of `__rt_ffs` are one function. */
  lemma FormsAgree(w: Word)
    ensures TinyFfs(w) == ByteFfs(w)
  {
    TinyFfsExact(w);
    ByteFfsExact(w);
    hide TinyFfs, ByteFfs;
    if w != 0 { LowestUnique(w, TinyFfs(w) - 1, ByteFfs(w) - 1); }
  }
}
