/** Rounding sizes up to the alignment, in 32-bit arithmetic (RT_ALIGN of
    rt-thread/include/rtdef.h). */
module Alignment {
  import opened Words

  /** RT_ALIGN. */
  function AlignUp(align: nat, n: nat): nat
    requires align >= 1
  {
    var m := (n + align - 1) % WORD;
    m - m % align
  }

  /** Rounding up reaches the request unless the 32-bit addition wraps, and then it gives 0. */
  lemma AlignUpExact(align: nat, n: nat)
    requires 1 <= align < WORD && n < WORD
    ensures n <= AlignUp(align, n) <==> n == 0 || n + align - 1 < WORD
    ensures n + align - 1 < WORD ==> AlignUp(align, n) < n + align
    ensures AlignUp(align, n) == 0 <==> n == 0 || n + align - 1 >= WORD
  {
    var m := (n + align - 1) % WORD;
    if n + align - 1 < WORD {
      assert m == n + align - 1;
      if n == 0 { SmallMod(m, align); }
    } else {
      assert m == n + align - 1 - WORD < align;
      SmallMod(m, align);
    }
  }

  lemma AlignUpAligned(align: nat, n: nat)
    requires align >= 1
    ensures AlignUp(align, n) % align == 0
  {
    AlignedDown((n + align - 1) % WORD, align);
  }

  lemma SmallMod(m: nat, a: nat)
    requires m < a
    ensures m % a == m
  {
  }

  lemma AlignedDown(m: nat, a: nat)
    requires a > 0
    ensures (m - m % a) % a == 0
  {
    assert m - m % a == a * (m / a);
    TimesMod(m / a, a);
  }

  lemma TimesMod(k: nat, a: nat)
    requires a > 0
    ensures (a * k) % a == 0
  {
    var q, r := (a * k) / a, (a * k) % a;
    assert a * k == a * q + r;
    if q < k { assert a * k >= a * (q + 1) by { TimesMonotone(a, q + 1, k); } }
    if k < q { assert a * q >= a * (k + 1) by { TimesMonotone(a, k + 1, q); } }
  }

  lemma TimesMonotone(a: nat, x: nat, y: nat)
    requires x <= y
    ensures a * x <= a * y
  {
  }

  /** Below a multiple of a, the next lower multiple is at least a away. */
  lemma RoomAbove(x: nat, w: nat, a: nat)
    requires a > 0 && x % a == 0 && w % a == 0 && x < w
    ensures x + a <= w
  {
    assert x == a * (x / a) && w == a * (w / a);
    if w / a <= x / a { TimesMonotone(a, w / a, x / a); }
    TimesMonotone(a, x / a + 1, w / a);
    assert a * (x / a + 1) == a * (x / a) + a;
  }

  lemma SumMod(x: nat, y: nat, a: nat)
    requires a > 0 && x % a == 0 && y % a == 0
    ensures (x + y) % a == 0
  {
    assert x == a * (x / a) && y == a * (y / a);
    assert a * (x / a + y / a) == a * (x / a) + a * (y / a);
    TimesMod(x / a + y / a, a);
  }

  lemma DiffMod(x: nat, y: nat, a: nat)
    requires a > 0 && x % a == 0 && (x + y) % a == 0
    ensures y % a == 0
  {
    var p, q := x / a, (x + y) / a;
    assert x == a * p && x + y == a * q;
    assert a * (q - p) == a * q - a * p;
    QuotientsOrdered(x, y, a);
    TimesMod(q - p, a);
  }

  lemma QuotientsOrdered(x: nat, y: nat, a: nat)
    requires a > 0
    ensures x / a <= (x + y) / a
  {
    var p, q := x / a, (x + y) / a;
    assert x == a * p + x % a && x + y == a * q + (x + y) % a && a * (q + 1) == a * q + a;
    TimesGap(a, p, q);
  }

  lemma TimesGap(a: nat, p: nat, q: nat)
    ensures p <= q || a * p >= a * (q + 1)
  {
    if q < p { TimesMonotone(a, q + 1, p); }
  }

  /** What is aligned already stays as it is. */
  lemma AlignedBetween(x: nat, a: nat)
    requires a >= 1 && x % a == 0 && x + a <= WORD
    ensures AlignUp(a, x) == x
  {
    var q := x / a;
    assert x == a * q;
    assert (x + a - 1) % WORD == x + a - 1;
    ModAbove(q, a, a - 1);
  }

  lemma ModAbove(q: nat, a: nat, r: nat)
    requires r < a
    ensures (a * q + r) % a == r
  {
    var p, s := (a * q + r) / a, (a * q + r) % a;
    assert a * q + r == a * p + s;
    assert a * (p + 1) == a * p + a && a * (q + 1) == a * q + a;
    if p < q { TimesMonotone(a, p + 1, q); }
    if q < p { TimesMonotone(a, q + 1, p); }
  }
}
