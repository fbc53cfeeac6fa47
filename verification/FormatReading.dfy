/** What the formatter's output means to a reader (rt-thread/src/kservice.c): numbers are read
    back from blanks, sign, prefix and digits by a reader of its own, and the blanks are
    counted and found on the side they belong. */
module FormatReading {
  import opened Wrappers
  import opened Words
  import opened FormatSpec

  // -------------------------------------------------------------- the reader

  function TrimLeft(t: string): string { if t != [] && t[0] == ' ' then TrimLeft(t[1..]) else t }

  function TrimRight(t: string): string {
    if t != [] && t[|t| - 1] == ' ' then TrimRight(t[..|t| - 1]) else t
  }

  predicate AllDigits(t: string, base: nat) { t != [] && forall k :: 0 <= k < |t| ==> DigitValue(t[k]) < base }

  function ReadNat(t: string, base: nat): Option<int> {
    if AllDigits(t, base) then Some(Value(t, base)) else None
  }

  /** A decimal number with blanks around it and perhaps a sign. */
  function ReadInt(t: string): Option<int> {
    var u := TrimRight(TrimLeft(t));
    if u == [] then None
    else if u[0] == '-' then
      var r := ReadNat(u[1..], 10);
      if r.Some? then Some(-r.value) else None
    else ReadNat(if u[0] == '+' then u[1..] else u, 10)
  }

  /** A hexadecimal number with blanks around it and perhaps 0x or 0X before it. */
  function ReadHex(t: string): Option<int> { ReadNat(Bare(TrimRight(TrimLeft(t))), 16) }

  function Bare(u: string): string { if |u| >= 2 && (u[1] == 'x' || u[1] == 'X') then u[2..] else u }

  // ------------------------------------------------------------------ fields

  /** How many digits m has. */
  function Count(m: nat, div: nat): nat
    requires div >= 2
    decreases m
  {
    if m < div then 1 else
      DivideLess(m, div);
      1 + Count(m / div, div)
  }

  /** How many digits and zeros are printed for a number of k digits: none if the precision
      is 0. */
  function Figures(precision: int, k: nat): nat { if precision == 0 then 0 else Max(precision, k) }

  /** A field with `marks` characters of sign and prefix before a number of k digits is as
      wide as it has to be and as it was asked to be, except that a precision of 0 leaves the
      digits out. */
  ghost predicate Wide(t: string, width: int, precision: int, marks: nat, k: nat) {
    |t| == Max(width, marks + Max(precision, k)) - (if precision == 0 then k else 0)
  }

  /** Behind `lead` blanks that stand for a sign, what is asked for and not taken up is blanks
      at the end if left justified, zeros if zero padded, or else blanks at the start; and
      there are no other blanks. */
  ghost predicate Padded(t: string, flags: Flags, lead: nat, marks: nat, precision: int, k: nat) {
    var fill := |t| - marks - Figures(precision, k);
    && lead <= marks && fill >= 0
    && var from := if flags.left || flags.zeroPad then lead else lead + fill;
    var upto := if flags.left then |t| - fill else |t|;
    forall j :: 0 <= j < |t| ==> (t[j] == ' ' <==> j < from || upto <= j)
  }

  /** A signed decimal. */
  ghost predicate SignedField(t: string, num: int, width: int, precision: int, flags: Flags) {
    && (precision != 0 ==> ReadInt(t) == Some(num))
    && (precision == 0 ==> NoFigures(t))
    && ('-' in t <==> num < 0) && ('+' in t <==> num >= 0 && flags.plus)
    && var mark := if num < 0 || flags.plus || flags.space then 1 else 0;
    var lead := if num < 0 || flags.plus then 0 else mark;
    var k := Count(if num < 0 then -num else num, 10);
    Wide(t, width, precision, mark, k) && Padded(t, flags, lead, mark, precision, k)
  }

  /** No digit but the zeros of the padding. */
  ghost predicate NoFigures(t: string) { forall c :: c in t ==> DigitValue(c) == 0 || DigitValue(c) >= 16 }

  /** An unsigned decimal. */
  ghost predicate UnsignedField(t: string, num: nat, width: int, precision: int, flags: Flags) {
    && (precision != 0 ==> ReadInt(t) == Some(num))
    && (precision == 0 ==> NoFigures(t))
    && '-' !in t && '+' !in t
    && Wide(t, width, precision, 0, Count(num, 10)) && Padded(t, flags, 0, 0, precision, Count(num, 10))
  }

  /** A hexadecimal number, with letters of one case and perhaps a prefix. */
  ghost predicate HexField(t: string, num: nat, width: int, precision: int, flags: Flags, prefix: bool, large: bool) {
    && (precision != 0 ==> ReadHex(t) == Some(num))
    && (precision == 0 ==> NoFigures(t))
    && '-' !in t && '+' !in t
    && ('x' in t <==> prefix && !large) && ('X' in t <==> prefix && large)
    && (forall c :: c in t ==> if large then !('a' <= c <= 'f') else !('A' <= c <= 'F'))
    && var k, marks := Count(num, 16), if prefix then 2 else 0;
    Wide(t, width, precision, marks, k) && Padded(t, flags, 0, marks, precision, k)
  }

  // -------------------------------------------------------------- trimming

  lemma FillCons(c: char, n: nat)
    requires n > 0
    ensures Fill(c, n) == [c] + Fill(c, n - 1)
  {
  }

  lemma {:induction false} TrimLeftFill(p: nat, u: string)
    ensures TrimLeft(Fill(' ', p) + u) == TrimLeft(u)
    decreases p
  {
    if p > 0 {
      FillCons(' ', p);
      assert (Fill(' ', p) + u)[1..] == Fill(' ', p - 1) + u;
      TrimLeftFill(p - 1, u);
    } else {
      assert Fill(' ', p) + u == u;
    }
  }

  lemma {:induction false} TrimRightFill(u: string, q: nat)
    ensures TrimRight(u + Fill(' ', q)) == TrimRight(u)
    decreases q
  {
    if q > 0 {
      var t := u + Fill(' ', q);
      assert t[..|t| - 1] == u + Fill(' ', q - 1);
      TrimRightFill(u, q - 1);
    } else {
      assert u + Fill(' ', q) == u;
    }
  }

  /** Blanks on either side of a text with none at its ends. */
  lemma Trimmed(p: nat, u: string, q: nat)
    requires u != [] && u[0] != ' ' && u[|u| - 1] != ' '
    ensures TrimRight(TrimLeft(Fill(' ', p) + u + Fill(' ', q))) == u
  {
    assert Fill(' ', p) + u + Fill(' ', q) == Fill(' ', p) + (u + Fill(' ', q));
    TrimLeftFill(p, u + Fill(' ', q));
    assert TrimLeft(u + Fill(' ', q)) == u + Fill(' ', q);
    TrimRightFill(u, q);
  }

  // ---------------------------------------------------------------- digits

  lemma {:induction false} ZerosValue(z: nat, base: nat)
    ensures Value(Fill('0', z), base) == 0
    decreases z
  {
    if z > 0 {
      assert Fill('0', z)[..z - 1] == Fill('0', z - 1);
      ZerosValue(z - 1, base);
    }
  }

  /** Zeros before a number make no difference. */
  lemma {:induction false} ZerosBefore(z: nat, d: string, base: nat)
    ensures Value(Fill('0', z) + d, base) == Value(d, base)
    decreases |d|
  {
    var t := Fill('0', z) + d;
    if d == [] {
      assert t == Fill('0', z);
      ZerosValue(z, base);
    } else {
      assert t[..|t| - 1] == Fill('0', z) + d[..|d| - 1];
      ZerosBefore(z, d[..|d| - 1], base);
    }
  }

  /** Every character of a number is a digit of its base, in the case asked for. */
  predicate Figure(c: char, base: nat, large: bool) {
    DigitValue(c) < base && (if large then !('a' <= c <= 'f') else !('A' <= c <= 'F'))
  }

  lemma {:induction false} DigitsFigures(m: nat, div: nat, large: bool)
    requires 2 <= div <= 16
    ensures forall k :: 0 <= k < |Digits(m, div, large)| ==> Figure(Digits(m, div, large)[k], div, large)
    decreases m
  {
    hide DigitValue, DigitChar, Figure;
    FigureChar(m % div, div, large);
    if m >= div {
      DivideLess(m, div);
      DigitsFigures(m / div, div, large);
    }
  }

  lemma FigureChar(d: nat, base: nat, large: bool)
    requires d < base <= 16
    ensures Figure(DigitChar(d, large), base, large)
  {
  }

  lemma {:induction false} DigitsCounted(m: nat, div: nat, large: bool)
    requires 2 <= div <= 16
    ensures |Digits(m, div, large)| == Count(m, div)
    decreases m
  {
    if m >= div {
      DivideLess(m, div);
      DigitsCounted(m / div, div, large);
    }
  }

  // ------------------------------------------------------------ the number

  /** Blanks, marks, zeros, digits, blanks. */
  function Laid(p: nat, mark: string, z: nat, d: string, q: nat): string {
    Fill(' ', p) + (mark + (Fill('0', z) + d)) + Fill(' ', q)
  }

  /** How a number is laid out. */
  lemma NumberLaid(b: Build, num: int, base: int, width: int, precision: int, flags: Flags)
    returns (p: nat, z: nat, q: nat)
    ensures var d := NumberDigits(num, base, flags); var mark := SignText(num, flags) + Prefix(b, base, flags);
      var fill := Max(width - |mark| - Max(precision, |d|), 0);
      && NumberText(b, num, base, width, precision, flags) == Laid(p, mark, z, if precision == 0 then "" else d, q)
      && q == (if flags.left then fill else 0)
      && p == (if flags.left || flags.zeroPad then 0 else fill)
      && z == Max(precision - |d|, 0) + (if !flags.left && flags.zeroPad then fill else 0)
  {
    hide SignText, Prefix, NumberDigits, Laid, Fill;
    var d, sign, prefix := NumberDigits(num, base, flags), SignText(num, flags), Prefix(b, base, flags);
    var fill, more := Max(width - |sign + prefix| - Max(precision, |d|), 0), Max(precision - |d|, 0);
    var shown := if precision == 0 then "" else d;
    SameFill('0', precision - |d|, more);
    SameFill(' ', Room(b, num, base, width, precision, flags), fill);
    SameFill('0', Room(b, num, base, width, precision, flags), fill);
    if flags.left {
      p, z, q := 0, more, fill;
      LaidLeft(sign, prefix, more, shown, fill);
    } else if flags.zeroPad {
      p, z, q := 0, more + fill, 0;
      LaidZeros(sign, prefix, fill, more, shown);
    } else {
      p, z, q := fill, more, 0;
      LaidRight(fill, sign, prefix, more, shown);
    }
  }

  lemma SameFill(c: char, n: int, m: nat)
    requires m == Max(n, 0)
    ensures Fill(c, n) == Fill(c, m)
  {
  }

  lemma LaidLeft(sign: string, prefix: string, z: nat, d: string, q: nat)
    ensures sign + prefix + (Fill('0', z) + d) + Fill(' ', q) == Laid(0, sign + prefix, z, d, q)
  {
  }

  lemma LaidZeros(sign: string, prefix: string, y: nat, z: nat, d: string)
    ensures sign + prefix + Fill('0', y) + (Fill('0', z) + d) == Laid(0, sign + prefix, z + y, d, 0)
  {
    hide Laid, Fill;
    FillJoined('0', y, z);
    Regrouped(sign, prefix, Fill('0', y), Fill('0', z), d);
    LaidAlone(sign + prefix, z + y, d);
  }

  lemma FillJoined(c: char, y: nat, z: nat)
    ensures Fill(c, y) + Fill(c, z) == Fill(c, z + y)
  {
  }

  lemma Regrouped(a: string, b: string, y: string, z: string, d: string)
    ensures a + b + y + (z + d) == a + b + ((y + z) + d)
  {
  }

  lemma LaidAlone(mark: string, z: nat, d: string)
    ensures Laid(0, mark, z, d, 0) == mark + (Fill('0', z) + d)
  {
  }

  lemma LaidRight(p: nat, sign: string, prefix: string, z: nat, d: string)
    ensures Fill(' ', p) + sign + prefix + (Fill('0', z) + d) == Laid(p, sign + prefix, z, d, 0)
  {
  }

  // ------------------------------------------------------- reading it back

  lemma LaidLength(p: nat, mark: string, z: nat, d: string, q: nat)
    ensures |Laid(p, mark, z, d, q)| == p + |mark| + z + |d| + q
  {
  }

  /** Where the blanks are. */
  lemma LaidBlanks(p: nat, mark: string, z: nat, d: string, q: nat)
    requires ' ' !in d && |mark| <= 2 && (mark != " " ==> ' ' !in mark)
    ensures var t, lead := Laid(p, mark, z, d, q), if mark == " " then 1 else 0;
      forall j :: 0 <= j < |t| ==> (t[j] == ' ' <==> j < p + lead || |t| - q <= j)
  {
    var t, lead := Laid(p, mark, z, d, q), if mark == " " then 1 else 0;
    var body := mark + (Fill('0', z) + d);
    forall j | 0 <= j < |body| ensures body[j] == ' ' <==> j < lead {
      if j < |mark| { assert body[j] == mark[j]; } else { BodyFigures(mark, z, d, j); }
    }
    ThreeParts(p, body, q);
  }

  lemma BodyFigures(mark: string, z: nat, d: string, j: nat)
    requires ' ' !in d && |mark| <= j < |mark| + z + |d|
    ensures (mark + (Fill('0', z) + d))[j] != ' '
  {
    var u := Fill('0', z) + d;
    if j - |mark| >= z { assert d[j - |mark| - z] in d && u[j - |mark|] == d[j - |mark| - z]; }
  }

  lemma ThreeParts(p: nat, body: string, q: nat)
    ensures var t := Fill(' ', p) + body + Fill(' ', q);
      |t| == p + |body| + q && forall j :: 0 <= j < |t| ==>
        t[j] == if j < p then ' ' else if j < p + |body| then body[j - p] else ' '
  {
  }

  /** Which characters there are. */
  lemma LaidChars(p: nat, mark: string, z: nat, d: string, q: nat, c: char)
    ensures c in Laid(p, mark, z, d, q) <==> (c == ' ' && p + q > 0) || c in mark || (c == '0' && z > 0) || c in d
  {
    InFill(' ', p, c);
    InFill('0', z, c);
    InFill(' ', q, c);
  }

  lemma InFill(x: char, n: nat, c: char)
    ensures c in Fill(x, n) <==> c == x && n > 0
  {
    if n > 0 { assert Fill(x, n)[0] == x; }
  }

  lemma NumberRead(z: nat, d: string, base: nat)
    requires AllDigits(d, base) && base >= 1
    ensures var u := Fill('0', z) + d;
      && ReadNat(u, base) == Some(Value(d, base)) && u != []
      && forall k :: 0 <= k < |u| ==> DigitValue(u[k]) < base
  {
    hide DigitValue, Value;
    ZerosBefore(z, d, base);
    ZeroValue();
    var u := Fill('0', z) + d;
    forall k | 0 <= k < |u| ensures DigitValue(u[k]) < base {
      if k < z { assert u[k] == '0'; } else { assert u[k] == d[k - z]; }
    }
  }

  lemma ZeroValue()
    ensures DigitValue('0') == 0
  {
  }

  lemma LaidBlankMark(p: nat, z: nat, d: string, q: nat)
    ensures Laid(p, " ", z, d, q) == Laid(p + 1, "", z, d, q)
  {
    assert Fill(' ', p + 1) == Fill(' ', p) + " ";
  }

  function SignOf(mark: string, n: int): int { if mark == "-" then -n else n }

  lemma ReadLaidInt(p: nat, mark: string, z: nat, d: string, q: nat)
    requires AllDigits(d, 10) && mark in ["", "-", "+", " "]
    ensures ReadInt(Laid(p, mark, z, d, q)) == Some(SignOf(mark, Value(d, 10)))
  {
    hide Fill, Value, TrimLeft, TrimRight;
    NumberRead(z, d, 10);
    if mark == " " {
      LaidBlankMark(p, z, d, q);
      ReadLaidPlain(p + 1, "", z, d, q);
    } else {
      ReadLaidPlain(p, mark, z, d, q);
    }
  }

  lemma ReadLaidPlain(p: nat, mark: string, z: nat, d: string, q: nat)
    requires AllDigits(d, 10) && mark in ["", "-", "+"]
    ensures ReadInt(Laid(p, mark, z, d, q)) == Some(SignOf(mark, Value(d, 10)))
  {
    hide Fill, Value, TrimLeft, TrimRight, ReadNat;
    NumberRead(z, d, 10);
    var n := Fill('0', z) + d;
    var u := mark + n;
    assert u[|u| - 1] == n[|n| - 1];
    Trimmed(p, u, q);
    if mark == "" { assert u == n; } else { assert u[1..] == n && u[0] == mark[0]; }
  }

  lemma NotDigits()
    ensures DigitValue(' ') >= 16 && DigitValue('x') >= 16 && DigitValue('X') >= 16
  {
  }

  lemma ReadLaidHex(p: nat, mark: string, z: nat, d: string, q: nat)
    requires AllDigits(d, 16) && mark in ["", "0x", "0X"]
    ensures ReadHex(Laid(p, mark, z, d, q)) == Some(Value(d, 16))
  {
    hide Fill, Value, TrimLeft, TrimRight, ReadNat, DigitValue, Bare;
    NumberRead(z, d, 16);
    var n := Fill('0', z) + d;
    var u := mark + n;
    assert u[|u| - 1] == n[|n| - 1];
    NotDigits();
    BareIs(mark, n);
    Trimmed(p, u, q);
  }

  lemma BareIs(mark: string, n: string)
    requires mark in ["", "0x", "0X"] && AllDigits(n, 16)
    ensures Bare(mark + n) == n && mark + n != [] && (mark + n)[0] != ' '
  {
    hide DigitValue;
    NotDigits();
    if mark == "" { assert mark + n == n; } else { assert (mark + n)[2..] == n && (mark + n)[1] == mark[1]; }
  }

  lemma ReadLaidOct(p: nat, z: nat, d: string, q: nat)
    requires AllDigits(d, 16)
    ensures ReadHex(Laid(p, "0", z, d, q)) == Some(Value(d, 16))
  {
    assert "0" + (Fill('0', z) + d) == "" + (Fill('0', z + 1) + d) by { FillCons('0', z + 1); }
    assert Laid(p, "0", z, d, q) == Laid(p, "", z + 1, d, q);
    ReadLaidHex(p, "", z + 1, d, q);
  }

  // ------------------------------------------------------- what is printed

  /** The digits of a number. */
  lemma DigitsRead(m: nat, div: nat, large: bool)
    requires 2 <= div <= 16
    ensures var d := Digits(m, div, large);
      && AllDigits(d, div) && Value(d, div) == m && |d| == Count(m, div) && ' ' !in d
      && '-' !in d && '+' !in d && 'x' !in d && 'X' !in d
      && forall c :: c in d ==> Figure(c, div, large)
  {
    hide Digits, Value;
    DigitsFigures(m, div, large);
    DigitsMean(m, div, large);
    DigitsCounted(m, div, large);
  }

  /** The layout, as the fields describe it. */
  lemma LaidField(t: string, p: nat, mark: string, z: nat, d: string, q: nat, width: int, precision: int, k: nat,
                  flags: Flags)
    requires t == Laid(p, mark, z, if precision == 0 then "" else d, q) && k == |d|
    requires ' ' !in d && |mark| <= 2 && (mark != " " ==> ' ' !in mark)
    requires var fill := Max(width - |mark| - Max(precision, k), 0);
      && q == (if flags.left then fill else 0)
      && p == (if flags.left || flags.zeroPad then 0 else fill)
      && z == Max(precision - k, 0) + (if !flags.left && flags.zeroPad then fill else 0)
    ensures Wide(t, width, precision, |mark|, k)
    ensures Padded(t, flags, if mark == " " then 1 else 0, |mark|, precision, k)
  {
    var shown := if precision == 0 then "" else d;
    LaidLength(p, mark, z, shown, q);
    LaidBlanks(p, mark, z, shown, q);
  }

  /** A signed decimal reads back, whatever the width, the precision and the flags are. */
  lemma SignedReads(b: Build, num: int, width: int, precision: int, flags: Flags)
    requires flags.sign && -WORD / 2 <= num < WORD / 2
    ensures SignedField(NumberText(b, num, 10, width, precision, flags), num, width, precision, flags)
  {
    hide NumberText, Laid, Digits, Value, ReadInt, Wide, Padded, Count;
    var p, z, q := NumberLaid(b, num, 10, width, precision, flags);
    var m := if num < 0 then -num else num;
    var d, mark := Digits(m, 10, flags.large), SignText(num, flags) + Prefix(b, 10, flags);
    assert d == NumberDigits(num, 10, flags);
    assert mark == SignText(num, flags);
    DigitsRead(m, 10, flags.large);
    var shown := if precision == 0 then "" else d;
    var t := Laid(p, mark, z, shown, q);
    LaidField(t, p, mark, z, d, q, width, precision, |d|, flags);
    LaidChars(p, mark, z, shown, q, '-');
    LaidChars(p, mark, z, shown, q, '+');
    if precision == 0 { NothingShown(p, mark, z, q); } else { ReadLaidInt(p, mark, z, d, q); }
  }

  lemma NothingShown(p: nat, mark: string, z: nat, q: nat)
    requires mark in ["", "-", "+", " ", "0x", "0X", "0"]
    ensures NoFigures(Laid(p, mark, z, "", q))
  {
    hide Laid;
    forall c | c in Laid(p, mark, z, "", q) ensures DigitValue(c) == 0 || DigitValue(c) >= 16 {
      LaidChars(p, mark, z, "", q, c);
    }
  }

  /** So does an unsigned one. */
  lemma UnsignedReads(b: Build, num: int, width: int, precision: int, flags: Flags)
    requires !flags.sign
    ensures UnsignedField(NumberText(b, num, 10, width, precision, flags), num % WORD, width, precision, flags)
  {
    hide NumberText, Laid, Digits, Value, ReadInt, Wide, Padded, Count;
    var p, z, q := NumberLaid(b, num, 10, width, precision, flags);
    var d := Digits(num % WORD, 10, flags.large);
    assert d == NumberDigits(num, 10, flags);
    assert SignText(num, flags) + Prefix(b, 10, flags) == "";
    DigitsRead(num % WORD, 10, flags.large);
    var shown := if precision == 0 then "" else d;
    var t := Laid(p, "", z, shown, q);
    LaidField(t, p, "", z, d, q, width, precision, |d|, flags);
    LaidChars(p, "", z, shown, q, '-');
    LaidChars(p, "", z, shown, q, '+');
    if precision == 0 { NothingShown(p, "", z, q); } else { ReadLaidInt(p, "", z, d, q); }
  }

  /** So does a hexadecimal one, with or without a prefix, in the letters asked for. */
  lemma HexReads(b: Build, num: int, width: int, precision: int, flags: Flags)
    requires !flags.sign
    ensures HexField(NumberText(b, num, 16, width, precision, flags), num % WORD, width, precision, flags,
                     b.special && flags.special, flags.large)
  {
    hide NumberText, Laid, Digits, Value, ReadHex, Wide, Padded, Count, DigitValue;
    var p, z, q := NumberLaid(b, num, 16, width, precision, flags);
    var d, mark := Digits(num % WORD, 16, flags.large), Prefix(b, 16, flags);
    assert d == NumberDigits(num, 16, flags);
    assert SignText(num, flags) + mark == mark;
    DigitsRead(num % WORD, 16, flags.large);
    var shown := if precision == 0 then "" else d;
    var t := Laid(p, mark, z, shown, q);
    LaidField(t, p, mark, z, d, q, width, precision, |d|, flags);
    LaidChars(p, mark, z, shown, q, '-');
    LaidChars(p, mark, z, shown, q, '+');
    LaidChars(p, mark, z, shown, q, 'x');
    LaidChars(p, mark, z, shown, q, 'X');
    forall c | c in t ensures if flags.large then !('a' <= c <= 'f') else !('A' <= c <= 'F') {
      LaidChars(p, mark, z, shown, q, c);
    }
    if precision == 0 { NothingShown(p, mark, z, q); } else { ReadLaidHex(p, mark, z, d, q); }
  }

  /** An octal conversion reads back in base 16: that is what it divides by.  With the prefix
      there is one zero more. */
  ghost predicate OctField(t: string, num: nat, width: int, precision: int, flags: Flags, prefix: bool) {
    && (precision != 0 ==> ReadHex(t) == Some(num))
    && (precision == 0 ==> NoFigures(t))
    && '-' !in t && '+' !in t && 'x' !in t && 'X' !in t
    && (forall c :: c in t ==> !('A' <= c <= 'F'))
    && var k, marks := Count(num, 16), if prefix then 1 else 0;
    Wide(t, width, precision, marks, k) && Padded(t, flags, 0, marks, precision, k)
  }

  lemma OctReads(b: Build, num: int, width: int, precision: int, flags: Flags)
    requires !flags.sign && !flags.large
    ensures OctField(NumberText(b, num, 8, width, precision, flags), num % WORD, width, precision, flags,
                     b.special && flags.special)
  {
    hide NumberText, Laid, Digits, Value, ReadHex, Wide, Padded, Count, DigitValue;
    var p, z, q := NumberLaid(b, num, 8, width, precision, flags);
    var d, mark := Digits(num % WORD, 16, flags.large), Prefix(b, 8, flags);
    assert d == NumberDigits(num, 8, flags);
    assert SignText(num, flags) + mark == mark;
    DigitsRead(num % WORD, 16, flags.large);
    var shown := if precision == 0 then "" else d;
    var t := Laid(p, mark, z, shown, q);
    LaidField(t, p, mark, z, d, q, width, precision, |d|, flags);
    LaidChars(p, mark, z, shown, q, '-');
    LaidChars(p, mark, z, shown, q, '+');
    LaidChars(p, mark, z, shown, q, 'x');
    LaidChars(p, mark, z, shown, q, 'X');
    forall c | c in t ensures !('A' <= c <= 'F') { LaidChars(p, mark, z, shown, q, c); }
    if precision == 0 {
      NothingShown(p, mark, z, q);
    } else if mark == "" {
      ReadLaidHex(p, mark, z, d, q);
    } else {
      ReadLaidOct(p, z, d, q);
    }
  }

  // -------------------------------------------------- characters and strings

  /** One character, with blanks before it, or behind it if left justified. */
  ghost predicate CharField(t: string, c: char, width: int, left: bool) {
    && |t| == Max(width, 1)
    && (if left then t[0] == c else t[|t| - 1] == c)
    && forall j :: 0 <= j < |t| && j != (if left then 0 else |t| - 1) ==> t[j] == ' '
  }

  lemma CharRead(c: char, width: int, left: bool)
    ensures CharField(CharText(c, width, left), c, width, left)
  {
  }

  /** The first n characters of a C string, with blanks before them, or behind them if left
      justified; n is as large as the string, the width and a positive precision allow. */
  ghost predicate StringField(t: string, s: string, width: int, precision: int, left: bool) {
    exists n: nat :: n <= |s| && AsMuch(s, width, precision, n) && |t| == Max(width, n)
      && (forall j :: 0 <= j < n ==> (if left then t[j] else t[|t| - n + j]) == s[j])
      && (forall j :: 0 <= j < |t| - n ==> (if left then t[n + j] else t[j]) == ' ')
  }

  ghost predicate AsMuch(s: string, width: int, precision: int, n: nat)
    requires n <= |s|
  {
    && (forall k :: 0 <= k < n ==> s[k] != NUL)
    && (width >= 0 ==> n <= width) && (precision > 0 ==> n <= precision)
    && (n == |s| || s[n] == NUL || n == width || (n == precision && precision > 0))
  }

  lemma StringRead(s: string, width: int, precision: int, left: bool)
    ensures StringField(StringText(s, width, precision, left), s, width, precision, left)
  {
    var n := Shown(s, width, precision);
    var t := StringText(s, width, precision, left);
    assert AsMuch(s, width, precision, n);
  }
}
