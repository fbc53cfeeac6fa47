/** What the kernel's formatter prints, as plain text without a buffer
    (rt-thread/src/kservice.c, on a 32-bit machine and without RT_PRINTF_LONGLONG). */
module FormatSpec {
  import opened Wrappers
  import opened Words

  const NUL := '\0'

  /** RT_PRINTF_SPECIAL is a build switch. */
  datatype Build = Build(special: bool)

  datatype Flags = Flags(zeroPad: bool, sign: bool, plus: bool, space: bool, left: bool, special: bool, large: bool)

  const NO_FLAGS := Flags(false, false, false, false, false, false, false)

  /** The variable arguments: machine words, and strings that may be NULL. */
  datatype Arg = Word(w: nat) | Text(s: Option<string>)

  // ------------------------------------------------------------------- words

  function Signed(w: nat): int {
    var v := w % WORD; if v < WORD / 2 then v else v - WORD
  }

  /** The argument as a word; one that is missing or of the other kind reads as 0. */
  function WordOf(args: seq<Arg>): nat {
    if args != [] && args[0].Word? then args[0].w % WORD else 0
  }

  function TextOf(args: seq<Arg>): Option<string> {
    if args != [] && args[0].Text? then args[0].s else None
  }

  function Next(args: seq<Arg>): seq<Arg> { if args == [] then [] else args[1..] }

  // ------------------------------------------------------------------ digits

  function DigitChar(d: nat, large: bool): char
    requires d < 16
  {
    if large then "0123456789ABCDEF"[d] else "0123456789abcdef"[d]
  }

  /** What `divide` divides by. */
  function Divisor(base: int): nat { if base == 10 then 10 else 16 }

  /** The digits of m, the most significant first. */
  function Digits(m: nat, div: nat, large: bool): (t: string)
    requires 2 <= div <= 16
    ensures t != []
    decreases m
  {
    if m < div then [DigitChar(m, large)]
    else
      DivideLess(m, div);
      Digits(m / div, div, large) + [DigitChar(m % div, large)]
  }

  lemma DivideLess(m: nat, div: nat)
    requires 2 <= div <= m
    ensures 1 <= m / div < m
  {
    var q, r := m / div, m % div;
    assert m == div * q + r && div * q >= 2 * q;
  }

  predicate IsDigit(c: char) { '0' <= c <= '9' }

  function DigitValue(c: char): nat {
    if '0' <= c <= '9' then (c - '0') as nat
    else if 'a' <= c <= 'f' then (c - 'a') as nat + 10
    else if 'A' <= c <= 'F' then (c - 'A') as nat + 10
    else 99
  }

  /** The number that a string of digits means. */
  function Value(t: string, base: nat): nat {
    if t == [] then 0 else Value(t[..|t| - 1], base) * base + DigitValue(t[|t| - 1])
  }

  // ----------------------------------------------------------------- numbers

  function Fill(c: char, n: int): (t: string)
    ensures |t| == if n > 0 then n else 0
    ensures forall k :: 0 <= k < |t| ==> t[k] == c
    decreases if n > 0 then n else 0
  {
    if n > 0 then Fill(c, n - 1) + [c] else []
  }

  /** The number without its sign: a signed one's absolute value, or else the word. */
  function Magnitude(num: int, sign: bool): nat {
    if sign && num < 0 then -num else num % WORD
  }

  function SignText(num: int, flags: Flags): string {
    if !flags.sign then ""
    else if num < 0 then "-"
    else if flags.plus then "+"
    else if flags.space then " "
    else ""
  }

  function Prefix(b: Build, base: int, flags: Flags): string {
    if !(b.special && flags.special) then ""
    else if base == 8 then "0"
    else if base == 16 then (if flags.large then "0X" else "0x")
    else ""
  }

  function NumberDigits(num: int, base: int, flags: Flags): string {
    Digits(Magnitude(num, flags.sign), Divisor(base), flags.large)
  }

  /** The blanks or zeros it takes to fill the field. */
  function Room(b: Build, num: int, base: int, width: int, precision: int, flags: Flags): int {
    width - |Prefix(b, base, flags)| - |SignText(num, flags)| - Max(precision, |NumberDigits(num, base, flags)|)
  }

  /** `print_number`, with unlimited space. */
  function NumberText(b: Build, num: int, base: int, width: int, precision: int, flags: Flags): string {
    var sign, prefix, digits := SignText(num, flags), Prefix(b, base, flags), NumberDigits(num, base, flags);
    var room := Room(b, num, base, width, precision, flags);
    var number := Fill('0', precision - |digits|) + (if precision == 0 then "" else digits);
    if flags.left then sign + prefix + number + Fill(' ', room)
    else if flags.zeroPad then sign + prefix + Fill('0', room) + number
    else Fill(' ', room) + sign + prefix + number
  }

  // ------------------------------------------------------------- the others

  /** The length of a C string. */
  function Length(s: string): (n: nat)
    ensures n <= |s| && (n < |s| ==> s[n] == NUL) && forall k :: 0 <= k < n ==> s[k] != NUL
  {
    if s == [] || s[0] == NUL then 0 else
      assert forall k :: 1 <= k < |s| ==> s[k] == s[1..][k - 1];
      1 + Length(s[1..])
  }

  /** How much of a string is printed: no more than the field width, if there is one, and no
      more than the precision, if it is positive. */
  function Shown(s: string, width: int, precision: int): (n: nat)
    ensures n <= Length(s)
  {
    var n := if 0 <= width < Length(s) then width else Length(s);
    if 0 < precision < n then precision else n
  }

  function StringText(s: string, width: int, precision: int, left: bool): string {
    var n := Shown(s, width, precision);
    if left then s[..n] + Fill(' ', width - n) else Fill(' ', width - n) + s[..n]
  }

  function CharText(c: char, width: int, left: bool): string {
    if left then [c] + Fill(' ', width - 1) else Fill(' ', width - 1) + [c]
  }

  // -------------------------------------------------------- reading a format

  function At(fmt: string, i: nat): char { if i < |fmt| then fmt[i] else NUL }

  /** `skip_atoi`: the number at i and where it ends. */
  function Atoi(fmt: string, i: nat, n: nat): (r: (nat, nat))
    ensures r.1 >= i && (i <= |fmt| ==> r.1 <= |fmt|) && !IsDigit(At(fmt, r.1))
    ensures IsDigit(At(fmt, i)) ==> r.1 > i
    decreases |fmt| - i
  {
    if IsDigit(At(fmt, i)) then Atoi(fmt, i + 1, n * 10 + DigitValue(At(fmt, i))) else (n, i)
  }

  function FlagOf(c: char, flags: Flags): Option<Flags> {
    match c
    case '-' => Some(flags.(left := true))
    case '+' => Some(flags.(plus := true))
    case ' ' => Some(flags.(space := true))
    case '#' => Some(flags.(special := true))
    case '0' => Some(flags.(zeroPad := true))
    case _ => None
  }

  function ReadFlags(fmt: string, i: nat, flags: Flags): (r: (Flags, nat))
    ensures r.1 >= i && (i <= |fmt| ==> r.1 <= |fmt|)
    decreases |fmt| - i
  {
    var f := FlagOf(At(fmt, i), flags);
    if f.Some? && i < |fmt| then ReadFlags(fmt, i + 1, f.value) else (flags, i)
  }

  /** A conversion as it is being read: where the reading is, and what arguments are left. */
  datatype Spec = Spec(flags: Flags, width: int, precision: int, qualifier: char, at: nat, args: seq<Arg>)

  /** A negative width from the arguments means left justified. */
  function ReadWidth(fmt: string, s: Spec): (r: Spec)
    ensures r.at >= s.at && (s.at <= |fmt| ==> r.at <= |fmt|)
  {
    if IsDigit(At(fmt, s.at)) then
      var (n, i) := Atoi(fmt, s.at, 0);
      s.(width := n, at := i)
    else if At(fmt, s.at) == '*' then
      var w := Signed(WordOf(s.args));
      s.(width := if w < 0 then -w else w, flags := if w < 0 then s.flags.(left := true) else s.flags,
         at := s.at + 1, args := Next(s.args))
    else s.(width := -1)
  }

  /** A negative precision from the arguments counts as 0. */
  function ReadPrecision(fmt: string, s: Spec): (r: Spec)
    ensures r.at >= s.at && (s.at <= |fmt| ==> r.at <= |fmt|)
  {
    if At(fmt, s.at) != '.' then s.(precision := -1)
    else if IsDigit(At(fmt, s.at + 1)) then
      var (n, i) := Atoi(fmt, s.at + 1, 0);
      s.(precision := n, at := i)
    else if At(fmt, s.at + 1) == '*' then
      var p := Signed(WordOf(s.args));
      s.(precision := if p < 0 then 0 else p, at := s.at + 2, args := Next(s.args))
    else s.(precision := 0, at := s.at + 1)
  }

  function ReadQualifier(fmt: string, s: Spec): (r: Spec)
    ensures r.at >= s.at && (s.at <= |fmt| ==> r.at <= |fmt|)
  {
    if At(fmt, s.at) == 'h' || At(fmt, s.at) == 'l' then s.(qualifier := At(fmt, s.at), at := s.at + 1)
    else s.(qualifier := NUL)
  }

  /** Everything between the '%' before i and the conversion character. */
  function ReadSpec(fmt: string, i: nat, args: seq<Arg>): (r: Spec)
    requires i <= |fmt|
    ensures i <= r.at <= |fmt|
  {
    var (flags, at) := ReadFlags(fmt, i, NO_FLAGS);
    ReadQualifier(fmt, ReadPrecision(fmt, ReadWidth(fmt, Spec(flags, -1, -1, NUL, at, args))))
  }

  /** The number an integer conversion prints. */
  function Number(s: Spec, sign: bool): int {
    var w := WordOf(s.args);
    if s.qualifier == 'h' then
      var half := w % 0x1_0000; if sign && half >= 0x8000 then half - 0x1_0000 else half
    else Signed(w)
  }

  /** What a conversion prints, where the reading goes on, and the arguments left.  A format
      that ends in the middle of one prints the '%'. */
  function Convert(b: Build, fmt: string, s: Spec): (r: (string, nat, seq<Arg>))
    requires s.at <= |fmt|
    ensures s.at <= r.1 <= |fmt|
  {
    var rest, f := Next(s.args), s.flags;
    match At(fmt, s.at)
    case 'c' => (CharText((WordOf(s.args) % 256) as char, s.width, f.left), s.at + 1, rest)
    case 's' =>
      var text := if TextOf(s.args).Some? then TextOf(s.args).value else "(NULL)";
      (StringText(text, s.width, s.precision, f.left), s.at + 1, rest)
    case 'p' =>
      var f' := if s.width == -1 then f.(zeroPad := true) else f;
      (NumberText(b, Signed(WordOf(s.args)), 16, if s.width == -1 then 8 else s.width, s.precision, f'), s.at + 1, rest)
    case '%' => ("%", s.at + 1, s.args)
    case 'o' => (NumberText(b, Number(s, f.sign), 8, s.width, s.precision, f), s.at + 1, rest)
    case 'X' => (NumberText(b, Number(s, f.sign), 16, s.width, s.precision, f.(large := true)), s.at + 1, rest)
    case 'x' => (NumberText(b, Number(s, f.sign), 16, s.width, s.precision, f), s.at + 1, rest)
    case 'd' => (NumberText(b, Number(s, true), 10, s.width, s.precision, f.(sign := true)), s.at + 1, rest)
    case 'i' => (NumberText(b, Number(s, true), 10, s.width, s.precision, f.(sign := true)), s.at + 1, rest)
    case 'u' => (NumberText(b, Number(s, f.sign), 10, s.width, s.precision, f), s.at + 1, rest)
    case _ => if At(fmt, s.at) == NUL then ("%", s.at, s.args) else (['%', At(fmt, s.at)], s.at + 1, s.args)
  }

  /** Everything printed from i on, with unlimited space. */
  function Render(b: Build, fmt: string, i: nat, args: seq<Arg>): string
    decreases |fmt| - i
  {
    if At(fmt, i) == NUL then ""
    else if fmt[i] != '%' then [fmt[i]] + Render(b, fmt, i + 1, args)
    else
      var (text, j, rest) := Convert(b, fmt, ReadSpec(fmt, i + 1, args));
      text + Render(b, fmt, j, rest)
  }

  // ---------------------------------------------------------------- theorems

  lemma DigitCharValue(d: nat, large: bool)
    requires d < 16
    ensures DigitValue(DigitChar(d, large)) == d
    ensures d < 10 ==> IsDigit(DigitChar(d, large))
  {
  }

  /** The digits printed mean the number, in the base that was divided by. */
  lemma {:induction false} DigitsMean(m: nat, div: nat, large: bool)
    requires 2 <= div <= 16
    ensures Value(Digits(m, div, large), div) == m
    decreases m
  {
    hide DigitValue, DigitChar;
    if m < div {
      DigitCharValue(m, large);
      ValueSnoc([], DigitChar(m, large), div);
      assert [] + [DigitChar(m, large)] == [DigitChar(m, large)];
    } else {
      DivideLess(m, div);
      DigitsMean(m / div, div, large);
      DigitCharValue(m % div, large);
      ValueSnoc(Digits(m / div, div, large), DigitChar(m % div, large), div);
      DivMod(m, div);
    }
  }

  lemma DivMod(m: nat, div: nat)
    requires div > 0
    ensures m / div * div + m % div == m
  {
  }

  /** There is no leading zero, except for 0 itself. */
  lemma {:induction false} NoLeadingZero(m: nat, div: nat, large: bool)
    requires 2 <= div <= 16
    ensures m > 0 ==> DigitValue(Digits(m, div, large)[0]) > 0
    ensures m == 0 ==> Digits(m, div, large) == "0"
    decreases m
  {
    hide DigitValue, DigitChar;
    if m < div {
      DigitCharValue(m, large);
      ZeroDigit(large);
    } else {
      DivideLess(m, div);
      NoLeadingZero(m / div, div, large);
    }
  }

  lemma ZeroDigit(large: bool)
    ensures DigitChar(0, large) == '0'
  {
  }

  lemma ValueSnoc(t: string, c: char, base: nat)
    ensures Value(t + [c], base) == Value(t, base) * base + DigitValue(c)
  {
    assert (t + [c])[..|t + [c]| - 1] == t;
  }

  /** Octal conversions divide by 16: they print the octal digits exactly when there is only
      one. */
  lemma OctalExactly(num: int, flags: Flags)
    ensures NumberDigits(num, 8, flags) == Digits(Magnitude(num, flags.sign), 8, flags.large)
      <==> Magnitude(num, flags.sign) < 8
  {
    var m := Magnitude(num, flags.sign);
    DigitsMean(m, 16, flags.large);
    if m >= 8 { OctalLonger(m, flags.large); }
  }

  lemma {:induction false} OctalLonger(m: nat, large: bool)
    requires m >= 8
    ensures Digits(m, 8, large) != Digits(m, 16, large)
    decreases m
  {
    var t, u := Digits(m, 8, large), Digits(m, 16, large);
    DivideLess(m, 8);
    if m >= 16 {
      DivideLess(m, 16);
      assert t[..|t| - 1] == Digits(m / 8, 8, large) && u[..|u| - 1] == Digits(m / 16, 16, large);
      DigitsMean(m / 8, 8, large);
      DigitsMean(m / 16, 16, large);
      OctalValueLess(Digits(m / 16, 16, large));
      assert m / 8 > m / 16;
      assert t[..|t| - 1] != u[..|u| - 1];
    }
  }

  /** A string of digits means no less in base 16 than in base 8. */
  lemma {:induction false} OctalValueLess(t: string)
    ensures Value(t, 8) <= Value(t, 16)
  {
    if t != [] { OctalValueLess(t[..|t| - 1]); }
  }

  /** A field is as wide as asked for, or as its contents, except that a precision of 0
      prints no digits. */
  lemma NumberLength(b: Build, num: int, base: int, width: int, precision: int, flags: Flags)
    ensures var n, contents := |NumberDigits(num, base, flags)|,
                               |SignText(num, flags)| + |Prefix(b, base, flags)| +
                                 Max(precision, |NumberDigits(num, base, flags)|);
      |NumberText(b, num, base, width, precision, flags)| ==
        Max(width, contents) - (if precision == 0 then n else 0)
  {
  }

  /** With a field width a string takes up exactly that many characters: a longer one is cut
      off, whatever the precision. */
  lemma StringLength(s: string, width: int, precision: int, left: bool)
    ensures |StringText(s, width, precision, left)| == if width >= 0 then width else Shown(s, width, precision)
    ensures Shown(s, width, precision) == Length(s) <==>
      (0 <= width ==> Length(s) <= width) && (0 < precision ==> Length(s) <= precision)
  {
  }

  /** Reading a decimal back. */
  lemma {:induction false} AtoiValue(t: string, rest: string, k: nat)
    requires k <= |t| && (forall i :: 0 <= i < |t| ==> IsDigit(t[i])) && (rest != [] ==> !IsDigit(rest[0]))
    ensures Atoi(t + rest, k, Value(t[..k], 10)) == (Value(t, 10), |t|)
    decreases |t| - k
  {
    var s := t + rest;
    if k < |t| {
      assert s[k] == t[k];
      assert t[..k + 1][..|t[..k + 1]| - 1] == t[..k] && t[..k + 1][|t[..k + 1]| - 1] == t[k];
      AtoiValue(t, rest, k + 1);
    } else {
      assert t[..k] == t;
    }
  }

  lemma {:induction false} DecimalDigits(m: nat, large: bool)
    ensures forall i :: 0 <= i < |Digits(m, 10, large)| ==> IsDigit(Digits(m, 10, large)[i])
    decreases m
  {
    DigitCharValue(m % 10, large);
    if m >= 10 {
      DivideLess(m, 10);
      DecimalDigits(m / 10, large);
    }
  }

  /** `skip_atoi` reads back what a plain decimal conversion of any int from 0 up prints, and
      stops behind it. */
  lemma AtoiReadsBack(b: Build, n: nat, flags: Flags, rest: string)
    requires n < WORD / 2 && !flags.plus && !flags.space && (rest != [] ==> !IsDigit(rest[0]))
    ensures var t := NumberText(b, n, 10, -1, -1, flags);
      Atoi(t + rest, 0, 0) == (n, |t|)
  {
    PlainDecimal(b, n, flags);
    hide NumberText, Digits, Value, Atoi;
    var t := Digits(n, 10, flags.large);
    DigitsMean(n, 10, flags.large);
    DecimalDigits(n, flags.large);
    NoValue(t);
    AtoiValue(t, rest, 0);
  }

  lemma NoValue(t: string)
    ensures Value(t[..0], 10) == 0
  {
  }

  /** Without width, precision and sign only the digits are printed. */
  lemma PlainDecimal(b: Build, n: nat, flags: Flags)
    requires n < WORD / 2 && !flags.plus && !flags.space
    ensures NumberText(b, n, 10, -1, -1, flags) == Digits(n, 10, flags.large)
  {
    hide Digits;
    assert Magnitude(n, flags.sign) == n;
  }

  /** A number below the k-th power of the base has at most k digits. */
  lemma {:induction false} DigitsFit(m: nat, div: nat, large: bool, k: nat)
    requires (div == 10 || div == 16) && k >= 1 && m < Power(div, k)
    ensures |Digits(m, div, large)| <= k
    decreases k
  {
    if m >= div {
      DivideLess(m, div);
      PowerDown(m, div, k);
      DigitsFit(m / div, div, large, k - 1);
    }
  }

  function Power(div: nat, k: nat): nat { if k == 0 then 1 else div * Power(div, k - 1) }

  lemma PowerDown(m: nat, div: nat, k: nat)
    requires 2 <= div <= m < Power(div, k) && k >= 1
    ensures k >= 2 && m / div < Power(div, k - 1)
  {
    var q, p := m / div, Power(div, k - 1);
    assert m == div * q + m % div && Power(div, k) == div * p && Power(div, 0) == 1;
    if q >= p { Times(div, p, q); }
  }

  lemma Times(a: nat, x: nat, y: nat)
    requires x <= y
    ensures a * x <= a * y
  {
  }
}
