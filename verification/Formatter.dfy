/** The kernel's formatter (rt-thread/src/kservice.c).  A position runs on past the end of
    the buffer, as `str` does; stores happen only inside.  Whatever is printed is what
    `FormatSpec` says, as far as there is room. */
module Formatter {
  import opened Wrappers
  import opened Words
  import opened FormatSpec

  /** The text `out` has been printed over what was there. */
  ghost predicate Printed(b: seq<char>, was: seq<char>, out: string) {
    |b| == |was| && forall k :: 0 <= k < |b| ==> b[k] == if k < |out| then out[k] else was[k]
  }

  /** As much of the text as fits, a NUL behind it, and the rest as it was. */
  ghost predicate Stored(b: seq<char>, was: seq<char>, out: string) {
    && |b| == |was|
    && var n := if |out| < |b| then |out| else |b| - 1;
       |b| > 0 ==> b == out[..n] + [NUL] + was[n + 1..]
  }

  method Put(buf: array<char>, pos: nat, c: char, ghost was: seq<char>, ghost out: string) returns (pos': nat)
    requires Printed(buf[..], was, out) && pos == |out|
    modifies buf
    ensures pos' == pos + 1 && Printed(buf[..], was, out + [c])
  {
    if pos < buf.Length {
      buf[pos] := c;
    }
    pos' := pos + 1;
  }

  /** `while (n-- > 0)` a character. */
  method Pad(buf: array<char>, pos: nat, c: char, n: int, ghost was: seq<char>, ghost out: string)
    returns (pos': nat, left: int)
    requires Printed(buf[..], was, out) && pos == |out|
    modifies buf
    ensures pos' == pos + |Fill(c, n)| && Printed(buf[..], was, out + Fill(c, n))
    ensures left == (if n > 0 then 0 else n) - 1
  {
    hide Printed;
    pos', left := pos, n;
    ghost var done := 0;
    assert out + Fill(c, 0) == out;
    while left > 0
      invariant left + done == n && (left < 0 ==> done == 0) && done >= 0
      invariant pos' == pos + done && Printed(buf[..], was, out + Fill(c, done))
      decreases left
    {
      left := left - 1;
      pos' := Put(buf, pos', c, was, out + Fill(c, done));
      done := done + 1;
      assert out + Fill(c, done) == out + Fill(c, done - 1) + [c];
    }
    left := left - 1;
    assert n <= 0 ==> Fill(c, n) == Fill(c, 0);
  }

  /** Print a string. */
  method PutAll(buf: array<char>, pos: nat, t: string, ghost was: seq<char>, ghost out: string) returns (pos': nat)
    requires Printed(buf[..], was, out) && pos == |out|
    modifies buf
    ensures pos' == pos + |t| && Printed(buf[..], was, out + t)
  {
    hide Printed;
    pos' := pos;
    var i := 0;
    assert out + t[..0] == out;
    while i < |t|
      invariant 0 <= i <= |t| && pos' == pos + i && Printed(buf[..], was, out + t[..i])
    {
      pos' := Put(buf, pos', t[i], was, out + t[..i]);
      assert out + t[..i] + [t[i]] == out + t[..i + 1];
      i := i + 1;
    }
    assert t[..i] == t;
  }

  // ----------------------------------------------------------------- numbers

  ghost function Reversed(t: string): string {
    seq(|t|, i requires 0 <= i < |t| => t[|t| - 1 - i])
  }

  lemma ReversedSnoc(t: string, c: char)
    ensures Reversed(t + [c]) == [c] + Reversed(t)
  {
  }

  lemma ReversedNil()
    ensures Reversed([]) == []
  {
  }

  /** The digits of a number into a temporary buffer, the last one first. */
  method ToDigits(num: nat, base: int, large: bool) returns (tmp: array<char>, i: nat)
    requires num < WORD
    ensures fresh(tmp) && i <= tmp.Length && Reversed(tmp[..i]) == Digits(num, Divisor(base), large)
  {
    hide Reversed, Digits, DigitChar;
    tmp := new char[16];
    i := 0;
    var div := Divisor(base);
    AtMostTen(num, div, large);
    if num == 0 {
      tmp[0] := '0';
      i := 1;
      OneDigit(0, div, large);
      ZeroDigit(large);
      ReversedSnoc([], '0');
      ReversedNil();
      assert tmp[..1] == [] + ['0'];
      return;
    }
    var n := num;
    ghost var digits := Digits(num, div, large);
    ReversedNil();
    assert tmp[..0] == [] && digits + [] == digits;
    while n != 0
      invariant i <= |digits| && Left(n, div, large) + Reversed(tmp[..i]) == digits && |Reversed(tmp[..i])| == i
      decreases n
    {
      LeftDivided(n, div, large);
      ghost var before := tmp[..i];
      tmp[i] := DigitChar(n % div, large);
      assert tmp[..i + 1] == before + [DigitChar(n % div, large)];
      ReversedSnoc(before, DigitChar(n % div, large));
      n := n / div;
      i := i + 1;
    }
    assert Left(0, div, large) == "";
  }

  /** The digits still to come. */
  ghost function Left(n: nat, div: nat, large: bool): string
    requires 2 <= div <= 16
  {
    if n == 0 then "" else Digits(n, div, large)
  }

  lemma LeftDivided(n: nat, div: nat, large: bool)
    requires 2 <= div <= 16 && n > 0
    ensures n / div < n && Left(n, div, large) == Left(n / div, div, large) + [DigitChar(n % div, large)]
  {
    hide DigitChar;
    if n >= div { DivideLess(n, div); }
  }

  lemma OneDigit(d: nat, div: nat, large: bool)
    requires d < div <= 16 && 2 <= div
    ensures Digits(d, div, large) == [DigitChar(d, large)]
  {
  }

  lemma AtMostTen(num: nat, div: nat, large: bool)
    requires num < WORD && (div == 10 || div == 16)
    ensures |Digits(num, div, large)| <= 10
  {
    hide Digits;
    if div == 10 {
      assert Power(10, 5) == 100000;
      assert Power(10, 10) == 10000000000;
      DigitsFit(num, 10, large, 10);
    } else {
      assert Power(16, 4) == 0x10000;
      assert Power(16, 8) == WORD;
      DigitsFit(num, 16, large, 8);
    }
  }

  /** The digits in the temporary buffer, from the last one stored on. */
  method PutDigits(buf: array<char>, pos: nat, tmp: array<char>, n: nat, ghost was: seq<char>, ghost out: string)
    returns (pos': nat)
    requires Printed(buf[..], was, out) && pos == |out| && n <= tmp.Length && tmp != buf
    modifies buf
    ensures pos' == pos + n && Printed(buf[..], was, out + Reversed(tmp[..n]))
  {
    hide Printed;
    ghost var t := Reversed(tmp[..n]);
    var i := n;
    pos' := pos;
    assert out + t[..0] == out;
    while i > 0
      invariant i <= n && pos' == pos + (n - i) && Printed(buf[..], was, out + t[..n - i])
      invariant tmp[..n] == old(tmp[..n])
    {
      i := i - 1;
      assert tmp[i] == t[n - i - 1];
      pos' := Put(buf, pos', tmp[i], was, out + t[..n - i - 1]);
      assert out + t[..n - i - 1] + [tmp[i]] == out + t[..n - i];
    }
    assert t[..n - i] == t;
  }

  // The parts of a printed number, in their order; some are empty.

  ghost function Lead(room: int, flags: Flags): string {
    if flags.zeroPad || flags.left then "" else Fill(' ', room)
  }

  ghost function Middle(room: int, flags: Flags): string {
    if flags.zeroPad && !flags.left then Fill('0', room) else ""
  }

  ghost function Trail(room: int, flags: Flags): string {
    if flags.left then Fill(' ', room) else ""
  }

  lemma NumberParts(b: Build, num: int, base: int, width: int, precision: int, flags: Flags)
    ensures var sign, prefix, digits := SignText(num, flags), Prefix(b, base, flags), NumberDigits(num, base, flags);
      var room := Room(b, num, base, width, precision, flags);
      NumberText(b, num, base, width, precision, flags) ==
        Lead(room, flags) + sign + prefix + Middle(room, flags) + Fill('0', precision - |digits|)
        + (if precision == 0 then "" else digits) + Trail(room, flags)
  {
    hide Digits, Fill, Prefix, SignText, Room, NumberDigits;
    var sign, prefix, digits := SignText(num, flags), Prefix(b, base, flags), NumberDigits(num, base, flags);
    var room := Room(b, num, base, width, precision, flags);
    var zeros, shown := Fill('0', precision - |digits|), if precision == 0 then "" else digits;
    if flags.left {
      assert "" + sign + prefix + "" + zeros + shown + Fill(' ', room) ==
        sign + prefix + (zeros + shown) + Fill(' ', room);
    } else if flags.zeroPad {
      assert "" + sign + prefix + Fill('0', room) + zeros + shown + "" ==
        sign + prefix + Fill('0', room) + (zeros + shown);
    } else {
      assert Fill(' ', room) + sign + prefix + "" + zeros + shown + "" ==
        Fill(' ', room) + sign + prefix + (zeros + shown);
    }
  }

  lemma FillNothing(c: char, n: int)
    requires n <= 0
    ensures Fill(c, n) == ""
  {
  }

  /** The padding in front, with the room that is left for the rest. */
  method PutLead(buf: array<char>, pos: nat, signed: bool, size: int, flags: Flags, ghost room: int,
                 ghost was: seq<char>, ghost out: string)
    returns (pos': nat, size': int)
    requires Printed(buf[..], was, out) && pos == |out| && room == size - (if signed then 1 else 0)
    modifies buf
    ensures var t := Lead(room, flags); pos' == pos + |t| && Printed(buf[..], was, out + t)
    ensures if flags.zeroPad || flags.left then size' == size else size' < 0
  {
    hide Printed, Fill;
    pos', size' := pos, size;
    if !(flags.zeroPad || flags.left) {
      if signed && size' > 0 {
        size' := size' - 1;
      }
      if room <= 0 {
        FillNothing(' ', room);
        FillNothing(' ', size');
      }
      pos', size' := Pad(buf, pos', ' ', size', was, out);
    } else {
      assert out + "" == out;
    }
  }

  /** The parts of a number one after the other. */
  method PutParts(buf: array<char>, pos: nat, sign: string, prefix: string, tmp: array<char>, i: nat, size: int,
                  precision: int, flags: Flags, ghost room: int, ghost was: seq<char>, ghost out: string)
    returns (pos': nat)
    requires Printed(buf[..], was, out) && pos == |out| && i <= tmp.Length && tmp != buf
    requires |sign| <= 1 && size == room + |sign|
    modifies buf
    ensures var t := Lead(room, flags) + sign + prefix + Middle(room, flags) + Fill('0', precision - i)
                     + (if precision == 0 then "" else Reversed(tmp[..i])) + Trail(room, flags);
      pos' == pos + |t| && Printed(buf[..], was, out + t)
  {
    hide Printed, Fill, Reversed, Lead, Middle, Trail;
    ghost var shown := if precision == 0 then "" else Reversed(tmp[..i]);
    ghost var o1 := out + Lead(room, flags);
    ghost var o3 := o1 + sign + prefix;
    ghost var o4 := o3 + Middle(room, flags);
    ghost var o5 := o4 + Fill('0', precision - i);
    assert o5 + "" == o5;
    SevenParts(out, Lead(room, flags), sign, prefix, Middle(room, flags), Fill('0', precision - i), shown,
               Trail(room, flags));
    ReversedLength(tmp[..i]);
    var size', unused: int;
    pos', size' := PutLead(buf, pos, sign != "", size, flags, room, was, out);
    pos' := PutAll(buf, pos', sign, was, o1);
    size' := size' - |sign|;
    pos' := PutAll(buf, pos', prefix, was, o1 + sign);
    pos', size' := PutMiddle(buf, pos', size', flags, room, was, o3);
    pos', unused := Pad(buf, pos', '0', precision - i, was, o4);
    if precision != 0 {
      pos' := PutDigits(buf, pos', tmp, i, was, o5);
    }
    pos' := PutTrail(buf, pos', size', flags, room, was, o5 + shown);
  }

  /** `print_number`. */
  method PrintNumber(b: Build, buf: array<char>, pos: nat, num: int, base: int, s: int, precision: int, flags: Flags,
                     ghost was: seq<char>, ghost out: string) returns (pos': nat)
    requires -WORD / 2 <= num < WORD / 2 && Printed(buf[..], was, out) && pos == |out|
    modifies buf
    ensures var t := NumberText(b, num, base, s, precision, flags);
      pos' == pos + |t| && Printed(buf[..], was, out + t)
  {
    hide Printed, Digits, NumberDigits, Fill, Reversed, NumberText, Lead, Middle, Trail, Room, Divisor;
    var sign, size, magnitude := "", s, num;
    if flags.sign {
      if num < 0 {
        sign := "-";
        magnitude := -num;
      } else if flags.plus {
        sign := "+";
      } else if flags.space {
        sign := " ";
      }
    }
    var prefix := "";
    if b.special && flags.special {
      if base == 16 {
        prefix := if flags.large then "0X" else "0x";
        size := size - 2;
      } else if base == 8 {
        prefix := "0";
        size := size - 1;
      }
    }
    var tmp, i := ToDigits(magnitude % WORD, base, flags.large);
    ReversedLength(tmp[..i]);
    DigitsOfMagnitude(num, base, flags, magnitude);
    size := size - (if i > precision then i else precision);
    RoomIs(b, num, base, s, precision, flags);
    NumberParts(b, num, base, s, precision, flags);
    pos' := PutParts(buf, pos, sign, prefix, tmp, i, size, precision, flags, Room(b, num, base, s, precision, flags),
                     was, out);
  }

  /** Of the least number the machine can only take the word, which is the same. */
  lemma DigitsOfMagnitude(num: int, base: int, flags: Flags, magnitude: int)
    requires -WORD / 2 <= num < WORD / 2 && magnitude == if flags.sign && num < 0 then -num else num
    ensures NumberDigits(num, base, flags) == Digits(magnitude % WORD, Divisor(base), flags.large)
  {
    hide Digits;
  }

  lemma SevenParts(out: string, a: string, b: string, c: string, d: string, e: string, f: string, g: string)
    ensures out + a + b + c + d + e + f + g == out + (a + b + c + d + e + f + g)
  {
  }

  lemma RoomIs(b: Build, num: int, base: int, width: int, precision: int, flags: Flags)
    ensures Room(b, num, base, width, precision, flags) ==
      width - |Prefix(b, base, flags)| - |SignText(num, flags)| - Max(precision, |NumberDigits(num, base, flags)|)
  {
  }

  method PutMiddle(buf: array<char>, pos: nat, size: int, flags: Flags, ghost room: int,
                   ghost was: seq<char>, ghost out: string)
    returns (pos': nat, size': int)
    requires Printed(buf[..], was, out) && pos == |out|
    requires if flags.zeroPad || flags.left then size == room else size < 0
    modifies buf
    ensures var t := Middle(room, flags); pos' == pos + |t| && Printed(buf[..], was, out + t)
    ensures if flags.left then size' == room else size' < 0
  {
    hide Printed, Fill;
    pos', size' := pos, size;
    assert out + "" == out;
    if !flags.left {
      if !flags.zeroPad { FillNothing(' ', size); }
      pos', size' := Pad(buf, pos', if flags.zeroPad then '0' else ' ', size', was, out);
    }
  }

  method PutTrail(buf: array<char>, pos: nat, size: int, flags: Flags, ghost room: int,
                  ghost was: seq<char>, ghost out: string)
    returns (pos': nat)
    requires Printed(buf[..], was, out) && pos == |out|
    requires if flags.left then size == room else size < 0
    modifies buf
    ensures var t := Trail(room, flags); pos' == pos + |t| && Printed(buf[..], was, out + t)
  {
    hide Printed, Fill;
    if !flags.left { FillNothing(' ', size); }
    var unused: int;
    pos', unused := Pad(buf, pos, ' ', size, was, out);
  }

  lemma ReversedLength(t: string)
    ensures |Reversed(t)| == |t|
  {
  }

  // ----------------------------------------------------- reading the format

  /** `skip_atoi`. */
  method SkipAtoi(fmt: string, start: nat) returns (n: nat, i: nat)
    requires start <= |fmt|
    ensures (n, i) == Atoi(fmt, start, 0)
  {
    n, i := 0, start;
    while IsDigit(At(fmt, i))
      invariant i <= |fmt| && Atoi(fmt, i, n) == Atoi(fmt, start, 0)
      decreases |fmt| - i
    {
      n := n * 10 + (At(fmt, i) - '0') as nat;
      i := i + 1;
    }
  }

  /** Flags, width, precision and qualifier, from behind the '%' on. */
  method ReadConversion(fmt: string, start: nat, args: seq<Arg>) returns (s: Spec)
    requires start <= |fmt|
    ensures s == ReadSpec(fmt, start, args)
  {
    hide DigitValue, IsDigit, Next, Signed, Atoi;
    var flags, i := NO_FLAGS, start;
    while FlagOf(At(fmt, i), flags).Some?
      invariant i <= |fmt| && ReadFlags(fmt, i, flags) == ReadFlags(fmt, start, NO_FLAGS)
      decreases |fmt| - i
    {
      flags := FlagOf(At(fmt, i), flags).value;
      i := i + 1;
    }
    var rest, width, precision, qualifier := args, -1, -1, NUL;
    ghost var s0 := Spec(flags, -1, -1, NUL, i, args);
    if IsDigit(At(fmt, i)) {
      width, i := SkipAtoi(fmt, i);
    } else if At(fmt, i) == '*' {
      i := i + 1;
      width := Signed(WordOf(rest));
      rest := Next(rest);
      if width < 0 {
        width := -width;
        flags := flags.(left := true);
      }
    }
    assert Spec(flags, width, -1, NUL, i, rest) == ReadWidth(fmt, s0);
    ghost var s1 := ReadWidth(fmt, s0);
    if At(fmt, i) == '.' {
      i := i + 1;
      if IsDigit(At(fmt, i)) {
        precision, i := SkipAtoi(fmt, i);
      } else if At(fmt, i) == '*' {
        i := i + 1;
        precision := Signed(WordOf(rest));
        rest := Next(rest);
      }
      if precision < 0 {
        precision := 0;
      }
    }
    assert Spec(flags, width, precision, NUL, i, rest) == ReadPrecision(fmt, s1);
    if At(fmt, i) == 'h' || At(fmt, i) == 'l' {
      qualifier := At(fmt, i);
      i := i + 1;
    }
    s := Spec(flags, width, precision, qualifier, i, rest);
  }

  // ------------------------------------------------------------- converting

  /** The 'c' conversion. */
  method PutChar(buf: array<char>, pos: nat, c: char, width: int, left: bool, ghost was: seq<char>, ghost out: string)
    returns (pos': nat)
    requires Printed(buf[..], was, out) && pos == |out|
    modifies buf
    ensures var t := CharText(c, width, left); pos' == pos + |t| && Printed(buf[..], was, out + t)
  {
    hide Printed, Fill;
    var w := width - 1;
    pos' := pos;
    ghost var now := out;
    if !left {
      pos', w := Pad(buf, pos', ' ', w, was, now);
      now := now + Fill(' ', width - 1);
    }
    pos' := Put(buf, pos', c, was, now);
    now := now + [c];
    if !left { FillNothing(' ', w); }
    pos', w := Pad(buf, pos', ' ', w, was, now);
    if left {
      assert out + [c] + Fill(' ', width - 1) == out + CharText(c, width, left);
    } else {
      assert out + Fill(' ', width - 1) + [c] + "" == out + CharText(c, width, left);
    }
  }

  /** How much of a string is to be shown; a negative field width is none. */
  method Measure(s: string, width: int) returns (len: nat)
    ensures len == if 0 <= width < Length(s) then width else Length(s)
  {
    hide Length;
    len := 0;
    while len != width && len < |s| && s[len] != NUL
      invariant len <= Length(s) && (width >= 0 ==> len <= width)
      decreases |s| - len
    {
      LengthAt(s, len);
      len := len + 1;
    }
    LengthAt(s, len);
  }

  /** The 's' conversion. */
  method PutString(buf: array<char>, pos: nat, s: string, width: int, precision: int, left: bool,
                   ghost was: seq<char>, ghost out: string)
    returns (pos': nat)
    requires Printed(buf[..], was, out) && pos == |out|
    modifies buf
    ensures var t := StringText(s, width, precision, left); pos' == pos + |t| && Printed(buf[..], was, out + t)
  {
    hide Printed, Fill, Length, StringText;
    var len := Measure(s, width);
    if precision > 0 && len > precision {
      len := precision;
    }
    assert len == Shown(s, width, precision);
    var w := width - len;
    pos' := pos;
    ghost var now := out;
    if !left {
      pos', w := Pad(buf, pos', ' ', w, was, now);
      now := now + Fill(' ', width - len);
    }
    pos' := PutAll(buf, pos', s[..len], was, now);
    now := now + s[..len];
    if !left { FillNothing(' ', w); }
    pos', w := Pad(buf, pos', ' ', w, was, now);
    StringLaid(out, s, width, precision, left);
  }

  /** The pieces a string is put together from. */
  lemma StringLaid(out: string, s: string, width: int, precision: int, left: bool)
    ensures var n := Shown(s, width, precision);
      && (left ==> out + s[..n] + Fill(' ', width - n) == out + StringText(s, width, precision, left))
      && (!left ==> out + Fill(' ', width - n) + s[..n] + "" == out + StringText(s, width, precision, left))
  {
    hide Fill, Shown, Length;
  }

  lemma LengthAt(s: string, n: nat)
    requires n <= Length(s)
    ensures n < Length(s) <==> n < |s| && s[n] != NUL
  {
  }

  /** The switch over the conversion character. */
  method PutConversion(b: Build, buf: array<char>, pos: nat, fmt: string, s: Spec, ghost was: seq<char>,
                       ghost out: string)
    returns (pos': nat, i: nat, rest: seq<Arg>)
    requires Printed(buf[..], was, out) && pos == |out| && s.at <= |fmt|
    modifies buf
    ensures var (t, j, r) := Convert(b, fmt, s);
      i == j && rest == r && pos' == pos + |t| && Printed(buf[..], was, out + t)
  {
    hide Printed, NumberText, CharText, StringText;
    var c, base, flags := At(fmt, s.at), 10, s.flags;
    i, rest := s.at + 1, s.args;
    match c {
      case 'c' =>
        pos' := PutChar(buf, pos, (WordOf(rest) % 256) as char, s.width, flags.left, was, out);
        rest := Next(rest);
        return;
      case 's' =>
        var text := TextOf(rest);
        pos' := PutString(buf, pos, if text.Some? then text.value else "(NULL)", s.width, s.precision, flags.left, was,
                          out);
        rest := Next(rest);
        return;
      case 'p' =>
        var width := s.width;
        if width == -1 {
          width := 8;
          flags := flags.(zeroPad := true);
        }
        pos' := PrintNumber(b, buf, pos, Signed(WordOf(rest)), 16, width, s.precision, flags, was, out);
        rest := Next(rest);
        return;
      case '%' =>
        pos' := Put(buf, pos, '%', was, out);
        return;
      case 'o' =>
        base := 8;
      case 'X' =>
        flags := flags.(large := true);
        base := 16;
      case 'x' =>
        base := 16;
      case 'd' =>
        flags := flags.(sign := true);
      case 'i' =>
        flags := flags.(sign := true);
      case 'u' =>
      case _ =>
        pos' := Put(buf, pos, '%', was, out);
        if c != NUL {
          pos' := Put(buf, pos', c, was, out + "%");
          assert out + "%" + [c] == out + ['%', c];
        } else {
          i := i - 1;
        }
        return;
    }
    var num := TakeNumber(s, flags.sign);
    rest := Next(rest);
    pos' := PrintNumber(b, buf, pos, num, base, s.width, s.precision, flags, was, out);
  }

  method TakeNumber(s: Spec, sign: bool) returns (num: int)
    ensures num == Number(s, sign) && -WORD / 2 <= num < WORD / 2
  {
    var w := WordOf(s.args);
    if s.qualifier == 'h' {
      num := w % 0x1_0000;
      if sign && num >= 0x8000 {
        num := num - 0x1_0000;
      }
    } else {
      num := Signed(w);
    }
  }

  /** `rt_vsnprintf`: as much of the text as there is room for, a NUL, and nothing outside;
      the result is the length of the whole text, however large the buffer. */
  method Vsnprintf(b: Build, buf: array<char>, fmt: string, args: seq<Arg>) returns (n: nat)
    modifies buf
    ensures n == |Render(b, fmt, 0, args)| && Stored(buf[..], old(buf[..]), Render(b, fmt, 0, args))
  {
    hide Printed, Convert, ReadSpec, Stored;
    ghost var out, was := "", buf[..];
    var str: nat, i: nat, rest := 0, 0, args;
    NothingPrinted(was);
    assert "" + Render(b, fmt, 0, args) == Render(b, fmt, 0, args);
    while At(fmt, i) != NUL
      invariant i <= |fmt| && str == |out| && Printed(buf[..], was, out)
      invariant out + Render(b, fmt, i, rest) == Render(b, fmt, 0, args)
      decreases |fmt| - i
    {
      if fmt[i] != '%' {
        str := Put(buf, str, fmt[i], was, out);
        assert out + ([fmt[i]] + Render(b, fmt, i + 1, rest)) == out + [fmt[i]] + Render(b, fmt, i + 1, rest);
        out := out + [fmt[i]];
        i := i + 1;
      } else {
        var s := ReadConversion(fmt, i + 1, rest);
        ghost var (t, j, r) := Convert(b, fmt, s);
        str, i, rest := PutConversion(b, buf, str, fmt, s, was, out);
        assert out + (t + Render(b, fmt, j, r)) == out + t + Render(b, fmt, j, r);
        out := out + t;
      }
    }
    assert out + "" == out;
    ghost var before := buf[..];
    if buf.Length > 0 {
      if str < buf.Length {
        buf[str] := NUL;
      } else {
        buf[buf.Length - 1] := NUL;
      }
    }
    Terminated(before, buf[..], was, out);
    n := str;
  }

  lemma NothingPrinted(was: seq<char>)
    ensures Printed(was, was, "")
  {
  }

  lemma Terminated(before: seq<char>, after: seq<char>, was: seq<char>, out: string)
    requires Printed(before, was, out) && |after| == |before|
    requires |before| > 0 ==> after == before[(if |out| < |before| then |out| else |before| - 1) := NUL]
    ensures Stored(after, was, out)
  {
  }

  /** Two buffers agree as far as both have text. */
  lemma SizesAgree(b1: seq<char>, was1: seq<char>, b2: seq<char>, was2: seq<char>, out: string)
    requires Stored(b1, was1, out) && Stored(b2, was2, out) && 0 < |b1| <= |b2|
    ensures b2[..if |out| < |b1| then |out| else |b1| - 1] == b1[..if |out| < |b1| then |out| else |b1| - 1]
    ensures |out| < |b1| ==> b1[|out|] == b2[|out|] == NUL
  {
  }
}
