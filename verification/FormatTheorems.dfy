/** What `rt_vsnprintf` prints for each conversion, read back by the readers of FormatReading,
    and how a conversion is read (rt-thread/src/kservice.c). */
module FormatTheorems {
  import opened Wrappers
  import opened Words
  import opened FormatSpec
  import opened FormatReading

  // ---------------------------------------------------- reading a conversion

  predicate IsFlag(c: char) { c in "-+ #0" }

  /** The flags are the ones found in the longest run of flag characters, in any order. */
  lemma {:induction false} FlagsExactly(fmt: string, i: nat, flags: Flags)
    requires i <= |fmt|
    ensures var (f, j) := ReadFlags(fmt, i, flags);
      && i <= j <= |fmt| && !IsFlag(At(fmt, j)) && (forall k :: i <= k < j ==> IsFlag(fmt[k]))
      && (f.left <==> flags.left || '-' in fmt[i..j]) && (f.plus <==> flags.plus || '+' in fmt[i..j])
      && (f.space <==> flags.space || ' ' in fmt[i..j]) && (f.special <==> flags.special || '#' in fmt[i..j])
      && (f.zeroPad <==> flags.zeroPad || '0' in fmt[i..j]) && f.sign == flags.sign && f.large == flags.large
    decreases |fmt| - i
  {
    hide FlagOf, IsFlag;
    var (f, j) := ReadFlags(fmt, i, flags);
    FlagRead(At(fmt, i), flags);
    if FlagOf(At(fmt, i), flags).Some? && i < |fmt| {
      FlagsExactly(fmt, i + 1, FlagOf(At(fmt, i), flags).value);
      forall c ensures c in fmt[i..j] <==> c == fmt[i] || c in fmt[i + 1..j] { FirstOrLater(fmt, i, j, c); }
    } else {
      assert fmt[i..j] == [];
    }
  }

  lemma FirstOrLater(fmt: string, i: nat, j: nat, c: char)
    requires i < j <= |fmt|
    ensures c in fmt[i..j] <==> c == fmt[i] || c in fmt[i + 1..j]
  {
    assert fmt[i..j] == [fmt[i]] + fmt[i + 1..j];
  }

  lemma FlagRead(c: char, flags: Flags)
    ensures FlagOf(c, flags).Some? <==> IsFlag(c)
    ensures IsFlag(c) ==>
      FlagOf(c, flags).value == flags.(left := flags.left || c == '-', plus := flags.plus || c == '+',
        space := flags.space || c == ' ', special := flags.special || c == '#', zeroPad := flags.zeroPad || c == '0')
    ensures !IsFlag(NUL)
  {
  }

  /** The longest run of digits from i on ends at j. */
  predicate DigitRun(fmt: string, i: nat, j: nat) {
    i <= j <= |fmt| && !IsDigit(At(fmt, j)) && forall k :: i <= k < j ==> IsDigit(fmt[k])
  }

  lemma {:induction false} AtoiExactly(fmt: string, a: nat, i: nat)
    requires a <= i <= |fmt| && forall k :: a <= k < i ==> IsDigit(fmt[k])
    ensures var (n, j) := Atoi(fmt, i, Value(fmt[a..i], 10)); DigitRun(fmt, a, j) && n == Value(fmt[a..j], 10)
    decreases |fmt| - i
  {
    hide Value, DigitValue;
    if IsDigit(At(fmt, i)) {
      assert fmt[a..i + 1] == fmt[a..i] + [fmt[i]];
      ValueSnoc(fmt[a..i], fmt[i], 10);
      AtoiExactly(fmt, a, i + 1);
    }
  }

  /** A width is written from i up to j: digits, a star for the next argument, or nothing. */
  ghost predicate WidthAt(fmt: string, i: nat, j: nat, args: seq<Arg>, rest: seq<Arg>, width: int, left: bool) {
    if IsDigit(At(fmt, i)) then DigitRun(fmt, i, j) && width == Value(fmt[i..j], 10) && !left && rest == args
    else if At(fmt, i) == '*' then
      && j == i + 1 && rest == Next(args)
      && exists w :: Passed(w, WordOf(args), NUL, true) && width == (if w < 0 then -w else w) && (left <==> w < 0)
    else j == i && width == -1 && !left && rest == args
  }

  /** A precision is written from i up to j: a point and digits, a star or nothing, which
      means 0; or it is not there. */
  ghost predicate PrecisionAt(fmt: string, i: nat, j: nat, args: seq<Arg>, rest: seq<Arg>, precision: int) {
    if At(fmt, i) != '.' then j == i && precision == -1 && rest == args
    else if IsDigit(At(fmt, i + 1)) then DigitRun(fmt, i + 1, j) && precision == Value(fmt[i + 1..j], 10)
      && rest == args
    else if At(fmt, i + 1) == '*' then
      j == i + 2 && rest == Next(args) && exists p :: Passed(p, WordOf(args), NUL, true) && precision == Max(p, 0)
    else j == i + 1 && precision == 0 && rest == args
  }

  ghost predicate QualifierAt(fmt: string, i: nat, j: nat, qualifier: char) {
    if At(fmt, i) in "hl" then j == i + 1 && qualifier == At(fmt, i) else j == i && qualifier == NUL
  }

  /** num is the argument w as a word, or as half a word if qualified by h, in two's
      complement if signed. */
  ghost predicate Passed(num: int, w: nat, qualifier: char, signed: bool) {
    var range := if qualifier == 'h' then 0x1_0000 else WORD;
    && (num - w) % range == 0
    && (if signed then -range / 2 <= num < range / 2 else 0 <= num < range)
  }

  lemma SignedPassed(w: nat)
    requires w < WORD
    ensures Passed(Signed(w), w, NUL, true)
  {
  }

  lemma WidthRead(fmt: string, s: Spec)
    requires s.at <= |fmt|
    ensures var r := ReadWidth(fmt, s);
      exists left :: WidthAt(fmt, s.at, r.at, s.args, r.args, r.width, left)
        && r.flags == s.flags.(left := s.flags.left || left)
  {
    hide Atoi, Signed, Passed, DigitRun, Value;
    if IsDigit(At(fmt, s.at)) {
      assert fmt[s.at..s.at] == [];
      AtoiStart(fmt, s.at);
      assert WidthAt(fmt, s.at, ReadWidth(fmt, s).at, s.args, s.args, ReadWidth(fmt, s).width, false);
    } else if At(fmt, s.at) == '*' {
      StarRead(fmt, s);
    } else {
      assert WidthAt(fmt, s.at, s.at, s.args, s.args, -1, false);
      assert ReadWidth(fmt, s).flags == s.flags.(left := s.flags.left || false);
    }
  }

  lemma StarRead(fmt: string, s: Spec)
    requires At(fmt, s.at) == '*'
    ensures var r, w := ReadWidth(fmt, s), Signed(WordOf(s.args));
      && WidthAt(fmt, s.at, r.at, s.args, r.args, r.width, w < 0)
      && r.flags == s.flags.(left := s.flags.left || w < 0)
  {
    hide Signed, Passed;
    SignedPassed(WordOf(s.args));
    var w := Signed(WordOf(s.args));
    assert Passed(w, WordOf(s.args), NUL, true);
  }

  lemma AtoiStart(fmt: string, i: nat)
    requires i <= |fmt|
    ensures var (n, j) := Atoi(fmt, i, 0); DigitRun(fmt, i, j) && n == Value(fmt[i..j], 10)
  {
    assert fmt[i..i] == [];
    AtoiExactly(fmt, i, i);
  }

  lemma PrecisionRead(fmt: string, s: Spec)
    requires s.at <= |fmt|
    ensures var r := ReadPrecision(fmt, s);
      PrecisionAt(fmt, s.at, r.at, s.args, r.args, r.precision) && r.flags == s.flags && r.width == s.width
  {
    hide Atoi, Signed, Passed, DigitRun, Value;
    if At(fmt, s.at) == '.' {
      if IsDigit(At(fmt, s.at + 1)) {
        AtoiStart(fmt, s.at + 1);
      } else if At(fmt, s.at + 1) == '*' {
        SignedPassed(WordOf(s.args));
        var p := Signed(WordOf(s.args));
        assert ReadPrecision(fmt, s).precision == Max(p, 0);
      }
    }
  }

  /** A conversion is read as the format writes it: flags, width, precision, qualifier, each
      as long as can be, in this order. */
  ghost predicate Written(fmt: string, i: nat, args: seq<Arg>, s: Spec) {
    exists j: nat, k: nat, m: nat, rest: seq<Arg>, left: bool ::
      && i <= j <= k <= m <= s.at <= |fmt|
      && !IsFlag(At(fmt, j)) && (forall x :: i <= x < j ==> IsFlag(fmt[x]))
      && WidthAt(fmt, j, k, args, rest, s.width, left)
      && PrecisionAt(fmt, k, m, rest, s.args, s.precision)
      && QualifierAt(fmt, m, s.at, s.qualifier)
      && (s.flags.left <==> left || '-' in fmt[i..j]) && (s.flags.plus <==> '+' in fmt[i..j])
      && (s.flags.space <==> ' ' in fmt[i..j]) && (s.flags.special <==> '#' in fmt[i..j])
      && (s.flags.zeroPad <==> '0' in fmt[i..j]) && !s.flags.sign && !s.flags.large
  }

  lemma SpecExactly(fmt: string, i: nat, args: seq<Arg>)
    requires i <= |fmt|
    ensures Written(fmt, i, args, ReadSpec(fmt, i, args))
  {
    hide ReadFlags, ReadWidth, ReadPrecision, WidthAt, PrecisionAt, IsFlag;
    var (flags, j) := ReadFlags(fmt, i, NO_FLAGS);
    FlagsExactly(fmt, i, NO_FLAGS);
    var s0 := Spec(flags, -1, -1, NUL, j, args);
    var s1 := ReadWidth(fmt, s0);
    WidthRead(fmt, s0);
    var left :| WidthAt(fmt, j, s1.at, args, s1.args, s1.width, left) && s1.flags == flags.(left := flags.left || left);
    var s2 := ReadPrecision(fmt, s1);
    PrecisionRead(fmt, s1);
    var s := ReadQualifier(fmt, s2);
    assert QualifierAt(fmt, s2.at, s.at, s.qualifier);
    assert WidthAt(fmt, j, s1.at, args, s1.args, s.width, left);
    assert PrecisionAt(fmt, s1.at, s2.at, s1.args, s.args, s.precision);
  }

  // -------------------------------------------------------------- printing

  /** t is printed for the conversion at i, and the rest from j on with the arguments left. */
  ghost predicate Prints(b: Build, fmt: string, i: nat, args: seq<Arg>, t: string, j: nat, rest: seq<Arg>) {
    Render(b, fmt, i, args) == t + Render(b, fmt, j, rest)
  }

  lemma Converted(b: Build, fmt: string, i: nat, args: seq<Arg>)
    requires i < |fmt| && fmt[i] == '%'
    ensures var (t, j, rest) := Convert(b, fmt, ReadSpec(fmt, i + 1, args)); Prints(b, fmt, i, args, t, j, rest)
    ensures var s := ReadSpec(fmt, i + 1, args); !s.flags.sign && !s.flags.large
  {
    SpecExactly(fmt, i + 1, args);
  }

  /** A conversion takes the next argument; one that is missing or of the other kind is 0 or
      null. */
  lemma ArgumentsExactly(args: seq<Arg>)
    ensures if args == [] then Next(args) == [] else args == [args[0]] + Next(args)
    ensures WordOf(args) < WORD
    ensures args != [] && args[0].Word? ==> (args[0].w - WordOf(args)) % WORD == 0 && TextOf(args) == None
    ensures args != [] && args[0].Text? ==> TextOf(args) == args[0].s && WordOf(args) == 0
  {
    if args != [] && args[0].Word? { SameRemainder(args[0].w); }
  }

  lemma SameRemainder(w: nat)
    ensures (w - w % WORD) % WORD == 0
  {
    assert w - w % WORD == WORD * (w / WORD);
  }

  /** What a word reads as. */
  lemma NumberPassed(s: Spec)
    ensures Passed(Number(s, true), WordOf(s.args), s.qualifier, true)
    ensures Passed(Number(s, false) % WORD, WordOf(s.args), s.qualifier, false)
    ensures -WORD / 2 <= Number(s, true) < WORD / 2
  {
    hide Passed;
    var w := WordOf(s.args);
    if s.qualifier == 'h' {
      HalfPassed(w, w % 0x1_0000, s.qualifier);
    } else {
      WordPassed(w, s.qualifier);
    }
  }

  lemma HalfPassed(w: nat, half: nat, qualifier: char)
    requires w < WORD && half == w % 0x1_0000 && qualifier == 'h'
    ensures Passed(if half >= 0x8000 then half - 0x1_0000 else half, w, qualifier, true)
    ensures Passed(half % WORD, w, qualifier, false)
  {
    Congruent(w, half);
  }

  lemma Congruent(w: nat, half: nat)
    requires half == w % 0x1_0000
    ensures (half - w) % 0x1_0000 == 0 && (half - 0x1_0000 - w) % 0x1_0000 == 0 && half % WORD == half
  {
    var q := w / 0x1_0000;
    assert half - w == 0x1_0000 * -q && half - 0x1_0000 - w == 0x1_0000 * (-q - 1);
  }

  lemma WordPassed(w: nat, qualifier: char)
    requires w < WORD && qualifier != 'h'
    ensures Passed(Signed(w), w, qualifier, true)
    ensures Signed(w) % WORD == w && Passed(w, w, qualifier, false)
  {
  }

  /** %d and %i print the argument as a signed number. */
  lemma PrintsSigned(b: Build, fmt: string, i: nat, args: seq<Arg>) returns (t: string, num: int)
    requires i < |fmt| && fmt[i] == '%' && At(fmt, ReadSpec(fmt, i + 1, args).at) in "di"
    ensures var s := ReadSpec(fmt, i + 1, args);
      && Written(fmt, i + 1, args, s) && Prints(b, fmt, i, args, t, s.at + 1, Next(s.args))
      && Passed(num, WordOf(s.args), s.qualifier, true) && SignedField(t, num, s.width, s.precision, s.flags)
  {
    hide ReadSpec, NumberText, Number, Passed, Prints, Written;
    var s := ReadSpec(fmt, i + 1, args);
    SpecExactly(fmt, i + 1, args);
    Converted(b, fmt, i, args);
    NumberPassed(s);
    num := Number(s, true);
    t := NumberText(b, num, 10, s.width, s.precision, s.flags.(sign := true));
    SignedReads(b, num, s.width, s.precision, s.flags.(sign := true));
    SignIgnored(t, num, s.width, s.precision, s.flags);
  }

  lemma SignIgnored(t: string, num: int, width: int, precision: int, flags: Flags)
    requires SignedField(t, num, width, precision, flags.(sign := true))
    ensures SignedField(t, num, width, precision, flags)
  {
    hide ReadInt, Wide, Count;
  }

  /** %u prints it as an unsigned one. */
  lemma PrintsUnsigned(b: Build, fmt: string, i: nat, args: seq<Arg>) returns (t: string, num: nat)
    requires i < |fmt| && fmt[i] == '%' && At(fmt, ReadSpec(fmt, i + 1, args).at) == 'u'
    ensures var s := ReadSpec(fmt, i + 1, args);
      && Written(fmt, i + 1, args, s) && Prints(b, fmt, i, args, t, s.at + 1, Next(s.args))
      && Passed(num, WordOf(s.args), s.qualifier, false) && UnsignedField(t, num, s.width, s.precision, s.flags)
  {
    hide ReadSpec, NumberText, Number, Passed, Prints, Written;
    var s := ReadSpec(fmt, i + 1, args);
    SpecExactly(fmt, i + 1, args);
    Converted(b, fmt, i, args);
    NumberPassed(s);
    num := Number(s, false) % WORD;
    t := NumberText(b, Number(s, false), 10, s.width, s.precision, s.flags);
    UnsignedReads(b, Number(s, false), s.width, s.precision, s.flags);
  }

  /** %x and %X print it in base 16, in small or capital letters. */
  lemma PrintsHex(b: Build, fmt: string, i: nat, args: seq<Arg>) returns (t: string, num: nat)
    requires i < |fmt| && fmt[i] == '%' && At(fmt, ReadSpec(fmt, i + 1, args).at) in "xX"
    ensures var s := ReadSpec(fmt, i + 1, args);
      && Written(fmt, i + 1, args, s) && Prints(b, fmt, i, args, t, s.at + 1, Next(s.args))
      && Passed(num, WordOf(s.args), s.qualifier, false)
      && HexField(t, num, s.width, s.precision, s.flags, b.special && s.flags.special, At(fmt, s.at) == 'X')
  {
    hide ReadSpec, NumberText, Number, Passed, Prints, Written;
    var s := ReadSpec(fmt, i + 1, args);
    SpecExactly(fmt, i + 1, args);
    Converted(b, fmt, i, args);
    NumberPassed(s);
    num := Number(s, false) % WORD;
    var flags := if At(fmt, s.at) == 'X' then s.flags.(large := true) else s.flags;
    t := NumberText(b, Number(s, false), 16, s.width, s.precision, flags);
    HexReads(b, Number(s, false), s.width, s.precision, flags);
    CaseIgnored(t, num, s.width, s.precision, s.flags, b.special && flags.special, flags.large);
  }

  lemma CaseIgnored(t: string, num: nat, width: int, precision: int, flags: Flags, prefix: bool, large: bool)
    requires HexField(t, num, width, precision, flags.(large := large), prefix, large)
    ensures HexField(t, num, width, precision, flags, prefix, large)
  {
    hide ReadHex, Wide, Count;
  }

  /** %p prints a pointer in base 16, as eight digits unless a width is given. */
  lemma PrintsPointer(b: Build, fmt: string, i: nat, args: seq<Arg>) returns (t: string)
    requires i < |fmt| && fmt[i] == '%' && At(fmt, ReadSpec(fmt, i + 1, args).at) == 'p'
    ensures var s := ReadSpec(fmt, i + 1, args);
      var width := if s.width == -1 then 8 else s.width;
      && Written(fmt, i + 1, args, s) && Prints(b, fmt, i, args, t, s.at + 1, Next(s.args))
      && HexField(t, WordOf(s.args), width, s.precision,
                  s.flags.(zeroPad := s.flags.zeroPad || s.width == -1), b.special && s.flags.special, false)
  {
    hide ReadSpec, NumberText, Prints, Written, HexField;
    var s := ReadSpec(fmt, i + 1, args);
    SpecExactly(fmt, i + 1, args);
    Converted(b, fmt, i, args);
    var width, flags := if s.width == -1 then 8 else s.width, s.flags.(zeroPad := s.flags.zeroPad || s.width == -1);
    t := NumberText(b, Signed(WordOf(s.args)), 16, width, s.precision, flags);
    HexReads(b, Signed(WordOf(s.args)), width, s.precision, flags);
  }

  /** %o prints it in base 16 too, whatever it says. */
  lemma PrintsOctal(b: Build, fmt: string, i: nat, args: seq<Arg>) returns (t: string, num: nat)
    requires i < |fmt| && fmt[i] == '%' && At(fmt, ReadSpec(fmt, i + 1, args).at) == 'o'
    ensures var s := ReadSpec(fmt, i + 1, args);
      && Written(fmt, i + 1, args, s) && Prints(b, fmt, i, args, t, s.at + 1, Next(s.args))
      && Passed(num, WordOf(s.args), s.qualifier, false)
      && OctField(t, num, s.width, s.precision, s.flags, b.special && s.flags.special)
  {
    hide ReadSpec, NumberText, Number, Passed, Prints, Written;
    var s := ReadSpec(fmt, i + 1, args);
    SpecExactly(fmt, i + 1, args);
    Converted(b, fmt, i, args);
    NumberPassed(s);
    num := Number(s, false) % WORD;
    t := NumberText(b, Number(s, false), 8, s.width, s.precision, s.flags);
    OctReads(b, Number(s, false), s.width, s.precision, s.flags);
  }

  /** %c prints the lowest byte of the argument as a character. */
  lemma PrintsChar(b: Build, fmt: string, i: nat, args: seq<Arg>) returns (t: string)
    requires i < |fmt| && fmt[i] == '%' && At(fmt, ReadSpec(fmt, i + 1, args).at) == 'c'
    ensures var s := ReadSpec(fmt, i + 1, args);
      && Written(fmt, i + 1, args, s) && Prints(b, fmt, i, args, t, s.at + 1, Next(s.args))
      && CharField(t, (WordOf(s.args) % 256) as char, s.width, s.flags.left)
  {
    hide ReadSpec, Prints, Written;
    var s := ReadSpec(fmt, i + 1, args);
    SpecExactly(fmt, i + 1, args);
    Converted(b, fmt, i, args);
    t := CharText((WordOf(s.args) % 256) as char, s.width, s.flags.left);
    CharRead((WordOf(s.args) % 256) as char, s.width, s.flags.left);
  }

  /** %s prints the argument's string, and (NULL) for a null pointer. */
  lemma PrintsString(b: Build, fmt: string, i: nat, args: seq<Arg>) returns (t: string)
    requires i < |fmt| && fmt[i] == '%' && At(fmt, ReadSpec(fmt, i + 1, args).at) == 's'
    ensures var s := ReadSpec(fmt, i + 1, args);
      && Written(fmt, i + 1, args, s) && Prints(b, fmt, i, args, t, s.at + 1, Next(s.args))
      && StringField(t, if TextOf(s.args) == None then "(NULL)" else TextOf(s.args).value, s.width, s.precision,
                     s.flags.left)
  {
    hide ReadSpec, Prints, Written, StringText;
    var s := ReadSpec(fmt, i + 1, args);
    SpecExactly(fmt, i + 1, args);
    Converted(b, fmt, i, args);
    var text := if TextOf(s.args) == None then "(NULL)" else TextOf(s.args).value;
    t := StringText(text, s.width, s.precision, s.flags.left);
    StringRead(text, s.width, s.precision, s.flags.left);
  }

  /** %% prints a %, any other character that is no conversion is printed behind a %, and a
      format that ends first prints the %; none of them takes an argument. */
  lemma PrintsOthers(b: Build, fmt: string, i: nat, args: seq<Arg>)
    requires i < |fmt| && fmt[i] == '%' && At(fmt, ReadSpec(fmt, i + 1, args).at) !in "diuxXpocs"
    ensures var s := ReadSpec(fmt, i + 1, args); var c := At(fmt, s.at);
      && Written(fmt, i + 1, args, s)
      && (c == NUL ==> Render(b, fmt, i, args) == "%")
      && (c != NUL ==> Prints(b, fmt, i, args, if c == '%' then "%" else ['%', c], s.at + 1, s.args))
  {
    hide ReadSpec, Written;
    SpecExactly(fmt, i + 1, args);
    Converted(b, fmt, i, args);
    var s := ReadSpec(fmt, i + 1, args);
    if At(fmt, s.at) == NUL { assert "%" + "" == "%"; }
  }

  /** A format without a % prints itself, as far as a C string goes. */
  lemma {:induction false} PrintsPlain(b: Build, fmt: string, i: nat, args: seq<Arg>)
    requires i <= Length(fmt) && forall k :: i <= k < Length(fmt) ==> fmt[k] != '%'
    ensures Render(b, fmt, i, args) == fmt[i..Length(fmt)]
    decreases |fmt| - i
  {
    var n := Length(fmt);
    if i < n {
      PrintsPlain(b, fmt, i + 1, args);
      assert fmt[i..n] == [fmt[i]] + fmt[i + 1..n];
    } else {
      assert fmt[i..n] == "";
    }
  }
}
