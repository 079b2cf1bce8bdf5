/** rt-thread/src/kservice.c: what each conversion of rt_vsnprintf asks for and prints. */
module FormatCalls {
  import opened Common
  import opened FormatSpec
  import opened FormatTheorems

  // ---------------------------------------------------------------- conversion specifications

  /** A width or a precision as it is written: left out, digits, or the next argument. */
  datatype Count = Absent | Literal(digits: string) | Star

  function CountText(n: Count): string {
    match n
    case Absent => ""
    case Literal(digits) => digits
    case Star => "*"
  }

  /** A precision comes behind a dot; the dot alone stands for 0. */
  function PrecisionText(n: Count): string { if n.Absent? then "" else "." + CountText(n) }

  /** A conversion specification in parts. */
  datatype Spec = Spec(flags: string, width: Count, precision: Count, qualifier: string, conversion: char) {
    function Text(): string {
      "%" + (flags + (CountText(width) + (PrecisionText(precision) + (qualifier + [conversion]))))
    }

    predicate Valid() {
      && AllFlags(flags) && WidthLike(width) && PrecisionLike(precision)
      && (qualifier == "" || qualifier == "h" || qualifier == "l") && IsConversion(conversion)
    }
  }

  /** s stands in the format from i on. */
  predicate StandsAt(fmt: string, i: nat, s: string) { i + |s| <= |fmt| && fmt[i..i + |s|] == s }

  predicate IsFlag(c: char) { c == '-' || c == '+' || c == ' ' || c == '#' || c == '0' }

  predicate AllFlags(s: string) { forall i {:trigger s[i]} :: 0 <= i < |s| ==> IsFlag(s[i]) }

  /** A literal width is not empty and, as '0' is a flag, does not begin with one. */
  predicate WidthLike(n: Count) {
    n.Literal? ==> n.digits != "" && n.digits[0] != '0' && AllDigits(n.digits, 10)
  }

  predicate PrecisionLike(n: Count) { n.Literal? ==> AllDigits(n.digits, 10) }

  /** The width meant, if the next argument is the number given. */
  function WidthMeant(n: Count, next: int): int {
    match n
    case Absent => -1
    case Literal(digits) => Value(digits, 10)
    case Star => if next < 0 then -next else next
  }

  function PrecisionMeant(n: Count, next: int): int {
    match n
    case Absent => -1
    case Literal(digits) => Value(digits, 10)
    case Star => if next < 0 then 0 else next
  }

  /** Arguments a count reads. */
  function Starred(n: Count): nat { if n.Star? then 1 else 0 }

  function WithFlags(f: Flags, s: string): Flags {
    f.(left := f.left || '-' in s, plus := f.plus || '+' in s, space := f.space || ' ' in s,
       special := f.special || '#' in s, zeropad := f.zeropad || '0' in s)
  }

  lemma {:induction false} FlagsRead(fmt: string, i: nat, j: nat, f: Flags)
    requires i <= j <= |fmt| && AllFlags(fmt[i..j]) && !IsFlag(CharAt(fmt, j))
    ensures FlagsAt(fmt, i, f) == (WithFlags(f, fmt[i..j]), j)
    decreases j - i
  {
    hide WithFlags, WithFlag, IsFlag;
    var s := fmt[i..j];
    if i < j {
      var t := fmt[i + 1..j];
      assert s == [s[0]] + t && IsFlag(s[0]);
      assert forall k {:trigger t[k]} :: 0 <= k < |t| ==> t[k] == s[k + 1];
      FirstFlag(f, s[0], t);
      FlagsRead(fmt, i + 1, j, WithFlag(f, s[0]).value);
    } else {
      NoFlag(f, CharAt(fmt, j));
    }
  }

  lemma NoFlag(f: Flags, c: char)
    requires !IsFlag(c)
    ensures WithFlag(f, c).None? && WithFlags(f, "") == f
  {
  }

  lemma FirstFlag(f: Flags, c: char, t: string)
    requires IsFlag(c)
    ensures WithFlag(f, c).Some? && WithFlags(WithFlag(f, c).value, t) == WithFlags(f, [c] + t)
  {
  }

  lemma AtoiAt(fmt: string, i: nat, j: nat)
    requires i <= j <= |fmt| && AllDigits(fmt[i..j], 10) && !IsDigit(CharAt(fmt, j))
    ensures Atoi(fmt, i, 0) == (Value(fmt[i..j], 10), j)
  {
    AtoiReads(fmt, i, j);
  }

  /** The flags as written; an argument in place of the width adds '-' when negative. */
  lemma WidthRead(fmt: string, i: nat, width: Count, f: Flags, args: nat -> nat, k: nat)
    requires WidthLike(width) && StandsAt(fmt, i, CountText(width))
    requires var next := CharAt(fmt, i + |CountText(width)|); !IsDigit(next) && next != '*'
    ensures WidthAt(fmt, i, f, args, k) ==
      (WidthMeant(width, Signed(args(k))), f.(left := f.left || (width.Star? && Signed(args(k)) < 0)),
       i + |CountText(width)|, k + Starred(width))
  {
    hide Value, Signed;
    match width {
      case Absent =>
      case Literal(digits) =>
        assert fmt[i] == digits[0];
        AtoiAt(fmt, i, i + |digits|);
      case Star => assert fmt[i] == fmt[i..i + 1][0];
    }
  }

  lemma PrecisionRead(fmt: string, i: nat, precision: Count, args: nat -> nat, k: nat)
    requires PrecisionLike(precision) && StandsAt(fmt, i, PrecisionText(precision))
    requires var next := CharAt(fmt, i + |PrecisionText(precision)|); !IsDigit(next) && next != '*' && next != '.'
    ensures PrecisionAt(fmt, i, args, k) ==
      (PrecisionMeant(precision, Signed(args(k))), i + |PrecisionText(precision)|, k + Starred(precision))
  {
    hide Value, Signed;
    if !precision.Absent? {
      var text := CountText(precision);
      AtSplit(fmt, i, ".", text);
      if precision == Star {
        assert fmt[i + 1] == text[0];
      } else if precision.digits == "" {
        NoDigitsValue();
      } else {
        assert fmt[i + 1] == precision.digits[0];
        AtoiAt(fmt, i + 1, i + 1 + |text|);
      }
    }
  }

  lemma NoDigitsValue()
    ensures Value("", 10) == 0
  {
  }

  /** A text in two parts. */
  lemma AtSplit(fmt: string, i: nat, s: string, t: string)
    requires StandsAt(fmt, i, s + t)
    ensures StandsAt(fmt, i, s) && StandsAt(fmt, i + |s|, t) && i + |s| + |t| <= |fmt|
    ensures s != "" ==> fmt[i] == s[0]
  {
    var u := fmt[i..i + |s + t|];
    assert u[..|s|] == s && u[|s|..] == t;
    assert s != "" ==> fmt[i] == u[0];
  }

  predicate IsConversion(c: char) {
    c == 'c' || c == 's' || c == 'p' || c == '%' || c == 'o' || c == 'x' || c == 'X' || c == 'd' || c == 'i' || c == 'u'
  }

  /** Reading inverts writing: whatever flags in whatever order, width, precision and
      qualifier a specification is written with, those are what the conversion gets, and
      the stars have taken their arguments, the width first. */
  lemma SpecReadsBack(fmt: string, i: nat, spec: Spec, args: nat -> nat, k: nat)
    requires spec.Valid() && StandsAt(fmt, i, spec.Text())
    ensures var d := FieldAt(fmt, i, args, k);
      var w, p := Signed(args(k)), Signed(args(k + Starred(spec.width)));
      && d.at + 1 == i + |spec.Text()| && CharAt(fmt, d.at) == spec.conversion
      && d.used == k + Starred(spec.width) + Starred(spec.precision)
      && d.flags == Flags('0' in spec.flags, false, '+' in spec.flags, ' ' in spec.flags,
                          '-' in spec.flags || (spec.width.Star? && w < 0), '#' in spec.flags, false)
      && d.width == WidthMeant(spec.width, w) && d.precision == PrecisionMeant(spec.precision, p)
      && (d.short <==> spec.qualifier == "h")
  {
    hide Value, Signed, FlagsAt, WidthAt, PrecisionAt, StandsAt, AllFlags, WidthMeant, PrecisionMeant, Starred,
        CountText, PrecisionText;
    var a := i + 1 + |spec.flags|;
    var b := a + |CountText(spec.width)|;
    SpecParts(fmt, i, spec);
    FlagsRead(fmt, i + 1, a, NOFLAGS);
    WidthRead(fmt, a, spec.width, WithFlags(NOFLAGS, spec.flags), args, k);
    PrecisionRead(fmt, b, spec.precision, args, k + Starred(spec.width));
  }

  /** The parts one after the other, and the first character of what follows each. */
  lemma SpecSplit(fmt: string, i: nat, f: string, w: string, p: string, q: string, c: char)
    requires StandsAt(fmt, i, "%" + (f + (w + (p + (q + [c])))))
    ensures var a := i + 1 + |f|;
      var b := a + |w|;
      var e := b + |p|;
      && e + |q| < |fmt| && fmt[i + 1..a] == f && StandsAt(fmt, a, w) && StandsAt(fmt, b, p) && fmt[e + |q|] == c
      && fmt[e] == (if q == "" then c else q[0]) && fmt[b] == (if p == "" then fmt[e] else p[0])
      && fmt[a] == (if w == "" then fmt[b] else w[0])
  {
    hide StandsAt;
    var last := q + [c];
    var behind := p + last;
    var b := i + 1 + |f| + |w|;
    AtSplit(fmt, i, "%", f + (w + behind));
    AtSplit(fmt, i + 1, f, w + behind);
    AtSplit(fmt, i + 1 + |f|, w, behind);
    TailSplit(fmt, b, p, q, c);
    AtStart(fmt, i + 1, f);
  }

  lemma TailSplit(fmt: string, b: nat, p: string, q: string, c: char)
    requires StandsAt(fmt, b, p + (q + [c]))
    ensures var e := b + |p|;
      && e + |q| < |fmt| && StandsAt(fmt, b, p) && fmt[e + |q|] == c
      && fmt[e] == (if q == "" then c else q[0]) && fmt[b] == (if p == "" then fmt[e] else p[0])
  {
    hide StandsAt;
    AtSplit(fmt, b, p, q + [c]);
    AtSplit(fmt, b + |p|, q, [c]);
    AtStart(fmt, b + |p| + |q|, [c]);
    var one := fmt[b + |p| + |q|..b + |p| + |q| + 1];
    assert one[0] == c;
  }

  /** Where the parts of a specification stand, and what follows each. */
  lemma SpecParts(fmt: string, i: nat, spec: Spec)
    requires spec.Valid() && StandsAt(fmt, i, spec.Text())
    ensures var a := i + 1 + |spec.flags|;
      var b := a + |CountText(spec.width)|;
      var e := b + |PrecisionText(spec.precision)|;
      && e + |spec.qualifier| < |fmt| && a <= |fmt| && fmt[i + 1..a] == spec.flags
      && StandsAt(fmt, a, CountText(spec.width)) && StandsAt(fmt, b, PrecisionText(spec.precision))
      && fmt[e] == (if spec.qualifier == "" then spec.conversion else spec.qualifier[0])
      && fmt[e + |spec.qualifier|] == spec.conversion && !IsFlag(fmt[a])
      && !IsDigit(fmt[b]) && fmt[b] != '*' && !IsDigit(fmt[e]) && fmt[e] != '*' && fmt[e] != '.'
      && |spec.Text()| == e + |spec.qualifier| + 1 - i
  {
    hide AllFlags, PrecisionLike, AllDigits, StandsAt;
    SpecSplit(fmt, i, spec.flags, CountText(spec.width), PrecisionText(spec.precision), spec.qualifier,
      spec.conversion);
    WidthStart(spec.width);
  }

  lemma AtStart(fmt: string, i: nat, s: string)
    requires StandsAt(fmt, i, s)
    ensures i + |s| <= |fmt| && fmt[i..i + |s|] == s
  {
  }

  lemma WidthStart(n: Count)
    requires WidthLike(n)
    ensures n.Literal? ==> n.digits != "" && IsDigit(n.digits[0]) && !IsFlag(n.digits[0])
  {
  }

  // ---------------------------------------------------------------- numbers

  /** No specification sets these two flags: the conversion character does. */
  lemma {:induction false} FlagsClear(fmt: string, i: nat, f: Flags)
    ensures FlagsAt(fmt, i, f).0.sign == f.sign && FlagsAt(fmt, i, f).0.large == f.large
    decreases |fmt| - i
  {
    hide WithFlag;
    var g := WithFlag(f, CharAt(fmt, i));
    FlagClear(f, CharAt(fmt, i));
    if g.Some? { FlagsClear(fmt, i + 1, g.value); }
  }

  lemma FlagClear(f: Flags, c: char)
    ensures var g := WithFlag(f, c); g.Some? ==> c != '\0' && g.value.sign == f.sign && g.value.large == f.large
  {
  }

  lemma FieldClear(fmt: string, i: nat, args: nat -> nat, k: nat)
    ensures !FieldAt(fmt, i, args, k).flags.sign && !FieldAt(fmt, i, args, k).flags.large
  {
    hide FlagsAt;
    FlagsClear(fmt, i + 1, NOFLAGS);
  }

  /** The number an argument word stands for: all 32 bits, or the low 16 behind 'h'. */
  function Meant(w: nat, signed: bool, short: bool): int {
    if signed then (if short then Signed16(w) else Signed(w)) else if short then w % 0x1_0000 else w % WORD_RANGE
  }

  /** It is the one number of its range that has those low 32, or 16, bits. */
  lemma MeantMeans(w: nat, signed: bool, short: bool)
    ensures var n, m := Meant(w, signed, short), if short then 0x1_0000 else WORD_RANGE;
      (n - w) % m == 0 && if signed then -m / 2 <= n < m / 2 else 0 <= n < m
  {
    if short {
      assert w == (w / 0x1_0000) * 0x1_0000 + w % 0x1_0000;
    } else {
      assert w == (w / WORD_RANGE) * WORD_RANGE + w % WORD_RANGE;
    }
  }

  predicate IsSigned(c: char) { c == 'd' || c == 'i' }

  /** "%o" too prints in base 16. */
  function RadixOf(c: char): nat { if c == 'd' || c == 'i' || c == 'u' then 10 else 16 }

  function Trim(s: string): string { DropBlanks(SkipBlanks(s)) }

  predicate NoneFrom(s: string, lo: char, hi: char) { forall i {:trigger s[i]} :: 0 <= i < |s| ==> !(lo <= s[i] <= hi) }

  /** How a number looks. The sign, if any, is in front of the digits: '-' exactly for
      negative numbers of a signed conversion, '+' or a blank for the others if a flag asks
      for it. There are at least as many digits as the precision says. The field has at
      least its width; with '-' the fill is behind, else in front, and with '0' no blanks
      but zeros. Only "%X" prints capitals, and it prints no small letters. */
  ghost predicate Looks(text: string, c: char, n: int, d: Field) {
    var t, signed := Trim(text), IsSigned(c);
    var marked := signed && (n < 0 || d.flags.plus);
    && t != "" && |text| >= d.width
    && (t[0] == '-' <==> signed && n < 0) && (t[0] == '+' <==> signed && n >= 0 && d.flags.plus)
    && (signed && n >= 0 && !d.flags.plus && d.flags.space ==> text[0] == ' ')
    && |t| >= d.precision + (if marked then 1 else 0) && AllDigits(if marked then t[1..] else t, RadixOf(c))
    && (!d.flags.left ==> text[|text| - 1] != ' ')
    && (d.flags.left || d.flags.zeropad ==> text[0] != ' ' || (signed && d.flags.space))
    && (if c == 'X' then NoneFrom(text, 'a', 'f') else NoneFrom(text, 'A', 'F'))
  }

  lemma {:induction false} OctalIsHex(n: nat, large: bool)
    ensures Digits(n, 8, large) == Digits(n, 16, large)
  {
    if n > 0 { OctalIsHex(n / 16, large); }
  }

  lemma {:induction false} DigitsCase(n: nat, base: nat, large: bool)
    ensures if large then NoneFrom(Reverse(Digits(n, base, large)), 'a', 'f')
                     else NoneFrom(Reverse(Digits(n, base, large)), 'A', 'F')
  {
    if n > 0 {
      DigitsCase(n / Radix(base), base, large);
      assert Digits(n, base, large)[1..] == Digits(n / Radix(base), base, large);
      DigitCharCase(n % Radix(base), large);
    }
  }

  lemma DigitCharCase(d: nat, large: bool)
    requires d < 16
    ensures !(if large then 'a' <= DigitChar(d, large) <= 'f' else 'A' <= DigitChar(d, large) <= 'F')
  {
  }

  /** Blanks in front, sign, zeros and digits, blanks behind: without the outer blanks. */
  lemma ShapeTrims(sign: string, zeros: string, a: int, b: int)
    requires zeros != "" && zeros[0] != ' ' && zeros[|zeros| - 1] != ' '
    requires sign == "" || sign == " " || sign == "-" || sign == "+"
    ensures Trim(Padding(' ', a) + (sign + zeros) + Padding(' ', b)) == if sign == " " then zeros else sign + zeros
  {
    hide DropBlanks, SkipBlanks;
    if sign == " " {
      BlankSign(a, zeros, b);
      Trimmed((if a > 0 then a else 0) + 1, zeros, b);
      assert "" + zeros == zeros;
    } else {
      Trimmed(a, sign + zeros, b);
    }
  }

  lemma AllDigitsBehindZeros(z: int, digits: string, radix: nat)
    requires AllDigits(digits, radix) && digits != ""
    ensures var s := Padding('0', z) + digits;
      AllDigits(s, radix) && s[0] != ' ' && s[|s| - 1] != ' ' && s[0] != '-' && s[0] != '+'
  {
  }

  /** The two ends of a number in its field. */
  lemma ShapeEnds(sign: string, zeros: string, a: int, b: int)
    requires zeros != ""
    ensures var text := Padding(' ', a) + (sign + zeros) + Padding(' ', b);
      && text != "" && text[|text| - 1] == (if b > 0 then ' ' else zeros[|zeros| - 1])
      && text[0] == (if a > 0 then ' ' else if sign != "" then sign[0] else zeros[0])
  {
  }

  /** print_number, as the integer conversions call it. */
  lemma NumberLooks(num: int, c: char, d: Field, f: Flags)
    requires -0x8000_0000 <= num < 0x8000_0000 && d.precision != 0
    requires f == d.flags.(sign := IsSigned(c), large := c == 'X')
    ensures Looks(NumberText(num, RadixOf(c), d.width, d.precision, f), c,
                  if f.sign then num else num % WORD_RANGE, d)
  {
    hide Numeral, NumberText, AllDigits, RadixOf, NoneFrom, SignText, Padding, Looks;
    var base := RadixOf(c);
    RadixIs(c);
    var digits, sign := Numeral(Magnitude(num, f), base, f.large), SignText(num, f);
    NumeralReadsBack(Magnitude(num, f), base, f.large);
    NumeralCase(Magnitude(num, f), base, f.large);
    var a, z, b := NumberShape(num, base, d.width, d.precision, f);
    SignIs(num, f);
    WidthHolds(num, base, d.width, d.precision, f);
    ShapeLooks(sign, z, digits, a, b, c, if f.sign then num else num % WORD_RANGE, d);
  }

  /** Blanks, sign, zeros, digits and blanks, in the order and number print_number puts
      them out. */
  lemma ShapeLooks(sign: string, z: int, digits: string, a: int, b: int, c: char, n: int, d: Field)
    requires digits != "" && AllDigits(digits, RadixOf(c)) && z >= d.precision - |digits|
    requires sign == (if IsSigned(c) && n < 0 then "-" else if IsSigned(c) && d.flags.plus then "+"
                      else if IsSigned(c) && d.flags.space then " " else "")
    requires (d.flags.left ==> a <= 0) && (!d.flags.left ==> b <= 0 && (d.flags.zeropad ==> a <= 0))
    requires |Padding(' ', a) + (sign + (Padding('0', z) + digits)) + Padding(' ', b)| >= d.width
    requires if c == 'X' then NoneFrom(digits, 'a', 'f') else NoneFrom(digits, 'A', 'F')
    ensures Looks(Padding(' ', a) + (sign + (Padding('0', z) + digits)) + Padding(' ', b), c, n, d)
  {
    hide AllDigits, RadixOf, NoneFrom, Looks, Trim;
    var zeros := Padding('0', z) + digits;
    AllDigitsBehindZeros(z, digits, RadixOf(c));
    ShapeTrims(sign, zeros, a, b);
    ShapeEnds(sign, zeros, a, b);
    ShapeCase(sign, z, digits, a, b);
    LooksSo(Padding(' ', a) + (sign + zeros) + Padding(' ', b), sign, zeros, c, n, d);
  }

  lemma LooksSo(text: string, sign: string, zeros: string, c: char, n: int, d: Field)
    requires text != "" && zeros != "" && zeros[0] != ' ' && zeros[|zeros| - 1] != ' '
    requires zeros[0] != '-' && zeros[0] != '+' && AllDigits(zeros, RadixOf(c)) && |zeros| >= d.precision
    requires sign == (if IsSigned(c) && n < 0 then "-" else if IsSigned(c) && d.flags.plus then "+"
                      else if IsSigned(c) && d.flags.space then " " else "")
    requires Trim(text) == if sign == " " then zeros else sign + zeros
    requires |text| >= d.width && (!d.flags.left ==> text[|text| - 1] != ' ') && (sign == " " ==> text[0] == ' ')
    requires d.flags.left || d.flags.zeropad ==> text[0] == if sign != "" then sign[0] else zeros[0]
    requires if c == 'X' then NoneFrom(text, 'a', 'f') else NoneFrom(text, 'A', 'F')
    ensures Looks(text, c, n, d)
  {
    hide AllDigits, NoneFrom, Trim, RadixOf;
    var t := Trim(text);
    assert sign == "" ==> t == zeros;
    assert sign != "" && sign != " " ==> t[1..] == zeros && t[0] == sign[0];
  }

  lemma RadixIs(c: char)
    ensures Radix(RadixOf(c)) == RadixOf(c) && (RadixOf(c) == 10 || RadixOf(c) == 16)
  {
  }

  lemma SignIs(num: int, f: Flags)
    ensures SignText(num, f) == if f.sign && num < 0 then "-" else if f.sign && f.plus then "+"
                                else if f.sign && f.space then " " else ""
  {
  }

  /** Signs, zeros and blanks are no letters. */
  lemma ShapeCase(sign: string, z: int, digits: string, a: int, b: int)
    requires sign == "" || sign == " " || sign == "-" || sign == "+"
    ensures var text := Padding(' ', a) + (sign + (Padding('0', z) + digits)) + Padding(' ', b);
      && (NoneFrom(digits, 'a', 'f') ==> NoneFrom(text, 'a', 'f'))
      && (NoneFrom(digits, 'A', 'F') ==> NoneFrom(text, 'A', 'F'))
  {
  }

  lemma NumeralCase(n: nat, base: nat, large: bool)
    ensures if large then NoneFrom(Numeral(n, base, large), 'a', 'f') else NoneFrom(Numeral(n, base, large), 'A', 'F')
  {
    DigitsCase(n, base, large);
  }

  // ---------------------------------------------------------------- what each conversion prints

  predicate IsInteger(c: char) { c == 'd' || c == 'i' || c == 'u' || c == 'x' || c == 'X' || c == 'o' }

  lemma AnyBase(num: int, width: int, precision: int, f: Flags)
    ensures NumberText(num, 8, width, precision, f) == NumberText(num, 16, width, precision, f)
  {
    hide Padding, Magnitude, SignText, FillTo, Numeral;
    NumeralBase(Magnitude(num, f), f.large);
  }

  lemma NumeralBase(n: nat, large: bool)
    ensures Numeral(n, 8, large) == Numeral(n, 16, large)
  {
    OctalIsHex(n, large);
  }

  /** A conversion specification: its text, and the rest of the format behind it. */
  lemma RenderField(fmt: string, i: nat, args: nat -> nat, k: nat, mem: nat -> string)
    requires CharAt(fmt, i) == '%'
    ensures FieldAt(fmt, i, args, k).at > i
    ensures var (text, j, used) := Conversion(fmt, FieldAt(fmt, i, args, k), args, mem);
      Render(fmt, i, args, k, mem) == text + if j > i then Render(fmt, j, args, used, mem) else ""
  {
    hide NumberText, FieldAt, Justified;
    FieldAdvances(fmt, i, args, k);
  }

  lemma MeantIs(w: nat, signed: bool, short: bool)
    ensures var num, n := NumberOf(w % WORD_RANGE, signed, short), Meant(w, signed, short);
      -0x8000_0000 <= num < 0x8000_0000 && n == if signed then num else num % WORD_RANGE
  {
    Twice(w);
    LowHalf(w);
  }

  lemma LowHalf(w: nat)
    ensures (w % WORD_RANGE) % 0x1_0000 == w % 0x1_0000
  {
    var q := w / WORD_RANGE;
    assert w == q * WORD_RANGE + w % WORD_RANGE;
    assert w == (q * 0x1_0000) * 0x1_0000 + w % WORD_RANGE;
    AddMultiple(w % WORD_RANGE, q * 0x1_0000);
  }

  lemma {:induction false} AddMultiple(a: nat, k: nat)
    ensures (a + k * 0x1_0000) % 0x1_0000 == a % 0x1_0000
  {
    if k > 0 { AddMultiple(a, k - 1); }
  }

  /** The verdict of an integer conversion anywhere in a format: its text reads back as the
      argument, signed or unsigned, whole or its low half, exactly unless the precision is 0
      and the number is not; it looks as its flags, width and precision ask; and the rest of
      the format goes on behind it with the next argument. */
  lemma NumberVerdict(fmt: string, i: nat, args: nat -> nat, k: nat, mem: nat -> string)
    requires CharAt(fmt, i) == '%' && IsInteger(CharAt(fmt, FieldAt(fmt, i, args, k).at))
    ensures var d := FieldAt(fmt, i, args, k);
      var c, text := CharAt(fmt, d.at), Conversion(fmt, d, args, mem).0;
      var n := Meant(args(d.used), IsSigned(c), d.short);
      && Render(fmt, i, args, k, mem) == text + Render(fmt, d.at + 1, args, d.used + 1, mem)
      && (Scan(text, RadixOf(c)) == n <==> d.precision != 0 || n == 0)
      && (d.precision != 0 ==> Looks(text, c, n, d))
  {
    hide NumberText, Scan, Looks, FieldAt, NumberOf, Meant, Render;
    RenderField(fmt, i, args, k, mem);
    FieldClear(fmt, i, args, k);
    var d := FieldAt(fmt, i, args, k);
    var c := CharAt(fmt, d.at);
    var f := FlagsOf(c, d.flags);
    var num := NumberOf(args(d.used) % WORD_RANGE, f.sign, d.short);
    MeantIs(args(d.used), f.sign, d.short);
    if c == 'o' { AnyBase(num, d.width, d.precision, f); }
    NumberReadsBack(num, RadixOf(c), d.width, d.precision, f);
    if d.precision != 0 { NumberLooks(num, c, d, f); }
  }

  /** Text in a field: n characters, blanks up to the width behind them with '-', else in
      front, and nothing cut off. */
  ghost predicate InField(text: string, s: string, width: int, left: bool) {
    && |text| == (if width > |s| then width else |s|)
    && (if left then text[..|s|] == s else text[|text| - |s|..] == s)
    && forall i {:trigger text[i]} ::
        0 <= i < |text| && (if left then i >= |s| else i < |text| - |s|) ==> text[i] == ' '
  }

  lemma JustifiedIs(s: string, width: int, left: bool)
    ensures InField(Justified(s, width, left), s, width, left)
  {
  }

  /** "%c" prints the low 8 bits of its argument as a character. */
  lemma CharVerdict(fmt: string, i: nat, args: nat -> nat, k: nat, mem: nat -> string)
    requires CharAt(fmt, i) == '%' && CharAt(fmt, FieldAt(fmt, i, args, k).at) == 'c'
    ensures var d := FieldAt(fmt, i, args, k);
      var text := Conversion(fmt, d, args, mem).0;
      && Render(fmt, i, args, k, mem) == text + Render(fmt, d.at + 1, args, d.used + 1, mem)
      && InField(text, [((args(d.used) % WORD_RANGE) % 256) as char], d.width, d.flags.left)
  {
    hide FieldAt, NumberText, Render, Justified, InField;
    RenderField(fmt, i, args, k, mem);
    var d := FieldAt(fmt, i, args, k);
    JustifiedIs([((args(d.used) % WORD_RANGE) % 256) as char], d.width, d.flags.left);
  }

  /** "%s" prints the string at its argument, or "(NULL)" for no string; a precision cuts
      it to so many characters, unless it is 0, which does nothing. */
  lemma StringVerdict(fmt: string, i: nat, args: nat -> nat, k: nat, mem: nat -> string)
    requires CharAt(fmt, i) == '%' && CharAt(fmt, FieldAt(fmt, i, args, k).at) == 's'
    ensures var d := FieldAt(fmt, i, args, k);
      var p, text := args(d.used) % WORD_RANGE, Conversion(fmt, d, args, mem).0;
      var s := if p == 0 then "(NULL)" else mem(p);
      var n := if d.precision >= 1 then Min(d.precision, |s|) else |s|;
      && Render(fmt, i, args, k, mem) == text + Render(fmt, d.at + 1, args, d.used + 1, mem)
      && InField(text, s[..n], d.width, d.flags.left)
  {
    hide FieldAt, NumberText, InField, Render, Justified;
    RenderField(fmt, i, args, k, mem);
    var d := FieldAt(fmt, i, args, k);
    var s := CString(args(d.used) % WORD_RANGE, mem);
    JustifiedIs(Clipped(s, d.precision), d.width, d.flags.left);
    assert s[..|s|] == s;
  }

  /** "%p" prints the address in base 16; without a width, of eight digits. */
  lemma PointerVerdict(fmt: string, i: nat, args: nat -> nat, k: nat, mem: nat -> string)
    requires CharAt(fmt, i) == '%' && CharAt(fmt, FieldAt(fmt, i, args, k).at) == 'p'
    ensures var d := FieldAt(fmt, i, args, k);
      var p, text := args(d.used) % WORD_RANGE, Conversion(fmt, d, args, mem).0;
      && Render(fmt, i, args, k, mem) == text + Render(fmt, d.at + 1, args, d.used + 1, mem)
      && (Scan(text, 16) == p <==> d.precision != 0 || p == 0)
      && (d.width == -1 && d.precision == -1 && !d.flags.left ==> |text| == 8 && AllDigits(text, 16))
  {
    hide NumberText, Scan, FieldAt, Numeral, AllDigits, Render;
    RenderField(fmt, i, args, k, mem);
    FieldClear(fmt, i, args, k);
    var d := FieldAt(fmt, i, args, k);
    var p := args(d.used) % WORD_RANGE;
    var f := if d.width == -1 then d.flags.(zeropad := true) else d.flags;
    var n := if d.width == -1 then 8 else d.width;
    SignedBack(p);
    NumberReadsBack(Signed(p), 16, n, d.precision, f);
    if d.width == -1 && d.precision == -1 && !d.flags.left { EightDigits(Signed(p), f); }
  }

  lemma SignedBack(p: nat)
    requires p < WORD_RANGE
    ensures -0x8000_0000 <= Signed(p) < 0x8000_0000 && Signed(p) % WORD_RANGE == p
  {
  }

  function Pow16(k: nat): nat { if k == 0 then 1 else 16 * Pow16(k - 1) }

  lemma {:induction false} HexDigitsFew(n: nat, large: bool, k: nat)
    requires n < Pow16(k)
    ensures |Digits(n, 16, large)| <= k
  {
    if n > 0 { HexDigitsFew(n / 16, large, k - 1); }
  }

  lemma EightDigits(num: int, f: Flags)
    requires -0x8000_0000 <= num < 0x8000_0000 && !f.sign && !f.left && f.zeropad
    ensures |NumberText(num, 16, 8, -1, f)| == 8 && AllDigits(NumberText(num, 16, 8, -1, f), 16)
  {
    hide Value, Numeral, NumberText, AllDigits;
    var m := Magnitude(num, f);
    var digits := Numeral(m, 16, f.large);
    NumeralReadsBack(m, 16, f.large);
    NumeralFits(m, f.large);
    WidthHolds(num, 16, 8, -1, f);
    var a, z, b := NumberShape(num, 16, 8, -1, f);
    AllDigitsBehindZeros(z, digits, 16);
    assert Padding(' ', a) == "" == Padding(' ', b) && SignText(num, f) == "";
    assert "" + ("" + (Padding('0', z) + digits)) + "" == Padding('0', z) + digits;
  }

  lemma NumeralFits(m: nat, large: bool)
    requires m < WORD_RANGE
    ensures |Numeral(m, 16, large)| <= 8
  {
    assert Pow16(4) == 0x1_0000;
    assert Pow16(8) == WORD_RANGE;
    HexDigitsFew(m, large, 8);
  }

  /** "%%" prints a percent sign; an unknown conversion prints itself behind one, and a
      format that ends inside a specification one alone. None reads an argument of its own. */
  lemma OtherVerdict(fmt: string, i: nat, args: nat -> nat, k: nat, mem: nat -> string)
    requires CharAt(fmt, i) == '%'
    requires var c := CharAt(fmt, FieldAt(fmt, i, args, k).at);
      !IsInteger(c) && c != 'c' && c != 's' && c != 'p'
    ensures var d := FieldAt(fmt, i, args, k);
      var c := CharAt(fmt, d.at);
      Render(fmt, i, args, k, mem) ==
        if c == '\0' then "%" else (if c == '%' then "%" else "%" + [c]) + Render(fmt, d.at + 1, args, d.used, mem)
  {
    hide FieldAt, NumberText;
    RenderField(fmt, i, args, k, mem);
  }

  // ---------------------------------------------------------------- "%o"

  /** A numeral of two or more digits that does not begin with 0 is worth less in base 8. */
  lemma {:induction false} LessInOctal(s: string)
    ensures Value(s, 8) <= Value(s, 16)
    ensures |s| >= 2 && DigitLike(s[0]) && s[0] != '0' ==> Value(s, 8) < Value(s, 16)
    ensures |s| >= 1 && DigitLike(s[0]) && s[0] != '0' ==> Value(s, 16) >= 1
  {
    if |s| >= 1 {
      var t := s[..|s| - 1];
      LessInOctal(t);
      if |s| == 1 { assert t == ""; } else { assert t[0] == s[0]; }
    }
  }

  predicate IsOctal(s: string) { forall i {:trigger s[i]} :: 0 <= i < |s| ==> '0' <= s[i] <= '7' }

  /** "%o" is printed in base 16: what it prints is the octal numeral of its argument
      exactly for arguments below 8. */
  lemma OctalIff(args: nat -> nat, mem: nat -> string)
    ensures var text, n := Render("%o", 0, args, 0, mem), args(0) % WORD_RANGE;
      IsOctal(text) && Value(text, 8) == n <==> n < 8
  {
    hide NumberText, Scan, Numeral, Value;
    var d := Field(NOFLAGS, -1, -1, false, 1, 0);
    assert FieldAt("%o", 0, args, 0) == d;
    var n := args(0) % WORD_RANGE;
    var text := NumberText(Signed(n), 8, -1, -1, NOFLAGS);
    assert Conversion("%o", d, args, mem) == (text, 2, 1);
    assert Render("%o", 2, args, 1, mem) == "";
    assert Render("%o", 0, args, 0, mem) == text + "" == text;
    SignedBack(n);
    PlainNumber(Signed(n));
    OctalNumeral(n);
  }

  lemma PlainNumber(num: int)
    ensures NumberText(num, 8, -1, -1, NOFLAGS) == Numeral(num % WORD_RANGE, 8, false)
  {
  }

  lemma OctalNumeral(n: nat)
    ensures var s := Numeral(n, 8, false); IsOctal(s) && Value(s, 8) == n <==> n < 8
  {
    var s := Numeral(n, 8, false);
    NumeralReadsBack(n, 8, false);
    LessInOctal(s);
    if n < 16 {
      assert n > 0 ==> Digits(n, 8, false) == [DigitChar(n, false)] + Digits(n / 16, 8, false);
      assert s == [DigitChar(n, false)];
      ValueLast("", s[0], 8);
      assert "" + [s[0]] == s;
    } else {
      assert |s| >= 2;
    }
  }
}
