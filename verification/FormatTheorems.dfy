/** rt-thread/src/kservice.c: what rt_vsnprintf prints can be read back. */
module FormatTheorems {
  import opened Common
  import opened FormatSpec

  // ---------------------------------------------------------------- numerals

  /** Value of a digit in either case. */
  function HexValue(c: char): nat {
    if IsDigit(c) then DigitValue(c)
    else if 'a' <= c <= 'f' then c as nat - 'a' as nat + 10
    else if 'A' <= c <= 'F' then c as nat - 'A' as nat + 10
    else 0
  }

  /** The number a string of digits stands for. */
  function Value(s: string, radix: nat): nat {
    if s == "" then 0 else Value(s[..|s| - 1], radix) * radix + HexValue(s[|s| - 1])
  }

  predicate DigitLike(c: char) { IsDigit(c) || 'a' <= c <= 'f' || 'A' <= c <= 'F' }

  lemma DigitCharValue(d: nat, large: bool)
    requires d < 16
    ensures HexValue(DigitChar(d, large)) == d && DigitLike(DigitChar(d, large))
        && (d < 10 <==> IsDigit(DigitChar(d, large)))
  {
  }

  lemma ValueLast(s: string, c: char, radix: nat)
    ensures Value(s + [c], radix) == Value(s, radix) * radix + HexValue(c)
  {
    assert (s + [c])[..|s|] == s;
  }

  predicate AllDigits(s: string, radix: nat) {
    forall i {:trigger s[i]} :: 0 <= i < |s| ==> DigitLike(s[i]) && (radix == 10 ==> IsDigit(s[i]))
  }

  /** Digit by digit, the last first, and read the other way round: the number again. */
  lemma {:induction false} DigitsReadBack(n: nat, base: nat, large: bool)
    ensures Value(Reverse(Digits(n, base, large)), Radix(base)) == n
    ensures AllDigits(Reverse(Digits(n, base, large)), Radix(base))
  {
    if n > 0 {
      var r := Radix(base);
      DigitsReadBack(n / r, base, large);
      DigitCharValue(n % r, large);
      var c := DigitChar(n % r, large);
      assert Digits(n, base, large)[1..] == Digits(n / r, base, large);
      ValueLast(Reverse(Digits(n / r, base, large)), c, r);
    }
  }

  lemma {:induction false} NoLeadingZero(n: nat, base: nat, large: bool)
    requires n > 0
    ensures Digits(n, base, large) != "" && Reverse(Digits(n, base, large))[0] != '0'
  {
    var r := Radix(base);
    DigitCharValue(n % r, large);
    var back := Reverse(Digits(n / r, base, large));
    assert Digits(n, base, large)[1..] == Digits(n / r, base, large);
    assert Reverse(Digits(n, base, large)) == back + [DigitChar(n % r, large)];
    if n / r > 0 { NoLeadingZero(n / r, base, large); } else { assert n % r == n; }
  }

  /** The shortest numeral of the number. */
  lemma NumeralReadsBack(n: nat, base: nat, large: bool)
    ensures Value(Numeral(n, base, large), Radix(base)) == n && AllDigits(Numeral(n, base, large), Radix(base))
        && Numeral(n, base, large) != "" && (Numeral(n, base, large)[0] == '0' ==> Numeral(n, base, large) == "0")
  {
    hide Digits, Reverse;
    DigitsReadBack(n, base, large);
    if n == 0 { ValueLast("", '0', Radix(base)); } else { NoLeadingZero(n, base, large); }
  }

  // ---------------------------------------------------------------- skip_atoi

  lemma AtoiStep(s: string, i: nat, k: nat)
    requires i <= k < |s| && IsDigit(s[k])
    ensures Atoi(s, k, Value(s[i..k], 10)) == Atoi(s, k + 1, Value(s[i..k + 1], 10))
  {
    assert s[i..k + 1][..k - i] == s[i..k];
  }

  lemma {:induction false} AtoiReads(s: string, i: nat, k: nat)
    requires i <= k <= |s| && AllDigits(s[i..k], 10)
    ensures Atoi(s, i, 0) == Atoi(s, k, Value(s[i..k], 10))
  {
    if k > i {
      var a, b := s[i..k - 1], s[i..k];
      assert b[k - 1 - i] == s[k - 1];
      assert forall j {:trigger a[j]} :: 0 <= j < |a| ==> a[j] == b[j];
      AtoiReads(s, i, k - 1);
      AtoiStep(s, i, k - 1);
    }
  }

  /** skip_atoi inverts printing in base 10, and stops right behind the number. */
  lemma AtoiInvertsPrinting(n: nat, rest: string)
    requires !IsDigit(CharAt(rest, 0))
    ensures Atoi(Numeral(n, 10, false) + rest, 0, 0) == (n, |Numeral(n, 10, false)|)
  {
    var digits := Numeral(n, 10, false);
    var s := digits + rest;
    NumeralReadsBack(n, 10, false);
    assert s[0..|digits|] == digits;
    AtoiReads(s, 0, |digits|);
    assert CharAt(s, |digits|) == CharAt(rest, 0);
  }

  // ---------------------------------------------------------------- reading a printed number

  function SkipBlanks(s: string): string { if s != "" && s[0] == ' ' then SkipBlanks(s[1..]) else s }

  function DropBlanks(s: string): string { if s != "" && s[|s| - 1] == ' ' then DropBlanks(s[..|s| - 1]) else s }

  /** Blanks around it apart: an optional sign and a numeral. */
  function Scan(s: string, radix: nat): int {
    var t := DropBlanks(SkipBlanks(s));
    if t != "" && t[0] == '-' then -(Value(t[1..], radix) as int)
    else if t != "" && t[0] == '+' then Value(t[1..], radix)
    else Value(t, radix)
  }

  lemma {:induction false} BlanksInFront(n: int, s: string)
    requires s == "" || s[0] != ' '
    ensures SkipBlanks(Padding(' ', n) + s) == s
  {
    if n > 0 {
      var t := Padding(' ', n) + s;
      assert t[1..] == Padding(' ', n - 1) + s;
      BlanksInFront(n - 1, s);
    } else {
      assert Padding(' ', n) + s == s;
    }
  }

  lemma {:induction false} BlanksBehind(s: string, n: int)
    requires s == "" || s[|s| - 1] != ' '
    ensures DropBlanks(s + Padding(' ', n)) == s
  {
    if n > 0 {
      var t := s + Padding(' ', n);
      assert t[..|t| - 1] == s + Padding(' ', n - 1);
      BlanksBehind(s, n - 1);
    } else {
      assert s + Padding(' ', n) == s;
    }
  }

  lemma Trimmed(a: int, s: string, b: int)
    requires s != "" && s[0] != ' ' && s[|s| - 1] != ' '
    ensures DropBlanks(SkipBlanks(Padding(' ', a) + s + Padding(' ', b))) == s
  {
    var t := s + Padding(' ', b);
    assert Padding(' ', a) + s + Padding(' ', b) == Padding(' ', a) + t;
    BlanksInFront(a, t);
    BlanksBehind(s, b);
  }

  /** Leading zeros do not change the value. */
  lemma {:induction false} ZerosInFront(n: int, s: string, radix: nat)
    ensures Value(Padding('0', n) + s, radix) == Value(s, radix)
    decreases |s|, if n > 0 then n else 0
  {
    var t := Padding('0', n) + s;
    if s != "" {
      assert t[..|t| - 1] == Padding('0', n) + s[..|s| - 1];
      ZerosInFront(n, s[..|s| - 1], radix);
    } else if n > 0 {
      assert t[..|t| - 1] == Padding('0', n - 1) + "";
      ZerosInFront(n - 1, "", radix);
    } else {
      assert t == "";
    }
  }

  /** Blanks in front, sign, zeros, digits, blanks behind. */
  lemma NumberShape(num: int, base: nat, width: int, precision: int, f: Flags) returns (a: int, z: int, b: int)
    requires precision != 0
    ensures NumberText(num, base, width, precision, f) ==
        Padding(' ', a) + (SignText(num, f) + (Padding('0', z) + Numeral(Magnitude(num, f), base, f.large))) +
        Padding(' ', b)
    ensures f.left ==> a <= 0
    ensures !f.left ==> b <= 0 && (f.zeropad ==> a <= 0)
    ensures z >= precision - |Numeral(Magnitude(num, f), base, f.large)|
  {
    hide Numeral, SignText;
    var sign, digits := SignText(num, f), Numeral(Magnitude(num, f), base, f.large);
    var room := if |digits| > precision then |digits| else precision;
    var fill := FillTo(room + |sign|, width);
    a, z, b := if !f.left && !f.zeropad then fill else 0, room - |digits|, if f.left then fill else 0;
    var zeros := Padding('0', z);
    if f.left {
      assert sign + (zeros + digits) + Padding(' ', b) == "" + (sign + (zeros + digits)) + Padding(' ', b);
    } else if f.zeropad {
      z := room - |digits| + fill;
      assert Padding('0', z) == Padding('0', fill) + zeros;
      assert sign + Padding('0', fill) + (zeros + digits) == "" + (sign + (Padding('0', z) + digits)) + "";
    } else {
      assert Padding(' ', a) + sign + (zeros + digits) == Padding(' ', a) + (sign + (zeros + digits)) + "";
    }
  }

  lemma ScanShape(sign: string, z: int, digits: string, a: int, b: int, radix: nat)
    requires digits != "" && AllDigits(digits, radix) && (sign == "" || sign == "-" || sign == "+")
    ensures Scan(Padding(' ', a) + (sign + (Padding('0', z) + digits)) + Padding(' ', b), radix) ==
      if sign == "-" then -(Value(digits, radix) as int) else Value(digits, radix)
  {
    var t := sign + (Padding('0', z) + digits);
    assert t[|t| - 1] == digits[|digits| - 1];
    assert sign == "" ==> t[0] == if z > 0 then '0' else digits[0];
    Trimmed(a, t, b);
    ZerosInFront(z, digits, radix);
    if sign == "" { assert t == Padding('0', z) + digits; } else { assert t[1..] == Padding('0', z) + digits; }
  }

  /** A sign that is a blank counts as one more blank in front. */
  lemma BlankSign(a: int, s: string, b: int)
    ensures Padding(' ', a) + (" " + s) + Padding(' ', b) ==
        Padding(' ', (if a > 0 then a else 0) + 1) + ("" + s) + Padding(' ', b)
  {
    assert Padding(' ', (if a > 0 then a else 0) + 1) == Padding(' ', a) + " ";
  }

  /** Whatever the flags, the width and a precision other than 0: a number printed in
      base 10 or 16 reads back as itself. Printed with precision 0 it never does, unless
      it is 0. */
  lemma NumberReadsBack(num: int, base: nat, width: int, precision: int, f: Flags)
    requires -0x8000_0000 <= num < 0x8000_0000 && (base == 10 || base == 16)
    ensures Scan(NumberText(num, base, width, precision, f), base) == (if f.sign then num else num % WORD_RANGE)
        <==> precision != 0 || num == 0
  {
    hide Numeral, Value, NumberText;
    var digits := Numeral(Magnitude(num, f), base, f.large);
    NumeralReadsBack(Magnitude(num, f), base, f.large);
    if precision == 0 {
      NoDigits(num, base, width, f);
    } else {
      var a, z, b := NumberShape(num, base, width, precision, f);
      if SignText(num, f) == " " {
        BlankSign(a, Padding('0', z) + digits, b);
        ScanShape("", z, digits, (if a > 0 then a else 0) + 1, b, base);
      } else {
        ScanShape(SignText(num, f), z, digits, a, b, base);
      }
    }
  }

  /** With precision 0 only a sign, zeros and blanks are left. */
  lemma NoDigits(num: int, base: nat, width: int, f: Flags)
    requires base == 10 || base == 16
    ensures Scan(NumberText(num, base, width, 0, f), base) == 0
  {
    hide Numeral;
    var sign, digits := SignText(num, f), Numeral(Magnitude(num, f), base, f.large);
    var fill := FillTo(|digits| + |sign|, width);
    var zeros := if f.zeropad && !f.left then fill else 0;
    var a, b := if !f.left && !f.zeropad then fill else 0, if f.left then fill else 0;
    var text := NumberText(num, base, width, 0, f);
    assert text == Padding(' ', a) + (sign + Padding('0', zeros)) + Padding(' ', b);
    if sign == " " {
      BlankSign(a, Padding('0', zeros), b);
      OnlyZeros((if a > 0 then a else 0) + 1, "", zeros, b, base);
    } else {
      OnlyZeros(a, sign, zeros, b, base);
    }
  }

  lemma OnlyZeros(a: int, sign: string, z: int, b: int, radix: nat)
    requires sign == "" || sign == "-" || sign == "+"
    ensures Scan(Padding(' ', a) + (sign + Padding('0', z)) + Padding(' ', b), radix) == 0
  {
    var t := sign + Padding('0', z);
    ZerosInFront(z, "", radix);
    assert Padding('0', z) + "" == Padding('0', z);
    if t == "" {
      var n := (if a > 0 then a else 0) + if b > 0 then b else 0;
      assert Padding(' ', a) + t + Padding(' ', b) == Padding(' ', n) + "";
      BlanksInFront(n, "");
    } else {
      assert t[|t| - 1] == if z > 0 then '0' else sign[0];
      Trimmed(a, t, b);
      if sign == "" { assert t == Padding('0', z); } else { assert t[1..] == Padding('0', z); }
    }
  }

  /** The width is a minimum, and met exactly when the number is shorter. */
  lemma WidthHolds(num: int, base: nat, width: int, precision: int, f: Flags)
    requires precision != 0
    ensures var digits, sign := |Numeral(Magnitude(num, f), base, f.large)|, |SignText(num, f)|;
      var least := (if digits > precision then digits else precision) + sign;
      |NumberText(num, base, width, precision, f)| == if width > least then width else least
  {
    hide Numeral, SignText;
  }

  /** The format "%d" turns any argument into the text of that signed number. */
  lemma DecimalReadsBack(args: nat -> nat, mem: nat -> string)
    ensures Scan(Render("%d", 0, args, 0, mem), 10) == Signed(args(0))
  {
    hide NumberText, Scan;
    var d := Field(NOFLAGS, -1, -1, false, 1, 0);
    assert FieldAt("%d", 0, args, 0) == d;
    var text := NumberText(Signed(args(0)), 10, -1, -1, NOFLAGS.(sign := true));
    Twice(args(0));
    assert Conversion("%d", d, args, mem) == (text, 2, 1);
    assert Render("%d", 2, args, 1, mem) == "";
    assert Render("%d", 0, args, 0, mem) == text + "" == text;
    NumberReadsBack(Signed(args(0)), 10, -1, -1, NOFLAGS.(sign := true));
  }

  lemma Twice(w: nat)
    ensures Signed(w % WORD_RANGE) == Signed(w)
  {
  }

  // ---------------------------------------------------------------- literal text

  /** Doubles every percent sign. */
  function Escape(s: string): string {
    if s == "" then "" else (if s[0] == '%' then "%%" else [s[0]]) + Escape(s[1..])
  }

  /** A text with its percent signs doubled is printed as it was, and reads no argument. */
  lemma {:induction false} EscapedIsLiteral(front: string, s: string, args: nat -> nat, k: nat, mem: nat -> string)
    requires '\0' !in s
    ensures Render(front + Escape(s), |front|, args, k, mem) == s
    decreases |s|
  {
    hide NumberText;
    var fmt, i := front + Escape(s), |front|;
    if s != "" {
      var piece := if s[0] == '%' then "%%" else [s[0]];
      assert fmt == (front + piece) + Escape(s[1..]);
      EscapedIsLiteral(front + piece, s[1..], args, k, mem);
      assert fmt[i] == s[0] && s[0] in s;
      if s[0] == '%' {
        assert fmt[i + 1] == '%';
        assert FieldAt(fmt, i, args, k) == Field(NOFLAGS, -1, -1, false, i + 1, k);
      }
      assert s == [s[0]] + s[1..];
    }
  }
}
