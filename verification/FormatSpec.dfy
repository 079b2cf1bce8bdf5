/** rt-thread/src/kservice.c, rt_vsnprintf: what a format and its arguments stand for,
    whatever the buffer. RT_PRINTF_PRECISION is on, RT_PRINTF_LONGLONG and
    RT_PRINTF_SPECIAL are off. Widths and precisions are computed exactly. */
module FormatSpec {
  import opened Common

  datatype Flags = Flags(zeropad: bool, sign: bool, plus: bool, space: bool, left: bool, special: bool, large: bool)

  const NOFLAGS := Flags(false, false, false, false, false, false, false)

  const ADDRESS_DIGITS: nat := 8       // sizeof(void *) << 1

  /** The 32-bit word read as a signed number. */
  function Signed(w: int): int {
    var u := w % WORD_RANGE;
    if u < 0x8000_0000 then u else u - WORD_RANGE
  }

  function Signed16(w: int): int {
    var u := w % 0x1_0000;
    if u < 0x8000 then u else u - 0x1_0000
  }

  /** *(fmt + i); a C string ends with a zero character. */
  function CharAt(fmt: string, i: nat): char { if i < |fmt| then fmt[i] else '\0' }

  predicate IsDigit(c: char) { '0' <= c <= '9' }

  function DigitValue(c: char): nat
    requires IsDigit(c)
  {
    c as nat - '0' as nat
  }

  /** skip_atoi: the value of the digits from i on and where they end. */
  function Atoi(fmt: string, i: nat, acc: nat): (nat, nat)
    decreases |fmt| - i
  {
    if IsDigit(CharAt(fmt, i)) then Atoi(fmt, i + 1, acc * 10 + DigitValue(CharAt(fmt, i))) else (acc, i)
  }

  lemma {:induction false} AtoiAdvances(fmt: string, i: nat, acc: nat)
    ensures Atoi(fmt, i, acc).1 >= i
    decreases |fmt| - i
  {
    if IsDigit(CharAt(fmt, i)) { AtoiAdvances(fmt, i + 1, acc * 10 + DigitValue(CharAt(fmt, i))); }
  }

  // ---------------------------------------------------------------- numbers

  function Padding(c: char, n: int): (r: string)
    ensures |r| == if n > 0 then n else 0
  {
    seq(if n > 0 then n else 0, _ => c)
  }

  function DigitChar(d: nat, large: bool): char
    requires d < 16
  {
    (if large then "0123456789ABCDEF" else "0123456789abcdef")[d]
  }

  /** divide: base 10, and 16 for every other base. */
  function Radix(base: nat): nat { if base == 10 then 10 else 16 }

  /** The digits of n, the last one first. */
  function Digits(n: nat, base: nat, large: bool): string {
    if n == 0 then "" else [DigitChar(n % Radix(base), large)] + Digits(n / Radix(base), base, large)
  }

  function Reverse(s: string): (r: string)
    ensures |r| == |s|
  {
    if s == "" then "" else Reverse(s[1..]) + [s[0]]
  }

  function Numeral(n: nat, base: nat, large: bool): string {
    if n == 0 then "0" else Reverse(Digits(n, base, large))
  }

  function SignText(num: int, f: Flags): string {
    if !f.sign then "" else if num < 0 then "-" else if f.plus then "+" else if f.space then " " else ""
  }

  /** The bits of num, or of -num for a negative number with a sign. */
  function Magnitude(num: int, f: Flags): nat { (if f.sign && num < 0 then -num else num) % WORD_RANGE }

  function FillTo(have: int, width: int): int { if width > have then width - have else 0 }

  /** print_number: sign and digits, the digits extended to the precision with zeros and
      the whole to the width: with blanks behind it, zeros behind the sign, or blanks in
      front. Precision 0 suppresses the digits, but not the room for them. */
  function NumberText(num: int, base: nat, width: int, precision: int, f: Flags): string {
    var sign := SignText(num, f);
    var digits := Numeral(Magnitude(num, f), base, f.large);
    var room := if |digits| > precision then |digits| else precision;
    var fill := FillTo(room + |sign|, width);
    var body := Padding('0', room - |digits|) + if precision == 0 then "" else digits;
    if f.left then sign + body + Padding(' ', fill)
    else if f.zeropad then sign + Padding('0', fill) + body
    else Padding(' ', fill) + sign + body
  }

  function Justified(text: string, width: int, left: bool): string {
    var fill := Padding(' ', FillTo(|text|, width));
    if left then text + fill else fill + text
  }

  // ---------------------------------------------------------------- conversion specifications

  /** What stands between '%' and the conversion character: at is the index of that
      character, used counts the arguments read so far. */
  datatype Field = Field(flags: Flags, width: int, precision: int, short: bool, at: nat, used: nat)

  function WithFlag(f: Flags, c: char): Option<Flags> {
    if c == '-' then Some(f.(left := true))
    else if c == '+' then Some(f.(plus := true))
    else if c == ' ' then Some(f.(space := true))
    else if c == '#' then Some(f.(special := true))
    else if c == '0' then Some(f.(zeropad := true))
    else None
  }

  function FlagsAt(fmt: string, i: nat, f: Flags): (r: (Flags, nat))
    ensures r.1 >= i
    decreases |fmt| - i
  {
    var g := WithFlag(f, CharAt(fmt, i));
    if g.None? then (f, i) else FlagsAt(fmt, i + 1, g.value)
  }

  /** Width, flags, next index, arguments read. */
  function WidthAt(fmt: string, i: nat, f: Flags, args: nat -> nat, k: nat): (int, Flags, nat, nat) {
    if IsDigit(CharAt(fmt, i)) then
      var (w, j) := Atoi(fmt, i, 0);
      (w, f, j, k)
    else if CharAt(fmt, i) == '*' then
      var w := Signed(args(k));
      if w < 0 then (-w, f.(left := true), i + 1, k + 1) else (w, f, i + 1, k + 1)
    else (-1, f, i, k)
  }

  /** Precision, next index, arguments read. */
  function PrecisionAt(fmt: string, i: nat, args: nat -> nat, k: nat): (int, nat, nat) {
    if CharAt(fmt, i) != '.' then (-1, i, k)
    else if IsDigit(CharAt(fmt, i + 1)) then
      var (p, j) := Atoi(fmt, i + 1, 0);
      (p, j, k)
    else if CharAt(fmt, i + 1) == '*' then (if Signed(args(k)) < 0 then 0 else Signed(args(k)), i + 2, k + 1)
    else (0, i + 1, k)
  }

  /** The specification that starts at the '%' at i. */
  function FieldAt(fmt: string, i: nat, args: nat -> nat, k: nat): Field {
    var (f, a) := FlagsAt(fmt, i + 1, NOFLAGS);
    var (w, f1, b, k1) := WidthAt(fmt, a, f, args, k);
    var (p, c, k2) := PrecisionAt(fmt, b, args, k1);
    var q := CharAt(fmt, c);
    Field(f1, w, p, q == 'h', if q == 'h' || q == 'l' then c + 1 else c, k2)
  }

  lemma FieldAdvances(fmt: string, i: nat, args: nat -> nat, k: nat)
    ensures FieldAt(fmt, i, args, k).at > i
  {
    var (f, a) := FlagsAt(fmt, i + 1, NOFLAGS);
    AtoiAdvances(fmt, a, 0);
    var (w, f1, b, k1) := WidthAt(fmt, a, f, args, k);
    AtoiAdvances(fmt, b + 1, 0);
  }

  /** The argument as print_number receives it. */
  function NumberOf(w: nat, signed: bool, short: bool): int {
    if !short then Signed(w)
    else if signed then Signed16(w)
    else w % 0x1_0000
  }

  predicate IsNumber(c: char) { c == 'o' || c == 'x' || c == 'X' || c == 'd' || c == 'i' || c == 'u' }

  function BaseOf(c: char): nat { if c == 'o' then 8 else if c == 'x' || c == 'X' then 16 else 10 }

  function FlagsOf(c: char, f: Flags): Flags {
    f.(large := f.large || c == 'X', sign := f.sign || c == 'd' || c == 'i')
  }

  function CString(p: nat, mem: nat -> string): string { if p == 0 then "(NULL)" else mem(p) }

  function Clipped(s: string, precision: int): string { if 0 < precision < |s| then s[..precision] else s }

  /** Text of the conversion, where the format goes on, arguments read. mem gives the
      characters of the string at an address. */
  function Conversion(fmt: string, d: Field, args: nat -> nat, mem: nat -> string): (string, nat, nat) {
    var c, w := CharAt(fmt, d.at), args(d.used) % WORD_RANGE;
    if c == 'c' then (Justified([(w % 256) as char], d.width, d.flags.left), d.at + 1, d.used + 1)
    else if c == 's'
        then (Justified(Clipped(CString(w, mem), d.precision), d.width, d.flags.left), d.at + 1, d.used + 1)
    else if c == 'p' then
      var f := if d.width == -1 then d.flags.(zeropad := true) else d.flags;
      var n := if d.width == -1 then ADDRESS_DIGITS else d.width;
      (NumberText(Signed(w), 16, n, d.precision, f), d.at + 1, d.used + 1)
    else if c == '%' then ("%", d.at + 1, d.used)
    else if IsNumber(c) then
      var f := FlagsOf(c, d.flags);
      (NumberText(NumberOf(w, f.sign, d.short), BaseOf(c), d.width, d.precision, f), d.at + 1, d.used + 1)
    else if c == '\0' then ("%", d.at, d.used)
    else (['%', c], d.at + 1, d.used)
  }

  /** All the characters a format stands for, from index i and argument k on. */
  function Render(fmt: string, i: nat, args: nat -> nat, k: nat, mem: nat -> string): string
    decreases |fmt| - i
  {
    var c := CharAt(fmt, i);
    if c == '\0' then ""
    else if c != '%' then [c] + Render(fmt, i + 1, args, k, mem)
    else
      FieldAdvances(fmt, i, args, k);
      var (text, j, k1) := Conversion(fmt, FieldAt(fmt, i, args, k), args, mem);
      text + Render(fmt, j, args, k1, mem)
  }
}
