/** rt-thread/src/kservice.c: divide, skip_atoi, print_number and rt_vsnprintf, which
    write at most size characters and go on counting behind them. */
module Format {
  import opened Common
  import opened FormatSpec

  /** cells with text laid over them from index 0 on, as far as end. */
  function Overlaid(cells: seq<char>, end: nat, text: string): (r: seq<char>)
    ensures |r| == |cells|
  {
    seq(|cells|, i requires 0 <= i < |cells| => if i < |text| && i < end then text[i] else cells[i])
  }

  /** str stands behind the text written so far over a buffer that held before. */
  ghost predicate Shows(cells: seq<char>, before: seq<char>, end: nat, str: nat, text: string) {
    str == |text| && cells == Overlaid(before, end, text)
  }

  lemma Associative(a: string, b: string, c: string)
    ensures (a + b) + c == a + (b + c)
  {
  }

  lemma PadMore(c: char, n: nat)
    ensures Padding(c, n + 1) == Padding(c, n) + [c]
  {
  }

  /** if (str < end) *str = c; ++ str; */
  method Emit(buf: array<char>, end: nat, str: nat, c: char, ghost before: seq<char>, ghost text: string)
      returns (s: nat)
    requires end <= buf.Length && Shows(buf[..], before, end, str, text)
    modifies buf
    ensures s == str + 1 && Shows(buf[..], before, end, s, text + [c])
  {
    if str < end { buf[str] := c; }
    s := str + 1;
    assert buf[..] == Overlaid(before, end, text + [c]);
  }

  /** while (n-- > 0) emits c; the count is left below zero. */
  method Fill(buf: array<char>, end: nat, str: nat, c: char, n: int, ghost before: seq<char>, ghost text: string)
    returns (s: nat, left: int)
    requires end <= buf.Length && Shows(buf[..], before, end, str, text)
    modifies buf
    ensures left == (if n > 0 then 0 else n) - 1 && Shows(buf[..], before, end, s, text + Padding(c, n))
  {
    s, left := str, n;
    ghost var done := 0;
    assert text + Padding(c, 0) == text;
    while left > 0
      invariant done == (if left > 0 then n - left else if n > 0 then n else 0) && left <= n && (n > 0 ==> left >= 0)
          && (n <= 0 ==> left == n)
      invariant Shows(buf[..], before, end, s, text + Padding(c, done))
    {
      left := left - 1;
      s := Emit(buf, end, s, c, before, text + Padding(c, done));
      PadMore(c, done);
      Associative(text, Padding(c, done), [c]);
      done := done + 1;
    }
    left := left - 1;
    assert Padding(c, n) == Padding(c, done);
  }

  /** Copies a string forward. */
  method Copy(buf: array<char>, end: nat, str: nat, from: string, len: nat, ghost before: seq<char>, ghost text: string)
      returns (s: nat)
    requires end <= buf.Length && Shows(buf[..], before, end, str, text) && len <= |from|
    modifies buf
    ensures Shows(buf[..], before, end, s, text + from[..len])
  {
    s := str;
    assert text + from[..0] == text;
    for i := 0 to len
      invariant Shows(buf[..], before, end, s, text + from[..i])
    {
      s := Emit(buf, end, s, from[i], before, text + from[..i]);
      assert (text + from[..i]) + [from[i]] == text + from[..i + 1];
    }
  }

  // ---------------------------------------------------------------- print_number

  function Pow10(k: nat): nat { if k == 0 then 1 else 10 * Pow10(k - 1) }

  /** A number below 10 to the k has at most k digits, in base 16 as well. */
  lemma {:induction false} DigitsFew(n: nat, base: nat, large: bool, k: nat)
    requires n < Pow10(k)
    ensures |Digits(n, base, large)| <= k
  {
    if n > 0 { DigitsFew(n / Radix(base), base, large, k - 1); }
  }

  /** So a 32-bit number fits the temporary buffer. */
  lemma DigitsFit(n: nat, base: nat, large: bool)
    requires n < WORD_RANGE
    ensures |Digits(n, base, large)| <= 10
  {
    assert Pow10(5) == 100000;
    assert Pow10(10) == 10000000000;
    DigitsFew(n, base, large, 10);
  }

  lemma {:induction false} ReverseAt(s: string, k: nat)
    requires k < |s|
    ensures Reverse(s)[k] == s[|s| - 1 - k]
  {
    if k < |s| - 1 { ReverseAt(s[1..], k); }
  }

  /** The digits of num, the last one first. */
  method Convert(num: nat, base: nat, large: bool) returns (tmp: array<char>, i: nat)
    requires num < WORD_RANGE
    ensures fresh(tmp) && tmp.Length == 16 && 0 < i <= 10 && Reverse(tmp[..i]) == Numeral(num, base, large)
  {
    tmp := new char[16];
    i := 0;
    var rest: nat := num;
    DigitsFit(num, base, large);
    if rest == 0 {
      tmp[i] := '0';
      i := i + 1;
      assert tmp[..1] == "0" && Reverse("0") == Reverse("") + "0";
    } else {
      while rest != 0
        invariant i <= 10 && tmp[..i] + Digits(rest, base, large) == Digits(num, base, large)
      {
        assert |tmp[..i] + Digits(rest, base, large)| <= 10;
        ghost var before := tmp[..i];
        tmp[i] := DigitChar(rest % Radix(base), large);
        rest := rest / Radix(base);
        i := i + 1;
        assert tmp[..i] + Digits(rest, base, large) == before + ([tmp[i - 1]] + Digits(rest, base, large));
      }
      assert tmp[..i] == Digits(num, base, large);
    }
  }

  /** Puts the digits out, the last one kept first. */
  method PutDigits(buf: array<char>, end: nat, str: nat, tmp: array<char>, n: nat, ghost before: seq<char>,
      ghost text: string) returns (s: nat)
    requires end <= buf.Length && Shows(buf[..], before, end, str, text) && n <= tmp.Length && tmp != buf
    modifies buf
    ensures Shows(buf[..], before, end, s, text + Reverse(tmp[..n]))
  {
    s := str;
    ghost var digits := Reverse(tmp[..n]);
    var i := n;
    assert text + digits[..0] == text;
    while i > 0
      invariant i <= n && |digits| == n && Shows(buf[..], before, end, s, text + digits[..n - i])
    {
      i := i - 1;
      ReverseAt(tmp[..n], n - 1 - i);
      s := Emit(buf, end, s, tmp[i], before, text + digits[..n - 1 - i]);
      assert (text + digits[..n - 1 - i]) + [tmp[i]] == text + digits[..n - i];
    }
    assert digits[..n] == digits;
  }

  /** The sign with what stands in front of it and, not to the left, behind it. */
  method PutSign(buf: array<char>, end: nat, str: nat, sign: char, zeropad: bool, left: bool, room: int,
      ghost before: seq<char>, ghost text: string)
    returns (next: nat, size: int, ghost out: string)
    requires end <= buf.Length && Shows(buf[..], before, end, str, text)
    modifies buf
    ensures Shows(buf[..], before, end, next, text + out)
    ensures var signText := if sign == '\0' then "" else [sign];
      && out == (if left then signText else if zeropad then signText + Padding('0', room - |signText|)
          else Padding(' ', room - |signText|) + signText)
      && (left ==> size == room - |signText|) && (!left ==> size <= 0)
  {
    hide Shows;
    next, size, out := str, room, "";
    assert text + out == text;
    if !zeropad && !left {
      if sign != '\0' && size > 0 { size := size - 1; }
      out := Padding(' ', size);
      next, size := Fill(buf, end, next, ' ', size, before, text);
    }
    if sign != '\0' {
      next := Emit(buf, end, next, sign, before, text + out);
      Associative(text, out, [sign]);
      out := out + [sign];
      size := size - 1;
    }
    if !left {
      ghost var middle := Padding(if zeropad then '0' else ' ', size);
      next, size := Fill(buf, end, next, if zeropad then '0' else ' ', size, before, text + out);
      Associative(text, out, middle);
      out := out + middle;
    }
  }

  /** The digits, extended by zeros, and the blanks behind them. */
  method PutBody(buf: array<char>, end: nat, str: nat, tmp: array<char>, i: nat, least: int, precision: int, size: int,
      ghost before: seq<char>, ghost text: string)
    returns (next: nat)
    requires end <= buf.Length && Shows(buf[..], before, end, str, text) && i <= tmp.Length && tmp != buf
    modifies buf
    ensures var digits := Reverse(old(tmp[..i]));
      Shows(buf[..], before, end, next, text +
          (Padding('0', least - i) + (if precision == 0 then "" else digits) + Padding(' ', size)))
  {
    hide Shows;
    var unused;
    ghost var zeros, digits, behind := Padding('0', least - i), Reverse(tmp[..i]), Padding(' ', size);
    next, unused := Fill(buf, end, str, '0', least - i, before, text);
    if precision != 0 {
      next := PutDigits(buf, end, next, tmp, i, before, text + zeros);
    }
    ghost var shown := if precision == 0 then "" else digits;
    assert text + zeros + shown == if precision == 0 then text + zeros else text + zeros + digits;
    next, unused := Fill(buf, end, next, ' ', size, before, text + zeros + shown);
    assert text + zeros + shown + behind == text + (zeros + shown + behind);
  }

  /** print_number, behind the text written so far. */
  method PrintNumber(buf: array<char>, end: nat, str: nat, num: int, base: nat, s: int, precision: int, f: Flags,
                     ghost before: seq<char>, ghost text: string) returns (next: nat)
    requires end <= buf.Length && Shows(buf[..], before, end, str, text) && -0x8000_0000 <= num < 0x8000_0000
    modifies buf
    ensures Shows(buf[..], before, end, next, text + NumberText(num, base, s, precision, f))
  {
    hide Shows, NumberText, Numeral, Padding;
    var sign, n := '\0', num;
    if f.sign {
      if num < 0 { sign, n := '-', -num; }
      else if f.plus { sign := '+'; }
      else if f.space { sign := ' '; }
    }
    var tmp, i := Convert(n % WORD_RANGE, base, f.large);
    var least := if i > precision then i else precision;
    var size;
    ghost var out;
    next, size, out := PutSign(buf, end, str, sign, f.zeropad && !f.left, f.left, s - least, before, text);
    next := PutBody(buf, end, next, tmp, i, least, precision, size, before, text + out);
    ghost var digits := Numeral(Magnitude(num, f), base, f.large);
    ghost var body := Padding('0', least - i) + (if precision == 0 then "" else digits) + Padding(' ', size);
    assert |digits| == i;
    Associative(text, out, body);
    NumberPieces(num, base, s, precision, f, out, size);
  }

  /** The two stretches print_number writes. */
  lemma NumberPieces(num: int, base: nat, s: int, precision: int, f: Flags, out: string, size: int)
    requires var digits, sign := Numeral(Magnitude(num, f), base, f.large), SignText(num, f);
      var room := s - (if |digits| > precision then |digits| else precision);
      && out == (if f.left then sign else if f.zeropad then sign + Padding('0', room - |sign|)
          else Padding(' ', room - |sign|) + sign)
      && (f.left ==> size == room - |sign|) && (!f.left ==> size <= 0)
    ensures var digits := Numeral(Magnitude(num, f), base, f.large);
      var least := if |digits| > precision then |digits| else precision;
      NumberText(num, base, s, precision, f) ==
          out + (Padding('0', least - |digits|) + (if precision == 0 then "" else digits) + Padding(' ', size))
  {
    hide Numeral, SignText, Padding;
    var digits, sign := Numeral(Magnitude(num, f), base, f.large), SignText(num, f);
    var least := if |digits| > precision then |digits| else precision;
    var fill := FillTo(least + |sign|, s);
    SameFill(' ', fill, s - least - |sign|);
    SameFill('0', fill, s - least - |sign|);
    Arranged(sign, Padding('0', least - |digits|), if precision == 0 then "" else digits, Padding(' ', size));
  }

  lemma Arranged(sign: string, zeros: string, digits: string, behind: string)
    ensures sign + (zeros + digits) + behind == sign + (zeros + digits + behind)
    ensures behind == "" ==> zeros + digits + behind == zeros + digits
  {
  }

  lemma SameFill(c: char, a: int, b: int)
    requires a == (if b > 0 then b else 0)
    ensures Padding(c, a) == Padding(c, b)
  {
  }

  // ---------------------------------------------------------------- conversion specifications

  /** skip_atoi. */
  method SkipAtoi(fmt: string, start: nat) returns (v: nat, i: nat)
    ensures (v, i) == Atoi(fmt, start, 0)
  {
    v, i := 0, start;
    while IsDigit(CharAt(fmt, i))
      invariant Atoi(fmt, i, v) == Atoi(fmt, start, 0)
      decreases |fmt| - i
    {
      v := v * 10 + DigitValue(CharAt(fmt, i));
      i := i + 1;
    }
  }

  method ParseWidth(fmt: string, start: nat, f: Flags, args: nat -> nat, k: nat)
      returns (width: int, g: Flags, i: nat, used: nat)
    ensures (width, g, i, used) == WidthAt(fmt, start, f, args, k)
  {
    width, g, i, used := -1, f, start, k;
    if IsDigit(CharAt(fmt, i)) {
      width, i := SkipAtoi(fmt, i);
    } else if CharAt(fmt, i) == '*' {
      i := i + 1;
      width := Signed(args(used));
      used := used + 1;
      if width < 0 { width, g := -width, g.(left := true); }
    }
  }

  method ParsePrecision(fmt: string, start: nat, args: nat -> nat, k: nat) returns (precision: int, i: nat, used: nat)
    ensures (precision, i, used) == PrecisionAt(fmt, start, args, k)
  {
    precision, i, used := -1, start, k;
    if CharAt(fmt, i) == '.' {
      i := i + 1;
      if IsDigit(CharAt(fmt, i)) {
        precision, i := SkipAtoi(fmt, i);
      } else if CharAt(fmt, i) == '*' {
        i := i + 1;
        precision := Signed(args(used));
        used := used + 1;
      }
      if precision < 0 { precision := 0; }
    }
  }

  /** Flags, width, precision and qualifier behind the '%' at start. */
  method ParseField(fmt: string, start: nat, args: nat -> nat, k: nat) returns (d: Field)
    ensures d == FieldAt(fmt, start, args, k)
  {
    var i, f := start + 1, NOFLAGS;
    while WithFlag(f, CharAt(fmt, i)).Some?
      invariant FlagsAt(fmt, i, f) == FlagsAt(fmt, start + 1, NOFLAGS)
      decreases |fmt| - i
    {
      f := WithFlag(f, CharAt(fmt, i)).value;
      i := i + 1;
    }
    var width, precision, used;
    width, f, i, used := ParseWidth(fmt, i, f, args, k);
    precision, i, used := ParsePrecision(fmt, i, args, used);
    var short := CharAt(fmt, i) == 'h';
    if CharAt(fmt, i) == 'h' || CharAt(fmt, i) == 'l' { i := i + 1; }
    d := Field(f, width, precision, short, i, used);
  }

  /** while (--width > 0) emits a blank. */
  method Blanks(buf: array<char>, end: nat, str: nat, width: int, ghost before: seq<char>, ghost text: string)
      returns (s: nat, left: int)
    requires end <= buf.Length && Shows(buf[..], before, end, str, text)
    modifies buf
    ensures left <= 0 && Shows(buf[..], before, end, s, text + Padding(' ', width - 1))
  {
    s, left := Fill(buf, end, str, ' ', width - 1, before, text);
    left := left + 1;
  }

  /** Case 'c'. */
  method PutChar(buf: array<char>, end: nat, str: nat, c: char, width: int, left: bool, ghost before: seq<char>,
      ghost text: string) returns (s: nat)
    requires end <= buf.Length && Shows(buf[..], before, end, str, text)
    modifies buf
    ensures Shows(buf[..], before, end, s, text + Justified([c], width, left))
  {
    s := str;
    var w := width;
    ghost var out := text;
    if !left {
      s, w := Blanks(buf, end, s, w, before, out);
      out := out + Padding(' ', width - 1);
    }
    s := Emit(buf, end, s, c, before, out);
    s, w := Blanks(buf, end, s, w, before, out + [c]);
    assert Padding(' ', width - 1) == Padding(' ', FillTo(1, width));
    if left {
      Associative(text, [c], Padding(' ', width - 1));
    } else {
      Associative(text, Padding(' ', width - 1), [c]);
    }
  }

  /** Case 's'. */
  method PutString(buf: array<char>, end: nat, str: nat, from: string, precision: int, width: int, left: bool,
                   ghost before: seq<char>, ghost text: string) returns (s: nat)
    requires end <= buf.Length && Shows(buf[..], before, end, str, text)
    modifies buf
    ensures Shows(buf[..], before, end, s, text + Justified(Clipped(from, precision), width, left))
  {
    var len := |from|;
    if precision > 0 && len > precision { len := precision; }
    s := str;
    var w := width;
    ghost var out := text;
    if !left {
      s, w := Fill(buf, end, s, ' ', w - len, before, out);
      w := w + len;
      out := out + Padding(' ', width - len);
    }
    s := Copy(buf, end, s, from, len, before, out);
    s, w := Fill(buf, end, s, ' ', w - len, before, out + from[..len]);
    assert from[..len] == Clipped(from, precision);
    assert Padding(' ', width - len) == Padding(' ', FillTo(len, width));
    if left {
      Associative(text, from[..len], Padding(' ', width - len));
    } else {
      Associative(text, Padding(' ', width - len), from[..len]);
    }
  }

  /** The integer conversions. */
  method PutNumber(buf: array<char>, end: nat, str: nat, c: char, d: Field, word: nat, ghost before: seq<char>,
      ghost text: string) returns (s: nat)
    requires end <= buf.Length && Shows(buf[..], before, end, str, text) && IsNumber(c)
    modifies buf
    ensures var f := FlagsOf(c, d.flags);
      Shows(buf[..], before, end, s, text +
          NumberText(NumberOf(word % WORD_RANGE, f.sign, d.short), BaseOf(c), d.width, d.precision, f))
  {
    hide Shows, NumberText;
    var base, f := 10, d.flags;
    if c == 'o' { base := 8; }
    if c == 'X' { f := f.(large := true); }
    if c == 'x' || c == 'X' { base := 16; }
    if c == 'd' || c == 'i' { f := f.(sign := true); }
    s := PrintNumber(buf, end, str, NumberOf(word % WORD_RANGE, f.sign, d.short), base, d.width, d.precision, f,
        before, text);
  }

  /** The switch over the conversion character. */
  method Convert1(buf: array<char>, end: nat, str: nat, fmt: string, d: Field, args: nat -> nat, mem: nat -> string,
                  ghost before: seq<char>, ghost text: string) returns (s: nat, i: nat, k: nat)
    requires end <= buf.Length && Shows(buf[..], before, end, str, text)
    modifies buf
    ensures var (t, j, n) := Conversion(fmt, d, args, mem); Shows(buf[..], before, end, s, text + t) && i == j && k == n
  {
    hide Shows, NumberText, Justified, Clipped;
    var c := CharAt(fmt, d.at);
    i, k := d.at + 1, d.used;
    if c == 'c' {
      s := PutChar(buf, end, str, (args(k) % WORD_RANGE % 256) as char, d.width, d.flags.left, before, text);
      k := k + 1;
    } else if c == 's' {
      s := PutString(buf, end, str, CString(args(k) % WORD_RANGE, mem), d.precision, d.width, d.flags.left,
          before, text);
      k := k + 1;
    } else if c == 'p' {
      var width, f := d.width, d.flags;
      if width == -1 { width, f := ADDRESS_DIGITS, f.(zeropad := true); }
      s := PrintNumber(buf, end, str, Signed(args(k)), 16, width, d.precision, f, before, text);
      k := k + 1;
    } else if c == '%' {
      s := Emit(buf, end, str, '%', before, text);
    } else if IsNumber(c) {
      s := PutNumber(buf, end, str, c, d, args(k), before, text);
      k := k + 1;
    } else {
      s := Emit(buf, end, str, '%', before, text);
      if c != '\0' {
        s := Emit(buf, end, s, c, before, text + "%");
        assert (text + "%") + [c] == text + ['%', c];
      } else {
        i := d.at;
      }
    }
  }

  // ---------------------------------------------------------------- rt_vsnprintf

  /** The number of characters the buffer at addr may take: size, unless that would go
      beyond the end of the address space. */
  function RoomAt(addr: nat, size: nat): nat
    requires addr < WORD_RANGE
  {
    if (addr + size) % WORD_RANGE < addr then WORD_RANGE - 1 - addr else size
  }

  /** The length returned does not depend on the buffer; a buffer of at least one
      character receives as much of the text as fits in front of a final zero
      character, and keeps what lies behind both the text and its own size. */
  method Vsnprintf(buf: array<char>, addr: nat, size: nat, fmt: string, args: nat -> nat, mem: nat -> string)
      returns (len: nat)
    requires addr < WORD_RANGE && size < WORD_RANGE && RoomAt(addr, size) <= buf.Length
    modifies buf
    ensures var text, room := Render(fmt, 0, args, 0, mem), RoomAt(addr, size);
      var n := if |text| < room then |text| else room - 1;
      && len == |text|
      && (room > 0 ==> buf[..n] == text[..n] && buf[n] == '\0')
      && forall i {:trigger buf[i]} :: 0 <= i < buf.Length && (i >= room || i > n) ==> buf[i] == old(buf[i])
  {
    var end := RoomAt(addr, size);
    ghost var before, whole := buf[..], Render(fmt, 0, args, 0, mem);
    ghost var text := "";
    var str: nat, i: nat, k: nat := 0, 0, 0;
    assert buf[..] == Overlaid(before, end, "");
    while CharAt(fmt, i) != '\0'
      invariant Shows(buf[..], before, end, str, text)
      invariant text + Render(fmt, i, args, k, mem) == whole
      decreases |fmt| - i
    {
      if CharAt(fmt, i) != '%' {
        str := Emit(buf, end, str, CharAt(fmt, i), before, text);
        Associative(text, [CharAt(fmt, i)], Render(fmt, i + 1, args, k, mem));
        text := text + [CharAt(fmt, i)];
        i := i + 1;
      } else {
        FieldAdvances(fmt, i, args, k);
        var d := ParseField(fmt, i, args, k);
        ghost var t := Conversion(fmt, d, args, mem).0;
        str, i, k := Convert1(buf, end, str, fmt, d, args, mem, before, text);
        Associative(text, t, Render(fmt, i, args, k, mem));
        text := text + t;
      }
    }
    assert text == whole;
    if end > 0 {
      if str < end { buf[str] := '\0'; } else { buf[end - 1] := '\0'; }
    }
    len := str;
  }
}
