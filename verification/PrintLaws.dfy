/** The directives of the kernel's formatter from their text to what they print: which base,
    which letters, how many bits, and how the field is filled.
 */
module PrintLaws {
  import opened Basics
  import opened Numerals
  import opened KernelPrint

  // ---------------------------------------------------------------------------
  // Numbers.

  /** The alphabet of a base and a letter case. */
  function Alphabet(base: nat, upper: bool): (a: string)
    requires 2 <= base <= 16
    ensures |a| == base
  {
    if upper then UPPER_HEX[..base] else HEX[..base]
  }

  lemma Alphabets()
    ensures Alphabet(10, false) == DECIMAL && Alphabet(16, false) == HEX && Alphabet(16, true) == UPPER_HEX
  {
  }

  /** The digits printed are the shortest numeral in that alphabet. */
  lemma {:induction false} DigitsShortest(val: nat, base: nat, upper: bool)
    requires 2 <= base <= 16
    ensures Shortest(Alphabet(base, upper), Digits(val, base, upper), val)
    decreases val
  {
    hide Denotes, Alphabet, DigitChar;
    var a := Alphabet(base, upper);
    DigitLetter(0, base, upper);
    ZeroLetter(base, upper);
    if val < base {
      DigitLetter(val, base, upper);
      OneDigit(a, val);
    } else {
      DivSmaller(val, base);
      DigitLetter(val % base, base, upper);
      DigitsShortest(val / base, base, upper);
      OneMoreDigit(a, Digits(val / base, base, upper), val);
      PositiveQuotient(val, base);
      NonZeroStart(val / base, base, upper);
    }
  }

  lemma PositiveQuotient(val: nat, base: nat)
    requires 2 <= base <= val
    ensures val / base > 0
  {
  }

  lemma ZeroLetter(base: nat, upper: bool)
    requires 2 <= base <= 16
    ensures Alphabet(base, upper)[0] == '0'
  {
  }

  lemma DigitLetter(d: nat, base: nat, upper: bool)
    requires d < base && 2 <= base <= 16
    ensures DigitChar(d, upper) == Alphabet(base, upper)[d]
  {
  }

  lemma {:induction false} NonZeroStart(val: nat, base: nat, upper: bool)
    requires 2 <= base <= 16 && val > 0
    ensures Digits(val, base, upper)[0] != '0'
    decreases val
  {
    if val >= base {
      DivSmaller(val, base);
      PositiveQuotient(val, base);
      NonZeroStart(val / base, base, upper);
    }
  }

  /** An argument of 32 or 64 bits: the value printed fits and has the argument's low bits. */
  lemma ArgumentBits(v: int, long: bool)
    ensures var m := if long then TWO64 else TWO32;
            && 0 <= AsUnsigned(v, long) < m && (AsUnsigned(v, long) - v) % m == 0
            && -m <= 2 * AsSigned(v, long) < m && (AsSigned(v, long) - v) % m == 0
  {
  }

  /** `text` is `s` filled on the left with `pad` to `width`, never cut. */
  ghost predicate Field(text: string, s: string, width: nat, pad: char) {
    && |text| == (if |s| < width then width else |s|)
    && text[|text| - |s|..] == s
    && forall i :: 0 <= i < |text| - |s| ==> text[i] == pad
  }

  lemma FieldFilled(s: string, width: nat, pad: char)
    ensures Field(Padded(s, width, pad), s, width, pad)
  {
  }

  // ---------------------------------------------------------------------------
  // Directives.

  /** The width as written; none is zero. */
  function WidthText(width: nat): string {
    if width == 0 then "" else Digits(width, 10, false)
  }

  /** A directive after its percent sign. */
  function DirectiveSpelled(zero: bool, width: nat, length: string, conv: char): string {
    (if zero then "0" else "") + WidthText(width) + length + [conv]
  }

  lemma {:induction false} WidthRead(before: string, width: nat, rest: string)
    requires rest == [] || !('0' <= rest[0] <= '9')
    ensures ReadWidth(before + WidthText(width) + rest, |before|, 0) == (width, |before + WidthText(width)|)
  {
    if width == 0 {
      assert before + "" + rest == before + rest;
    } else {
      DigitsAccumulated(before, width, rest);
      var fmt := before + Digits(width, 10, false) + rest;
      var p := |before + Digits(width, 10, false)|;
      assert p < |fmt| ==> fmt[p] == rest[0];
    }
  }

  lemma {:induction false} DigitsAccumulated(before: string, v: nat, rest: string)
    ensures var fmt := before + Digits(v, 10, false) + rest;
            ReadWidth(fmt, |before|, 0) == ReadWidth(fmt, |before + Digits(v, 10, false)|, v)
    decreases v
  {
    var fmt := before + Digits(v, 10, false) + rest;
    var last := [DigitChar(v % 10, false)];
    if v < 10 {
      assert fmt[|before|] == DigitChar(v, false);
    } else {
      DigitsAccumulated(before, v / 10, last + rest);
      assert fmt == before + Digits(v / 10, 10, false) + (last + rest);
      assert fmt[|before + Digits(v / 10, 10, false)|] == DigitChar(v % 10, false);
    }
  }

  /** A directive reads back as it was written: the zero flag, the width, the length and the
      conversion, up to the next character of the format. */
  lemma {:induction false} DirectiveReadsBack(before: string, zero: bool, width: nat, length: string, conv: char, rest: string)
    requires length == "" || length == "l" || length == "ll" || length == "z"
    requires !('0' <= conv <= '9') && conv != 'l' && conv != 'z'
    ensures var fmt := before + DirectiveSpelled(zero, width, length, conv) + rest;
            ParseDirective(fmt, |before|) ==
              Directive(if zero then '0' else ' ', width, length != "", conv, |fmt| - |rest|)
  {
    hide ReadWidth, Digits, WidthText;
    var fmt := before + DirectiveSpelled(zero, width, length, conv) + rest;
    var front := before + if zero then "0" else "";
    var tail := length + [conv] + rest;
    assert fmt == front + WidthText(width) + tail;
    WidthRead(front, width, tail);
    FlagRead(before, zero, width, tail);
    TailRead(front + WidthText(width), length, conv, rest);
  }

  /** The first character is the zero flag exactly when it was written. */
  lemma FlagRead(before: string, zero: bool, width: nat, tail: string)
    requires tail != [] && !('0' <= tail[0] <= '9')
    ensures var fmt := before + (if zero then "0" else "") + WidthText(width) + tail;
            (At(fmt, |before|) == '0') == zero
  {
    hide Digits;
    if !zero && width > 0 {
      NonZeroStart(width, 10, false);
    }
  }

  lemma TailRead(front: string, length: string, conv: char, rest: string)
    requires length == "" || length == "l" || length == "ll" || length == "z"
    ensures var fmt, p := front + (length + [conv] + rest), |front|;
            && At(fmt, p + |length|) == conv
            && (length != "" ==> At(fmt, p) == length[0]) && (length == "ll" ==> At(fmt, p + 1) == 'l')
  {
    var fmt := front + (length + [conv] + rest);
    assert forall i :: 0 <= i < |length| ==> fmt[|front| + i] == length[i];
  }

  /** %u, %x and %X print the low 32 bits of their argument, or 64 with a length, as the
      shortest numeral in base 10, in base 16 with small letters, or with capital ones. */
  lemma PrintsUnsigned(d: Directive, v: int) returns (t: string, m: nat)
    requires d.conv == 'u' || d.conv == 'x' || d.conv == 'X'
    ensures var bits := if d.long then TWO64 else TWO32; m < bits && (m - v) % bits == 0
    ensures Shortest(if d.conv == 'u' then DECIMAL else if d.conv == 'x' then HEX else UPPER_HEX, t, m)
    ensures Field(DirectiveText(d, [Number(v)]), t, d.width, d.pad)
  {
    hide Denotes, Digits, Padded, Field, Alphabet;
    Alphabets();
    m := AsUnsigned(v, d.long);
    var base, upper := if d.conv == 'u' then 10 else 16, d.conv == 'X';
    t := Digits(m, base, upper);
    ArgumentBits(v, d.long);
    DigitsShortest(m, base, upper);
    FieldFilled(t, d.width, d.pad);
  }

  /** %d and %i print the same bits as a signed number; a minus sign takes one place of the
      width and stands before the padding. */
  lemma PrintsSigned(d: Directive, v: int) returns (t: string, m: int)
    requires d.conv == 'd' || d.conv == 'i'
    ensures var bits := if d.long then TWO64 else TWO32; -bits <= 2 * m < bits && (m - v) % bits == 0
    ensures var text := DirectiveText(d, [Number(v)]);
            if m < 0 then
              && Shortest(DECIMAL, t, -m) && text != [] && text[0] == '-'
              && Field(text[1..], t, if d.width > 0 then d.width - 1 else 0, d.pad)
            else Shortest(DECIMAL, t, m) && Field(text, t, d.width, d.pad)
  {
    hide Denotes, Digits, Padded, Field, Alphabet;
    Alphabets();
    m := AsSigned(v, d.long);
    ArgumentBits(v, d.long);
    var size := if m < 0 then -m else m;
    t := Digits(size, 10, false);
    DigitsShortest(size, 10, false);
    FieldFilled(t, d.width, d.pad);
    FieldFilled(t, if d.width > 0 then d.width - 1 else 0, d.pad);
    var text := DirectiveText(d, [Number(v)]);
    if m < 0 {
      assert text[1..] == Padded(t, if d.width > 0 then d.width - 1 else d.width, d.pad);
    }
  }

  lemma {:induction false} ZeroNumeral(k: nat)
    requires k > 0
    ensures Denotes(HEX, seq(k, _ => '0'), 0)
  {
    if k > 1 {
      ZeroNumeral(k - 1);
      assert seq(k, _ => '0')[..k - 1] == seq(k - 1, _ => '0');
    }
  }

  lemma {:induction false} ZerosInFront(t: string, v: nat, k: nat)
    requires Denotes(HEX, t, v)
    ensures Denotes(HEX, seq(k, _ => '0') + t, v)
    decreases |t|
  {
    var zeros := seq(k, _ => '0');
    if k == 0 {
      assert zeros + t == t;
    } else {
      var n := |t| - 1;
      assert (zeros + t)[..|zeros + t| - 1] == zeros + t[..n];
      if n == 0 {
        ZeroNumeral(k);
        assert zeros + [] == zeros;
      } else {
        ZerosInFront(t[..n], v / 16, k);
      }
    }
  }

  /** %p prints all 64 bits in sixteen places of base 16 after 0x. */
  lemma PrintsPointer(d: Directive, v: int) returns (m: nat)
    requires d.conv == 'p'
    ensures m < TWO64 && (m - v) % TWO64 == 0
    ensures var text := DirectiveText(d, [Number(v)]);
            |text| == 18 && text[..2] == "0x" && Denotes(HEX, text[2..], m)
  {
    hide Denotes, Digits, Alphabet;
    Alphabets();
    m := AsUnsigned(v, true);
    ArgumentBits(v, true);
    var t := Digits(m, 16, false);
    DigitsShortest(m, 16, false);
    SixteenPlaces(m);
    ZerosInFront(t, m, 16 - |t|);
    var text := DirectiveText(d, [Number(v)]);
    assert text[2..] == seq(16 - |t|, _ => '0') + t;
  }

  lemma SixteenPlaces(m: nat)
    requires m < TWO64
    ensures |Digits(m, 16, false)| <= 16
  {
    TopPlace(m);
  }

  /** %c prints the low byte, %s its string or (null), and any other conversion itself. */
  lemma PrintsText(d: Directive, v: int, s: Option<string>)
    ensures d.conv == 'c' ==> DirectiveText(d, [Number(v)]) == [(v % 256) as char]
    ensures d.conv == 's' ==> DirectiveText(d, [Text(s)]) == match s case Some(text) => text case None => "(null)"
    ensures d.conv == '%' ==> DirectiveText(d, []) == "%"
  {
  }

  // ---------------------------------------------------------------------------
  // Formats.

  /** Text without percent signs prints as it is, and uses no arguments. */
  lemma {:induction false} LiteralPrinted(before: string, text: string, args: seq<Arg>)
    requires '%' !in text
    ensures var fmt := before + text;
            WellFormed(fmt, |before|, args) && Output(fmt, |before|, args) == text
    decreases |text|
  {
    var fmt := before + text;
    if text != [] {
      assert fmt == before + [text[0]] + text[1..];
      LiteralPrinted(before + [text[0]], text[1..], args);
      assert fmt[|before|] == text[0];
    }
  }
}
