/** The kernel's bounded formatter: numbers into a small buffer, and the formatting loop that
    must neither run past its buffer nor lose its terminator.

    A C string is modelled by its characters before the terminating NUL.
 */
module KernelPrint {
  import opened Basics

  const TMP_SIZE: nat := 65

  /** The conversion of a size_t to int. */
  function ToInt(n: nat): int {
    if n % TWO32 > INT_MAX then n % TWO32 - TWO32 else n % TWO32
  }

  lemma FitsInt(n: nat)
    ensures ToInt(n) == n <==> n <= INT_MAX
  {
  }

  /** The low 64 or 32 bits of an argument, read as unsigned. */
  function AsUnsigned(v: int, long: bool): nat {
    if long then v % TWO64 else v % TWO32
  }

  /** The same bits read as signed. */
  function AsSigned(v: int, long: bool): int {
    var m := if long then TWO64 else TWO32;
    var u := AsUnsigned(v, long);
    if u >= m / 2 then u - m else u
  }

  // ---------------------------------------------------------------------------
  // Numbers.

  function DigitChar(d: nat, upper: bool): char
    requires d < 16
  {
    if d < 10 then '0' + d as char
    else if upper then 'A' + (d - 10) as char
    else 'a' + (d - 10) as char
  }

  function DigitOf(c: char): int {
    if '0' <= c <= '9' then (c - '0') as int
    else if 'a' <= c <= 'f' then (c - 'a') as int + 10
    else if 'A' <= c <= 'F' then (c - 'A') as int + 10
    else -1
  }

  /** The text of a number, most significant digit first. */
  function Digits(val: nat, base: nat, upper: bool): (s: string)
    requires 2 <= base <= 16
    ensures s != []
  {
    if val < base then [DigitChar(val, upper)]
    else Digits(val / base, base, upper) + [DigitChar(val % base, upper)]
  }

  function ReadNumber(s: string, base: nat): int {
    if s == [] then 0 else ReadNumber(s[..|s| - 1], base) * base + DigitOf(s[|s| - 1])
  }

  /** The digits written read back as the number. */
  lemma {:induction false} DigitsReadBack(val: nat, base: nat, upper: bool)
    requires 2 <= base <= 16
    ensures ReadNumber(Digits(val, base, upper), base) == val
    decreases val
  {
    var s := Digits(val, base, upper);
    if val < base {
      assert s[..0] == [];
      assert ReadNumber([], base) * base == 0;
    } else {
      DivSmaller(val, base);
      DigitsReadBack(val / base, base, upper);
      assert s[..|s| - 1] == Digits(val / base, base, upper);
    }
  }

  lemma DivSmaller(val: nat, base: nat)
    requires 2 <= base <= val
    ensures val / base < val && val / base * base + val % base == val
    ensures val / base <= val / 2
  {
    var q := val / base;
    assert q * base <= val;
    assert q * 2 <= q * base;
  }

  /** A 64-bit number has at most 64 digits, so the 65-character buffer holds them. */
  lemma {:induction false} DigitsFit(val: nat, base: nat, upper: bool, k: nat)
    requires 2 <= base <= 16 && k > 0 && val < Pow2(k)
    ensures |Digits(val, base, upper)| <= k
    decreases val
  {
    if val >= base {
      DivSmaller(val, base);
      assert Pow2(1) == 2;
      DigitsFit(val / base, base, upper, k - 1);
    }
  }

  function Padding(n: int, pad: char): string {
    if n <= 0 then [] else seq(n, _ => pad)
  }

  function Padded(s: string, width: int, pad: char): string {
    Padding(width - |s|, pad) + s
  }

  /** How much of `n` characters goes into a buffer of `size` with its terminator. */
  function Room(n: nat, size: nat): nat {
    Min(n, if ToInt(size) > 1 then ToInt(size) - 1 else 0)
  }

  /** The buffer from `off` starts with the first `w` characters of `text`; everything outside
      its `size` characters is as it was. */
  ghost predicate Filled(before: seq<char>, after: seq<char>, off: nat, size: nat, text: string, w: nat) {
    && |after| == |before| && off + size <= |after| && w <= size && w <= |text|
    && (forall k :: 0 <= k < w ==> after[off + k] == text[k])
    && (forall k :: 0 <= k < |after| && !(off <= k < off + size) ==> after[k] == before[k])
  }

  /** One more character of the text. */
  method PutChar(buf: array<char>, off: nat, size: nat, c: char, ghost before: seq<char>, ghost text: string, w: nat)
    requires off + size <= buf.Length && w < size && w < |text| && c == text[w]
    requires Filled(before, buf[..], off, size, text, w)
    modifies buf
    ensures Filled(before, buf[..], off, size, text, w + 1)
  {
    buf[off + w] := c;
  }

  /** The padding loop. */
  method PutPadding(buf: array<char>, off: nat, size: nat, padLen: nat, pad: char, ghost text: string) returns (w: nat)
    requires off + size <= buf.Length && padLen <= |text| && forall k :: 0 <= k < padLen ==> text[k] == pad
    modifies buf
    ensures w == Room(padLen, size) && Filled(old(buf[..]), buf[..], off, size, text, w)
  {
    hide Filled;
    ghost var before := buf[..];
    var limit := ToInt(size);
    w := 0;
    var i := 0;
    assert Filled(before, buf[..], off, size, text, 0) by { NothingFilled(before, off, size, text); }
    while i < padLen && w + 1 < limit
      invariant 0 <= i <= padLen && w == i && (w == 0 || w < limit) && limit <= size
      invariant Filled(before, buf[..], off, size, text, w)
    {
      PutChar(buf, off, size, pad, before, text, w);
      w := w + 1;
      i := i + 1;
    }
  }

  /** The digit loop, from the most significant down. */
  method PutDigits(buf: array<char>, off: nat, size: nat, tmp: array<char>, pos: nat, w0: nat, ghost before: seq<char>, ghost text: string)
    returns (w: nat)
    requires off + size <= buf.Length && pos <= tmp.Length && buf != tmp && pos <= |text|
    requires forall k :: 0 <= k < pos ==> tmp[k] == text[|text| - 1 - k]
    requires w0 == Room(|text| - pos, size) && Filled(before, buf[..], off, size, text, w0)
    modifies buf
    ensures w == Room(|text|, size) && Filled(before, buf[..], off, size, text, w)
  {
    hide Filled;
    var limit := ToInt(size);
    w := w0;
    var j := pos - 1;
    while j >= 0 && w + 1 < limit
      invariant -1 <= j < pos && limit <= size
      invariant w == Room(|text| - 1 - j, size)
      invariant forall k :: 0 <= k < pos ==> tmp[k] == text[|text| - 1 - k]
      invariant Filled(before, buf[..], off, size, text, w)
    {
      PutChar(buf, off, size, tmp[j], before, text, w);
      w := w + 1;
      j := j - 1;
    }
  }

  lemma NothingFilled(before: seq<char>, off: nat, size: nat, text: string)
    requires off + size <= |before|
    ensures Filled(before, before, off, size, text, 0)
  {
  }

  /** format_uint: as much of the padded number as fits, terminated, and nothing outside. */
  method FormatUint(buf: array<char>, off: nat, size: nat, val: nat, base: nat, upper: bool, width: int, pad: char)
    returns (written: nat)
    requires 1 <= size && off + size <= buf.Length && 2 <= base <= 16 && val < TWO64
    modifies buf
    ensures var text := Padded(Digits(val, base, upper), width, pad);
            written == Room(|text|, size) < size && Filled(old(buf[..]), buf[..], off, size, text, written)
    ensures buf[off + written] == '\0'
  {
    hide Digits;
    var tmp, pos := ReverseDigits(val, base, upper);
    ghost var digits := Digits(val, base, upper);
    ghost var text := Padded(digits, width, pad);
    ghost var before := buf[..];
    var padLen := width - pos;
    if padLen < 0 {
      padLen := 0;
    }
    assert forall k :: 0 <= k < pos ==> tmp[k] == text[|text| - 1 - k];
    written := PutPadding(buf, off, size, padLen, pad, text);
    written := PutDigits(buf, off, size, tmp, pos, written, before, text);
    buf[off + written] := '\0';
  }

  /** The digits least significant first, within the 65 characters of the buffer. */
  method ReverseDigits(val0: nat, base: nat, upper: bool) returns (tmp: array<char>, pos: nat)
    requires 2 <= base <= 16 && val0 < TWO64
    ensures fresh(tmp) && pos <= 64 < tmp.Length
    ensures pos == |Digits(val0, base, upper)|
    ensures forall k :: 0 <= k < pos ==> tmp[k] == Digits(val0, base, upper)[pos - 1 - k]
  {
    hide Digits, Pow2;
    tmp := new char[TMP_SIZE];
    ghost var all := Digits(val0, base, upper);
    assert |all| <= 64 by {
      Pow2Of64();
      DigitsFit(val0, base, upper, 64);
    }
    var val := val0;
    pos := 0;
    if val == 0 {
      DigitsStep(0, base, upper);
      tmp[0] := '0';
      return tmp, 1;
    }
    while val > 0
      invariant 0 <= pos <= |all|
      invariant if val > 0 then all[..|all| - pos] == Digits(val, base, upper) else pos == |all|
      invariant forall k :: 0 <= k < pos ==> tmp[k] == all[|all| - 1 - k]
      decreases val
    {
      DigitsStep(val, base, upper);
      ghost var rest := all[..|all| - pos];
      assert rest[|rest| - 1] == all[|all| - 1 - pos];
      tmp[pos] := DigitChar(val % base, upper);
      pos := pos + 1;
      assert all[..|all| - pos] == rest[..|rest| - 1];
      val := val / base;
    }
  }

  /** The last digit and the digits before it. */
  lemma {:induction false} DigitsStep(val: nat, base: nat, upper: bool)
    requires 2 <= base <= 16
    ensures var s := Digits(val, base, upper);
            && s[|s| - 1] == DigitChar(val % base, upper)
            && s[..|s| - 1] == (if val < base then [] else Digits(val / base, base, upper))
            && (val >= base ==> 0 < val / base < val)
            && (val < base ==> |s| == 1 && val / base == 0)
  {
    hide DigitChar;
    if val >= base {
      DivSmaller(val, base);
      QuotientPositive(val, base, val / base, val % base);
    } else {
      SmallQuotient(val, base);
    }
  }

  lemma QuotientPositive(val: nat, base: nat, q: nat, m: nat)
    requires base <= val && q * base + m == val && m < base
    ensures q >= 1
  {
  }

  lemma SmallQuotient(val: nat, base: nat)
    requires val < base
    ensures val / base == 0 && val % base == val
  {
  }

  // ---------------------------------------------------------------------------
  // Signed numbers.

  /** A sign takes one place of the width and stands before the padding. */
  function IntText(val: int, width: int, pad: char): string {
    if val < 0 then "-" + Padded(Digits(-val, 10, false), if width > 0 then width - 1 else width, pad)
    else Padded(Digits(val, 10, false), width, pad)
  }

  /** format_int; the negation is exact because the magnitude is read as unsigned. */
  method FormatInt(buf: array<char>, off: nat, size: nat, val: int, width: int, pad: char) returns (written: nat)
    requires 1 <= size && off + size <= buf.Length && -0x8000_0000_0000_0000 <= val <= 0x7FFF_FFFF_FFFF_FFFF
    modifies buf
    ensures var text := IntText(val, width, pad);
            written == Room(|text|, size) < size && Filled(old(buf[..]), buf[..], off, size, text, written)
    ensures buf[off + written] == '\0'
  {
    hide Digits, Padded, Room, ToInt, Filled;
    if val >= 0 {
      written := FormatUint(buf, off, size, val, 10, false, width, pad);
    } else {
      written := FormatNegative(buf, off, size, -val, if width > 0 then width - 1 else width, pad);
    }
  }

  /** The sign, if there is room for it, and the magnitude. */
  method FormatNegative(buf: array<char>, off: nat, size: nat, m: nat, width: int, pad: char) returns (written: nat)
    requires 1 <= size && off + size <= buf.Length && m < TWO64
    modifies buf
    ensures var text := "-" + Padded(Digits(m, 10, false), width, pad);
            written == Room(|text|, size) < size && Filled(old(buf[..]), buf[..], off, size, text, written)
    ensures buf[off + written] == '\0'
  {
    hide *;
    ghost var digits := Padded(Digits(m, 10, false), width, pad);
    assert |"-" + digits| == |digits| + 1;
    SignRoom(|digits|, size);
    if 1 < ToInt(size) {
      ghost var before := buf[..];
      buf[off] := '-';
      ghost var mid := buf[..];
      var rest := FormatUint(buf, off + 1, size - 1, m, 10, false, width, pad);
      SignFilled(before, mid, buf[..], off, size, digits, rest);
      written := rest + 1;
    } else {
      written := FormatUint(buf, off, size, m, 10, false, width, pad);
      NoSignFilled(old(buf[..]), buf[..], off, size, digits);
    }
  }

  lemma SignFilled(before: seq<char>, mid: seq<char>, after: seq<char>, off: nat, size: nat, digits: string, w: nat)
    requires off < |before| && mid == before[off := '-'] && size >= 1 && Filled(mid, after, off + 1, size - 1, digits, w)
    ensures Filled(before, after, off, size, "-" + digits, w + 1)
  {
    assert after[off] == mid[off];
    assert forall k :: 0 < k < w + 1 ==> ("-" + digits)[k] == digits[k - 1] && after[off + k] == after[off + 1 + (k - 1)];
  }

  lemma NoSignFilled(before: seq<char>, after: seq<char>, off: nat, size: nat, digits: string)
    requires Filled(before, after, off, size, digits, 0)
    ensures Filled(before, after, off, size, "-" + digits, 0)
  {
  }

  /** The sign and then what fits after it are what fits of both. */
  lemma SignRoom(n: nat, size: nat)
    requires size >= 1
    ensures 1 < ToInt(size) ==> size > 1 && 1 + Room(n, size - 1) == Room(n + 1, size) < size
    ensures ToInt(size) <= 1 ==> Room(n, size) == Room(n + 1, size) == 0
  {
    if 1 < ToInt(size) {
      assert size % TWO32 >= 2;
      assert (size - 1) % TWO32 == size % TWO32 - 1;
    }
  }

  // ---------------------------------------------------------------------------
  // Formats.

  datatype Arg = Number(v: int) | Text(s: Option<string>)

  datatype Directive = Directive(pad: char, width: nat, long: bool, conv: char, next: nat)

  function ReadWidth(fmt: string, p: nat, width: nat): (nat, nat)
    decreases |fmt| - p
  {
    if p < |fmt| && '0' <= fmt[p] <= '9' then ReadWidth(fmt, p + 1, width * 10 + (fmt[p] - '0') as nat)
    else (width, p)
  }

  /** The directive whose text starts at `p`, just after the percent sign. */
  function ParseDirective(fmt: string, p: nat): Directive {
    var zero := At(fmt, p) == '0';
    var (width, p2) := ReadWidth(fmt, if zero then p + 1 else p, 0);
    var p3 := if At(fmt, p2) == 'l' then (if At(fmt, p2 + 1) == 'l' then p2 + 2 else p2 + 1)
              else if At(fmt, p2) == 'z' then p2 + 1 else p2;
    Directive(if zero then '0' else ' ', width, p3 != p2, At(fmt, p3), p3 + 1)
  }

  /** The flag, width and length part of a directive as kvsnprintf scans it. */
  method ScanDirective(fmt: string, p0: nat) returns (d: Directive)
    ensures d == ParseDirective(fmt, p0)
  {
    var p := p0;
    var pad := ' ';
    if At(fmt, p) == '0' {
      pad := '0';
      p := p + 1;
    }
    var start := p;
    var width: nat := 0;
    while '0' <= At(fmt, p) <= '9'
      invariant start <= p && ReadWidth(fmt, p, width) == ReadWidth(fmt, start, 0)
      decreases |fmt| - p
    {
      width := width * 10 + (At(fmt, p) - '0') as nat;
      p := p + 1;
    }
    var long := false;
    if At(fmt, p) == 'l' {
      long := true;
      p := p + 1;
      if At(fmt, p) == 'l' {
        p := p + 1;
      }
    } else if At(fmt, p) == 'z' {
      long := true;
      p := p + 1;
    }
    d := Directive(pad, width, long, At(fmt, p), p + 1);
  }

  predicate TakesNumber(conv: char) {
    conv == 'c' || conv == 'd' || conv == 'i' || conv == 'u' || conv == 'x' || conv == 'X' || conv == 'p'
  }

  predicate Takes(conv: char) {
    conv == 's' || TakesNumber(conv)
  }

  /** The argument list has an argument of the right kind for the directive. */
  predicate Supplies(conv: char, args: seq<Arg>) {
    Takes(conv) ==> args != [] && args[0].Number? == TakesNumber(conv)
  }

  function After(conv: char, args: seq<Arg>): seq<Arg>
    requires Supplies(conv, args)
  {
    if Takes(conv) then args[1..] else args
  }

  /** What a directive prints when there is room. */
  function DirectiveText(d: Directive, args: seq<Arg>): string
    requires Supplies(d.conv, args)
  {
    if d.conv == 'c' then [(args[0].v % 256) as char]
    else if d.conv == 's' then (if args[0].s.Some? then args[0].s.value else "(null)")
    else if d.conv == 'd' || d.conv == 'i' then IntText(AsSigned(args[0].v, d.long), d.width, d.pad)
    else if d.conv == 'u' then Padded(Digits(AsUnsigned(args[0].v, d.long), 10, false), d.width, d.pad)
    else if d.conv == 'x' then Padded(Digits(AsUnsigned(args[0].v, d.long), 16, false), d.width, d.pad)
    else if d.conv == 'X' then Padded(Digits(AsUnsigned(args[0].v, d.long), 16, true), d.width, d.pad)
    else if d.conv == 'p' then "0x" + Padded(Digits(AsUnsigned(args[0].v, true), 16, false), 16, '0')
    else [d.conv]
  }

  /** Every directive is complete and supplied. */
  ghost predicate WellFormed(fmt: string, p: nat, args: seq<Arg>)
    decreases |fmt| - p
  {
    if p >= |fmt| then true
    else if fmt[p] != '%' then WellFormed(fmt, p + 1, args)
    else
      var d := ParseDirective(fmt, p + 1);
      p + 1 < d.next <= |fmt| && Supplies(d.conv, args) && WellFormed(fmt, d.next, After(d.conv, args))
  }

  /** The whole text of a format. */
  ghost function Output(fmt: string, p: nat, args: seq<Arg>): string
    requires WellFormed(fmt, p, args)
    decreases |fmt| - p
  {
    if p >= |fmt| then ""
    else if fmt[p] != '%' then [fmt[p]] + Output(fmt, p + 1, args)
    else
      var d := ParseDirective(fmt, p + 1);
      DirectiveText(d, args) + Output(fmt, d.next, After(d.conv, args))
  }

  /** The digits of a pointer, sixteen places wide. */
  function PointerDigits(v: nat): string {
    Padded(Digits(v, 16, false), 16, '0')
  }

  /** The prefix of a pointer is dropped, not cut, when it does not fit. */
  function PointerPrefix(room: nat): string {
    if room > 2 then "0x" else ""
  }

  /** What a directive writes when `room` characters are left, the terminator's included.
      Numbers are cut by a size converted to int. */
  function Piece(d: Directive, args: seq<Arg>, room: nat): string
    requires Supplies(d.conv, args) && room >= 1
  {
    if d.conv == 'p' then
      var prefix, digits := PointerPrefix(room), PointerDigits(AsUnsigned(args[0].v, true));
      prefix + digits[..Room(|digits|, room - |prefix|)]
    else
      var text := DirectiveText(d, args);
      text[..if IsNumeric(d.conv) then Room(|text|, room) else Min(|text|, room - 1)]
  }

  predicate IsNumeric(conv: char) {
    conv == 'd' || conv == 'i' || conv == 'u' || conv == 'x' || conv == 'X'
  }

  /** All that is written from position `p` of the format on, with `out` characters of `size`
      used. */
  ghost function Printed(fmt: string, p: nat, args: seq<Arg>, out: nat, size: nat): string
    requires WellFormed(fmt, p, args)
    decreases |fmt| - p
  {
    if p >= |fmt| || out + 1 >= size then ""
    else if fmt[p] != '%' then [fmt[p]] + Printed(fmt, p + 1, args, out + 1, size)
    else
      var d := ParseDirective(fmt, p + 1);
      var piece := Piece(d, args, size - out);
      piece + Printed(fmt, d.next, After(d.conv, args), out + |piece|, size)
  }

  const TOP_DIGIT := 0x1000_0000_0000_0000

  /** A pointer with a nonzero top digit and room for one character. */
  predicate AtEdge(d: Directive, args: seq<Arg>, room: nat)
    requires Supplies(d.conv, args)
  {
    d.conv == 'p' && room == 2 && AsUnsigned(args[0].v, true) >= TOP_DIGIT
  }

  /** Some %p is reached with room for one character only, and its pointer has a nonzero top
      digit. */
  ghost predicate PointerAtEdge(fmt: string, p: nat, args: seq<Arg>, out: nat, size: nat)
    requires WellFormed(fmt, p, args)
    decreases |fmt| - p
  {
    if p >= |fmt| || out + 1 >= size then false
    else if fmt[p] != '%' then PointerAtEdge(fmt, p + 1, args, out + 1, size)
    else
      var d := ParseDirective(fmt, p + 1);
      || AtEdge(d, args, size - out)
      || PointerAtEdge(fmt, d.next, After(d.conv, args), out + |DirectiveText(d, args)|, size)
  }

  /** A piece of output went into the buffer after `out`: nothing before it or beyond the
      buffer's `size` was touched, and room for the terminator is left. */
  ghost predicate Appended(before: seq<char>, after: seq<char>, size: nat, out: nat, out': nat, piece: string) {
    && |after| == |before| && out <= out' < size <= |after|
    && (forall k :: 0 <= k < |after| && !(out <= k < size) ==> after[k] == before[k])
    && after[out..out'] == piece
  }

  lemma FilledAppends(before: seq<char>, after: seq<char>, size: nat, out: nat, text: string, w: nat)
    requires out < size && Filled(before, after, out, size - out, text, w) && w < size - out
    ensures w <= |text| && Appended(before, after, size, out, out + w, text[..w])
  {
    assert after[out..out + w] == text[..w];
  }

  /** Characters copied while there is room. */
  method PutText(buf: array<char>, size: nat, out0: nat, s: string) returns (out: nat)
    requires out0 < size <= buf.Length
    modifies buf
    ensures Appended(old(buf[..]), buf[..], size, out0, out, s[..Min(|s|, size - out0 - 1)])
  {
    ghost var before := buf[..];
    out := out0;
    var i := 0;
    while i < |s| && out + 1 < size
      invariant 0 <= i <= |s| && out == out0 + i && out < size
      invariant forall k :: 0 <= k < i ==> buf[out0 + k] == s[k]
      invariant forall k :: 0 <= k < buf.Length && !(out0 <= k < size) ==> buf[k] == before[k]
    {
      buf[out] := s[i];
      out := out + 1;
      i := i + 1;
    }
    assert buf[out0..out] == s[..i];
  }

  /** One directive of kvsnprintf. */
  method PutDirective(buf: array<char>, size: nat, out0: nat, d: Directive, args: seq<Arg>) returns (out: nat)
    requires out0 + 1 < size <= buf.Length && Supplies(d.conv, args)
    modifies buf
    ensures Appended(old(buf[..]), buf[..], size, out0, out, Piece(d, args, size - out0))
  {
    hide Digits, Padded, Filled, Room, Appended, PointerPrefix;
    if d.conv == 'd' || d.conv == 'i' {
      var v := AsSigned(args[0].v, d.long);
      ghost var before := buf[..];
      var w := FormatInt(buf, out0, size - out0, v, d.width, d.pad);
      FilledAppends(before, buf[..], size, out0, IntText(v, d.width, d.pad), w);
      out := out0 + w;
    } else if d.conv == 'u' || d.conv == 'x' || d.conv == 'X' {
      var v := AsUnsigned(args[0].v, d.long);
      var base := if d.conv == 'u' then 10 else 16;
      ghost var before := buf[..];
      var w := FormatUint(buf, out0, size - out0, v, base, d.conv == 'X', d.width, d.pad);
      FilledAppends(before, buf[..], size, out0, Padded(Digits(v, base, d.conv == 'X'), d.width, d.pad), w);
      out := out0 + w;
    } else if d.conv == 'p' {
      out := PutPointer(buf, size, out0, AsUnsigned(args[0].v, true));
    } else {
      out := PutText(buf, size, out0, DirectiveText(d, args));
    }
  }

  /** %p: the prefix is left out when it does not fit, and the digits still go in. */
  method PutPointer(buf: array<char>, size: nat, out0: nat, v: nat) returns (out: nat)
    requires out0 + 1 < size <= buf.Length && v < TWO64
    modifies buf
    ensures var prefix, digits := PointerPrefix(size - out0), PointerDigits(v);
            Appended(old(buf[..]), buf[..], size, out0, out,
                     prefix + digits[..Room(|digits|, size - out0 - |prefix|)])
  {
    hide Digits, Padded, Filled, Room;
    ghost var before := buf[..];
    ghost var digits := PointerDigits(v);
    out := out0;
    if out + 2 < size {
      buf[out], buf[out + 1] := '0', 'x';
      out := out + 2;
    }
    ghost var mid, start := buf[..], out;
    var w := FormatUint(buf, out, size - out, v, 16, false, 16, '0');
    FilledAppends(mid, buf[..], size, out, digits, w);
    out := out + w;
    ghost var prefix := PointerPrefix(size - out0);
    assert buf[..][start..out] == digits[..w];
    assert buf[..][out0..out] == prefix + digits[..w];
  }

  /** The first of a pointer's sixteen places is a zero exactly for a pointer below 2^60. */
  lemma TopPlace(v: nat)
    requires v < TWO64
    ensures var s := PointerDigits(v);
            |s| == 16 && (s[0] == '0' <==> v < TOP_DIGIT)
  {
    assert Pow16(15) == TOP_DIGIT && Pow16(16) == TWO64 by {
      assert Pow16(4) == 0x1_0000;
      assert Pow16(8) == 0x1_0000 * Pow16(4);
      assert Pow16(12) == 0x1_0000 * Pow16(8);
      assert Pow16(15) == 0x1000 * Pow16(12);
    }
    HexDigits(v, 16);
    HexDigits(v, 15);
  }

  function Pow16(k: nat): nat {
    if k == 0 then 1 else 16 * Pow16(k - 1)
  }

  /** How many hexadecimal digits a number has, and that it has no leading zero. */
  lemma {:induction false} HexDigits(v: nat, k: nat)
    requires k > 0
    ensures v < Pow16(k) <==> |Digits(v, 16, false)| <= k
    ensures v > 0 ==> Digits(v, 16, false)[0] != '0'
    decreases v
  {
    if v < 16 {
      PowGrows(k);
    } else if k == 1 {
      HexDigits(v / 16, 1);
    } else {
      HexDigits(v / 16, k - 1);
    }
  }

  lemma {:induction false} PowGrows(k: nat)
    requires k > 0
    ensures Pow16(k) >= 16
  {
    if k > 1 {
      PowGrows(k - 1);
    }
  }

  /** What is printed is as much of the text as fits, and the start of it if and only if no
      pointer meets the edge; for sizes that an int can hold. */
  lemma {:induction false} PrintedStarts(fmt: string, p: nat, args: seq<Arg>, out: nat, size: nat)
    requires WellFormed(fmt, p, args) && out < size <= INT_MAX
    ensures var all, printed := Output(fmt, p, args), Printed(fmt, p, args, out, size);
            && |printed| == Min(|all|, size - 1 - out)
            && (printed == all[..|printed|] <==> !PointerAtEdge(fmt, p, args, out, size))
    decreases |fmt| - p, 1
  {
    hide ParseDirective, DirectiveText, Piece, Takes, TakesNumber, After;
    if p < |fmt| && out + 1 < size {
      if fmt[p] != '%' {
        PrintedStarts(fmt, p + 1, args, out + 1, size);
        JoinedStarts([fmt[p]], Output(fmt, p + 1, args), Printed(fmt, p + 1, args, out + 1, size));
      } else {
        DirectiveStarts(fmt, p, args, out, size);
      }
    }
  }

  lemma {:induction false} DirectiveStarts(fmt: string, p: nat, args: seq<Arg>, out: nat, size: nat)
    requires WellFormed(fmt, p, args) && out + 1 < size <= INT_MAX && p < |fmt| && fmt[p] == '%'
    ensures var all, printed := Output(fmt, p, args), Printed(fmt, p, args, out, size);
            && |printed| == Min(|all|, size - 1 - out)
            && (printed == all[..|printed|] <==> !PointerAtEdge(fmt, p, args, out, size))
    decreases |fmt| - p, 0
  {
    hide *;
    DirectiveUnfolds(fmt, p, args, out, size);
    var d := ParseDirective(fmt, p + 1);
    var text, piece, args' := DirectiveText(d, args), Piece(d, args, size - out), After(d.conv, args);
    PieceStarts(d, args, size - out);
    MinIs(|text|, size - 1 - out);
    PrintedStarts(fmt, d.next, args', out + |piece|, size);
    CutsJoin(text, piece, Output(fmt, d.next, args'), Printed(fmt, d.next, args', out + |piece|, size), size - 1 - out,
             AtEdge(d, args, size - out), PointerAtEdge(fmt, d.next, args', out + |text|, size));
  }

  /** Two texts cut one after the other to the room left, against both cut at once; each cut is
      the start of its text unless flagged. */
  lemma CutsJoin(text: string, piece: string, rest: string, printed: string, room: nat, edge: bool, later: bool)
    requires |piece| == Min(|text|, room) && (piece == text[..|piece|] <==> !edge) && (|text| <= room ==> piece == text)
    requires |printed| == Min(|rest|, room - |piece|)
    requires if |text| <= room then printed == rest[..|printed|] <==> !later else !later
    ensures |piece + printed| == Min(|text + rest|, room)
    ensures piece + printed == (text + rest)[..|piece + printed|] <==> !(edge || later)
  {
    if |text| <= room {
      assert text[..|piece|] == text;
      JoinedStarts(text, rest, printed);
    } else {
      assert piece + printed == piece;
      assert (text + rest)[..|piece|] == text[..|piece|];
    }
  }

  lemma MinIs(a: int, b: int)
    ensures Min(a, b) == if a < b then a else b
  {
  }

  /** One unfolding of what a directive contributes. */
  lemma {:induction false} DirectiveUnfolds(fmt: string, p: nat, args: seq<Arg>, out: nat, size: nat)
    requires WellFormed(fmt, p, args) && out + 1 < size && p < |fmt| && fmt[p] == '%'
    ensures var d := ParseDirective(fmt, p + 1);
            && p < d.next && p < |fmt| && Supplies(d.conv, args) && WellFormed(fmt, d.next, After(d.conv, args))
            && var text, piece, args' := DirectiveText(d, args), Piece(d, args, size - out), After(d.conv, args);
            && Output(fmt, p, args) == text + Output(fmt, d.next, args')
            && Printed(fmt, p, args, out, size) == piece + Printed(fmt, d.next, args', out + |piece|, size)
            && (PointerAtEdge(fmt, p, args, out, size) <==>
                  AtEdge(d, args, size - out) || PointerAtEdge(fmt, d.next, args', out + |text|, size))
            && (forall end :: end + 1 >= size ==> !PointerAtEdge(fmt, d.next, args', end, size))
  {
    hide ParseDirective, DirectiveText, Piece, After;
  }

  lemma JoinedStarts(head: string, rest: string, printed: string)
    requires |printed| <= |rest|
    ensures |head + printed| <= |head + rest|
    ensures head + printed == (head + rest)[..|head + printed|] <==> printed == rest[..|printed|]
  {
    assert (head + rest)[..|head + printed|] == head + rest[..|printed|];
    assert (head + printed)[|head|..] == printed && (head + rest[..|printed|])[|head|..] == rest[..|printed|];
  }

  /** One piece is the whole text of its directive or what fits of it, except for a pointer at
      the edge. */
  lemma PieceStarts(d: Directive, args: seq<Arg>, room: nat)
    requires Supplies(d.conv, args) && 2 <= room <= INT_MAX
    ensures var text, piece := DirectiveText(d, args), Piece(d, args, room);
            && |piece| == Min(|text|, room - 1)
            && (piece == text[..|piece|] <==> !AtEdge(d, args, room))
            && (|text| <= room - 1 ==> piece == text)
  {
    hide Digits, Padded, DirectiveText;
    if d.conv == 'p' {
      PointerPiece(d, args, room);
    }
  }

  lemma PointerPiece(d: Directive, args: seq<Arg>, room: nat)
    requires Supplies(d.conv, args) && d.conv == 'p' && 2 <= room <= INT_MAX
    ensures var v, text, piece := AsUnsigned(args[0].v, true), DirectiveText(d, args), Piece(d, args, room);
            && |text| == 18 && |piece| == Min(18, room - 1)
            && (piece == text[..|piece|] <==> !(room == 2 && v >= TOP_DIGIT))
  {
    hide Digits, Padded;
    var v := AsUnsigned(args[0].v, true);
    var text, piece, digits := DirectiveText(d, args), Piece(d, args, room), PointerDigits(v);
    TopPlace(v);
    assert text == "0x" + digits;
    if room == 2 {
      assert piece == digits[..1] == [digits[0]] && text[..1] == ['0'];
    } else {
      assert text[..|piece|] == piece;
    }
  }

  /** A kernel address printed into two characters: the one digit printed is not the start of
      the text. */
  lemma CutPointerExample()
    ensures var args := [Number(0xFFFF_FFFF_8000_0000)];
            WellFormed("%p", 0, args) && PointerAtEdge("%p", 0, args, 0, 2)
  {
    hide DirectiveText;
    var fmt := "%p";
    var args := [Number(0xFFFF_FFFF_8000_0000)];
    assert ReadWidth(fmt, 1, 0) == (0, 1);
    assert ParseDirective(fmt, 1) == Directive(' ', 0, false, 'p', 2);
    assert WellFormed(fmt, 2, args[1..]);
  }

  lemma {:induction false} CharacterPrinted(fmt: string, p: nat, args: seq<Arg>, sofar: string, size: nat)
    requires WellFormed(fmt, p, args) && p < |fmt| && fmt[p] != '%' && |sofar| + 1 < size
    ensures sofar + Printed(fmt, p, args, |sofar|, size) == sofar + [fmt[p]] + Printed(fmt, p + 1, args, |sofar| + 1, size)
  {
    hide ParseDirective, DirectiveText, Piece;
    var rest := Printed(fmt, p + 1, args, |sofar| + 1, size);
    assert sofar + ([fmt[p]] + rest) == sofar + [fmt[p]] + rest;
  }

  lemma PiecePrinted(fmt: string, p: nat, args: seq<Arg>, sofar: string, size: nat)
    requires WellFormed(fmt, p, args) && p < |fmt| && fmt[p] == '%' && |sofar| + 1 < size
    ensures var d := ParseDirective(fmt, p + 1);
            var piece := Piece(d, args, size - |sofar|);
            sofar + Printed(fmt, p, args, |sofar|, size) ==
            sofar + piece + Printed(fmt, d.next, After(d.conv, args), |sofar| + |piece|, size)
  {
    hide Printed, ParseDirective, DirectiveText, Piece, After, Output, PointerAtEdge;
    DirectiveUnfolds(fmt, p, args, |sofar|, size);
    var d := ParseDirective(fmt, p + 1);
    var piece := Piece(d, args, size - |sofar|);
    var rest := Printed(fmt, d.next, After(d.conv, args), |sofar| + |piece|, size);
    assert sofar + (piece + rest) == sofar + piece + rest;
  }

  lemma {:induction false} NothingPrinted(fmt: string, p: nat, args: seq<Arg>, out: nat, size: nat)
    requires WellFormed(fmt, p, args) && (p >= |fmt| || out + 1 >= size)
    ensures Printed(fmt, p, args, out, size) == ""
  {
  }

  /** kvsnprintf: it writes only inside the buffer and always leaves a terminator after what it
      printed.  It returns the length of that converted to int, which is the length exactly if
      an int can hold it.  In a size that an int can hold it prints as much of the text as fits, and
      what it prints is the start of the text unless a pointer with a nonzero top digit is
      reached with room for one character: then the prefix is skipped and that digit printed
      in its place.  In larger sizes numbers are cut where the size converted to int says. */
  method Kvsnprintf(buf: array<char>, size: nat, fmt: string, args0: seq<Arg>) returns (r: int)
    requires size <= buf.Length && WellFormed(fmt, 0, args0)
    modifies buf
    ensures size == 0 ==> r == 0
    ensures size > 0 ==>
              var n := |Printed(fmt, 0, args0, 0, size)|;
              && n < size && buf[n] == '\0' && buf[..n] == Printed(fmt, 0, args0, 0, size)
              && r == ToInt(n) && (r == n <==> n <= INT_MAX)
    ensures forall k :: size <= k < buf.Length ==> buf[k] == old(buf[k])
    ensures var all := Output(fmt, 0, args0);
            0 < size <= INT_MAX ==>
              r == Min(|all|, size - 1) && (buf[..r] == all[..r] <==> !PointerAtEdge(fmt, 0, args0, 0, size))
  {
    hide ParseDirective, DirectiveText, Takes, TakesNumber, After, Piece, Printed, ToInt;
    if size == 0 {
      return 0;
    }
    ghost var before, goal := buf[..], Printed(fmt, 0, args0, 0, size);
    var out: nat, p: nat, args := 0, 0, args0;
    while p < |fmt| && out + 1 < size
      invariant out < size && WellFormed(fmt, p, args)
      invariant forall k :: size <= k < buf.Length ==> buf[k] == before[k]
      invariant buf[..out] + Printed(fmt, p, args, out, size) == goal
      decreases |fmt| - p
    {
      ghost var sofar := buf[..out];
      if fmt[p] != '%' {
        buf[out] := fmt[p];
        out := out + 1;
        assert buf[..out] == sofar + [fmt[p]];
        CharacterPrinted(fmt, p, args, sofar, size);
        p := p + 1;
      } else {
        var d := ScanDirective(fmt, p + 1);
        ghost var piece := Piece(d, args, size - out);
        var next := PutDirective(buf, size, out, d, args);
        assert buf[..next] == sofar + piece;
        PiecePrinted(fmt, p, args, sofar, size);
        out, p, args := next, d.next, After(d.conv, args);
      }
    }
    NothingPrinted(fmt, p, args, out, size);
    assert buf[..out] + "" == buf[..out];
    if size <= INT_MAX {
      PrintedStarts(fmt, 0, args0, 0, size);
    }
    buf[out] := '\0';
    FitsInt(out);
    r := ToInt(out);
  }
}
