/** The characters of shell arithmetic: number conversion, the text of variables, and the
    token stream that a piece of text denotes.

    A C string is modelled by the sequence of its characters before the terminating NUL;
    a pointer into it by the remaining suffix.
 */
module ArithText {
  import opened Basics
  import opened ArithWords
  import opened ArithGrammar

  /** The string from `k` on; nothing past its end. */
  function From(s: string, k: nat): string {
    if k <= |s| then s[k..] else []
  }

  predicate IsSpace(c: char) {
    c == ' ' || '\t' <= c <= '\r'
  }

  predicate IsDigit(c: char) {
    '0' <= c <= '9'
  }

  predicate IsLetter(c: char) {
    'a' <= c <= 'z' || 'A' <= c <= 'Z'
  }

  predicate IsInName(c: char) {
    IsLetter(c) || IsDigit(c) || c == '_'
  }

  // ---------------------------------------------------------------------------
  // Number conversion (strtoull, strtoll and strtoarith_t).

  /** The digit a character stands for; 36 when it is not a digit in any base. */
  function DigitValue(c: char): nat {
    if IsDigit(c) then (c - '0') as nat
    else if 'a' <= c <= 'z' then (c - 'a') as nat + 10
    else if 'A' <= c <= 'Z' then (c - 'A') as nat + 10
    else 36
  }

  datatype Number = Number(acc: nat, end: string)

  function SkipSpace(s: string): (t: string)
    ensures |t| <= |s|
  {
    if s != [] && IsSpace(s[0]) then SkipSpace(s[1..]) else s
  }

  /** Accumulate digits of `base` modulo 2^64, with no overflow report. */
  function ReadDigits(s: string, base: nat, acc: nat): (n: Number)
    requires base <= 36
    ensures |n.end| <= |s|
    ensures acc < TWO64 ==> n.acc < TWO64
    ensures s != [] && DigitValue(s[0]) < base ==> |n.end| < |s|
  {
    if s != [] && DigitValue(s[0]) < base
    then ReadDigits(s[1..], base, (acc * base + DigitValue(s[0])) % TWO64)
    else Number(acc, s)
  }

  /** strtoull with base 0. */
  function ReadUnsigned(s: string): (n: Number)
    ensures |n.end| <= |s| && n.acc < TWO64
    ensures IsDigit(At(s)) ==> |n.end| < |s|
  {
    var t := SkipSpace(s);
    if At(t) == '0' then
      if At(t[1..]) == 'x' || At(t[1..]) == 'X' then ReadDigits(t[2..], 16, 0)
      else ReadDigits(t[1..], 8, 0)
    else ReadDigits(t, 10, 0)
  }

  datatype Converted = Converted(val: Arith, end: string, erange: bool)

  /** strtoarith_t. */
  function ReadArith(s: string): (c: Converted)
    ensures |c.end| <= |s|
    ensures IsDigit(At(s)) ==> |c.end| < |s|
  {
    var t := SkipSpace(s);
    if At(t) == '-' then
      var n := ReadUnsigned(t[1..]);
      Converted(Wrap(0 - n.acc as int), n.end, false)
    else
      var n := ReadUnsigned(t);
      var val := Wrap(n.acc);
      if At(t) == '0' || val >= 0 then Converted(val, n.end, false)
      else if val == ARITH_MIN then Converted(ARITH_MIN, n.end, true)
      else Converted(ARITH_MAX, n.end, true)
  }

  function DigitChar(d: nat): (c: char)
    requires d < 10
    ensures IsDigit(c) && DigitValue(c) == d
  {
    '0' + d as char
  }

  /** The decimal text of a natural number. */
  function Decimal(v: nat): (s: string)
    ensures s != [] && IsDigit(s[0])
    ensures v > 0 ==> s[0] != '0'
  {
    if v < 10 then [DigitChar(v)] else Decimal(v / 10) + [DigitChar(v % 10)]
  }

  /** The text an assignment stores. */
  function Format(v: Arith): string {
    if v < 0 then "-" + Decimal(Abs(v)) else Decimal(Abs(v))
  }

  lemma ReadDigit(d: nat, t: string, acc: nat)
    requires d < 10 && acc * 10 + d < TWO64
    ensures ReadDigits([DigitChar(d)] + t, 10, acc) == ReadDigits(t, 10, acc * 10 + d)
  {
    assert ([DigitChar(d)] + t)[1..] == t;
    assert (acc * 10 + d) % TWO64 == acc * 10 + d;
  }

  lemma {:induction false} ReadDecimal(v: nat, t: string)
    requires v < TWO64
    ensures ReadDigits(Decimal(v) + t, 10, 0) == ReadDigits(t, 10, v)
  {
    if v < 10 {
      ReadDigit(v, t, 0);
    } else {
      var last := [DigitChar(v % 10)];
      ReadDecimal(v / 10, last + t);
      assert Decimal(v) + t == Decimal(v / 10) + (last + t);
      ReadDigit(v % 10, t, v / 10);
    }
  }

  /** Text that starts with the decimal digits of `v` and then no further digit reads back
      as `v`, although a leading zero would have switched the base. */
  lemma ReadUnsignedDecimal(v: nat, t: string)
    requires v < TWO64
    requires t == [] || DigitValue(t[0]) == 36
    ensures ReadUnsigned(Decimal(v) + t) == Number(v, t)
  {
    var s := Decimal(v) + t;
    assert s[0] == Decimal(v)[0];
    assert SkipSpace(s) == s;
    if v == 0 {
      assert s[1..] == t;
    } else {
      ReadDecimal(v, t);
    }
  }

  lemma ReadArithDecimal(v: Arith, t: string)
    requires v >= 0
    requires t == [] || DigitValue(t[0]) == 36
    ensures ReadArith(Decimal(v) + t) == Converted(v, t, false)
  {
    hide ReadDigits, ReadUnsigned, Decimal;
    var s := Decimal(v) + t;
    ReadUnsignedDecimal(v, t);
    assert s[0] == Decimal(v)[0];
    assert SkipSpace(s) == s;
  }

  lemma ReadArithNegative(m: nat)
    requires m < TWO64
    ensures ReadArith("-" + Decimal(m)) == Converted(Wrap(0 - m as int), [], false)
  {
    hide Decimal, ReadDigits, ReadUnsigned;
    var s := "-" + Decimal(m);
    ReadUnsignedDecimal(m, []);
    assert Decimal(m) + [] == Decimal(m);
    assert s[0] == '-' && SkipSpace(s) == s;
    assert s[1..] == Decimal(m);
  }

  /** Storing a value as text and converting it back is the identity on all 64-bit values. */
  lemma FormatReadsBack(v: Arith)
    ensures ReadArith(Format(v)) == Converted(v, [], false)
  {
    hide ReadArith, Decimal;
    if v < 0 {
      ReadArithNegative(Abs(v));
    } else {
      ReadArithDecimal(v, []);
      assert Decimal(v) + [] == Decimal(v);
    }
  }

  // ---------------------------------------------------------------------------
  // Lexical structure: blanks, numbers, names, and symbols by longest match.

  predicate IsBlank(c: char) {
    c == ' ' || c == '\t' || c == '\n'
  }

  function SkipBlanks(s: string): (t: string)
    ensures |t| <= |s| && !IsBlank(At(t))
  {
    if s != [] && IsBlank(s[0]) then SkipBlanks(s[1..]) else s
  }

  function NameLength(s: string): (n: nat)
    ensures n <= |s|
    ensures s != [] && IsInName(s[0]) ==> n > 0
  {
    if s != [] && IsInName(s[0]) then 1 + NameLength(s[1..]) else 0
  }

  /** Symbols of three, two and one characters; EOF where there is none. */
  function Symbol3(a: char, b: char, c: char): int {
    if a == '<' && b == '<' && c == '=' then 26
    else if a == '>' && b == '>' && c == '=' then 27
    else EOF
  }

  function Symbol2(a: char, b: char): int {
    if a == b == '+' || a == b == '-' then BAD
    else if a == b == '|' then OR
    else if a == b == '&' then AND
    else if a == b == '<' then LSHIFT
    else if a == b == '>' then RSHIFT
    else if b != '=' then EOF
    else if a == '<' then LE
    else if a == '>' then GE
    else if a == '=' then EQ
    else if a == '!' then NE
    else if a == '%' then 24
    else if a == '&' then 25
    else if a == '*' then 28
    else if a == '+' then 29
    else if a == '|' then 30
    else if a == '-' then 31
    else if a == '^' then 32
    else if a == '/' then 33
    else EOF
  }

  function Symbol1(a: char): int {
    if a == '=' then ASS
    else if a == '!' then NOT
    else if a == '<' then LT
    else if a == '>' then GT
    else if a == '%' then REM
    else if a == '&' then BAND
    else if a == '*' then MUL
    else if a == '+' then ADD
    else if a == '|' then BOR
    else if a == '-' then SUB
    else if a == '^' then BXOR
    else if a == '/' then DIV
    else if a == '(' then LPAREN
    else if a == ')' then RPAREN
    else if a == '~' then BNOT
    else if a == '?' then QMARK
    else if a == ':' then COLON
    else BAD
  }

  /** Longest match at the front of `s`: the symbol's code and its length. */
  function Munch(s: string): (r: (int, nat))
    ensures r.0 == BAD || (1 <= r.0 <= 38 && r.0 != NUM && r.0 != VAR && 1 <= r.1 <= |s|)
  {
    var three := Symbol3(At(s), At(From(s, 1)), At(From(s, 2)));
    var two := Symbol2(At(s), At(From(s, 1)));
    if three != EOF then (three, 3)
    else if two != EOF then (two, 2)
    else (Symbol1(At(s)), 1)
  }

  /** The token stream of a text. */
  function Tokens(s: string): Toks
    decreases |s|
  {
    var t := SkipBlanks(s);
    var c := At(t);
    if c == '\0' then End
    else if IsDigit(c) then
      var n := ReadArith(t);
      Cons(Num(n.val), Tokens(n.end))
    else if IsInName(c) then
      var k := NameLength(t);
      Cons(Name(t[..k]), Tokens(t[k..]))
    else
      var m := Munch(t);
      if m.0 == BAD then Junk else Cons(Sym(m.0), Tokens(t[m.1..]))
  }

  // ---------------------------------------------------------------------------
  // Canonical spelling, and the lexer's round trip on it.

  function SymbolText(code: Symbol): string {
    if code == ASS then "=" else if code == OR then "||" else if code == AND then "&&"
    else if code == NOT then "!" else if code == LE then "<=" else if code == GE then ">="
    else if code == LT then "<" else if code == GT then ">" else if code == EQ then "=="
    else if code == REM then "%" else if code == BAND then "&" else if code == LSHIFT then "<<"
    else if code == RSHIFT then ">>" else if code == MUL then "*" else if code == ADD then "+"
    else if code == BOR then "|" else if code == SUB then "-" else if code == BXOR then "^"
    else if code == DIV then "/" else if code == NE then "!=" else if code == LPAREN then "("
    else if code == RPAREN then ")" else if code == BNOT then "~" else if code == QMARK then "?"
    else if code == COLON then ":"
    else // a compound assignment: its operator, then '='
      var op := code - ASS_OFFSET;
      (if op == REM then "%" else if op == BAND then "&" else if op == LSHIFT then "<<"
       else if op == RSHIFT then ">>" else if op == MUL then "*" else if op == ADD then "+"
       else if op == BOR then "|" else if op == SUB then "-" else if op == BXOR then "^" else "/")
      + "="
  }

  predicate IsIdentifier(x: string) {
    x != [] && !IsDigit(x[0]) && forall i :: 0 <= i < |x| ==> IsInName(x[i])
  }

  predicate Spellable(t: Token) {
    match t
    case Num(v) => v >= 0
    case Name(x) => IsIdentifier(x)
    case Sym(_) => true
  }

  function Text(t: Token): string
    requires Spellable(t)
  {
    match t
    case Num(v) => Decimal(v)
    case Name(x) => x
    case Sym(c) => SymbolText(c)
  }

  predicate AllSpellable(t: Toks) {
    match t
    case End => true
    case Junk => false
    case Cons(h, tail) => Spellable(h) && AllSpellable(tail)
  }

  /** Every token's text followed by one blank. */
  function Spell(t: Toks): string
    requires AllSpellable(t)
  {
    if t.End? then [] else Text(t.head) + (" " + Spell(t.tail))
  }

  lemma SymbolReadsBack(code: Symbol, rest: string)
    requires rest != [] && rest[0] == ' '
    ensures var s := SymbolText(code) + rest;
            !IsBlank(At(s)) && !IsInName(At(s)) && At(s) != '\0' &&
            Munch(s) == (code as int, |SymbolText(code)|)
  {
    var w := SymbolText(code);
    var s := w + rest;
    assert s[0] == w[0];
    assert From(s, 1)[0] == if |w| > 1 then w[1] else ' ';
    if |w| > 1 {
      assert From(s, 2)[0] == if |w| > 2 then w[2] else ' ';
    }
  }

  lemma {:induction false} NameReadsBack(x: string, rest: string)
    requires forall i :: 0 <= i < |x| ==> IsInName(x[i])
    requires rest != [] && !IsInName(rest[0])
    ensures NameLength(x + rest) == |x|
  {
    if x == [] {
      assert x + rest == rest;
    } else {
      assert (x + rest)[1..] == x[1..] + rest;
      NameReadsBack(x[1..], rest);
    }
  }

  lemma BlankSkipped(s: string)
    ensures Tokens(" " + s) == Tokens(s)
  {
    assert (" " + s)[1..] == s;
    assert SkipBlanks(" " + s) == SkipBlanks(s);
  }

  lemma NumberToken(v: Arith, rest: string)
    requires v >= 0 && rest != [] && rest[0] == ' '
    ensures Tokens(Decimal(v) + rest) == Cons(Num(v), Tokens(rest))
  {
    var s := Decimal(v) + rest;
    ReadArithDecimal(v, rest);
    assert s[0] == Decimal(v)[0];
    assert SkipBlanks(s) == s;
  }

  lemma NameToken(x: string, rest: string)
    requires IsIdentifier(x) && rest != [] && rest[0] == ' '
    ensures Tokens(x + rest) == Cons(Name(x), Tokens(rest))
  {
    var s := x + rest;
    NameReadsBack(x, rest);
    assert s[0] == x[0];
    assert SkipBlanks(s) == s;
    assert s[..|x|] == x && s[|x|..] == rest;
  }

  lemma SymbolToken(c: Symbol, rest: string)
    requires rest != [] && rest[0] == ' '
    ensures Tokens(SymbolText(c) + rest) == Cons(Sym(c), Tokens(rest))
  {
    var s := SymbolText(c) + rest;
    SymbolReadsBack(c, rest);
    assert SkipBlanks(s) == s;
    assert s[|SymbolText(c)|..] == rest;
  }

  /** Lexing the canonical spelling of a token list gives the list back, number values and
      names included, and then end of input. */
  lemma {:induction false} SpellingReadsBack(t: Toks)
    requires AllSpellable(t)
    ensures Tokens(Spell(t)) == t
  {
    if t.Cons? {
      var rest := " " + Spell(t.tail);
      SpellingReadsBack(t.tail);
      BlankSkipped(Spell(t.tail));
      match t.head
      case Num(v) => NumberToken(v, rest);
      case Name(x) => NameToken(x, rest);
      case Sym(c) => SymbolToken(c, rest);
    }
  }
}
