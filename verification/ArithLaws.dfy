/** The laws of shell arithmetic: the operators against each other, and the abbreviations of
    the expression language against what they abbreviate.
 */
module ArithLaws {
  import opened Basics
  import opened Numerals
  import opened ArithWords
  import opened ArithGrammar
  import opened ArithText
  import opened ArithSemantics

  // ---------------------------------------------------------------------------
  // Comparison.

  /** Comparison is subtraction where the difference does not wrap, as it never does between
      values of the same sign; between values of different sign the negative one is less.
      `<=`, `>=` and `!=` are the negations of `>`, `<` and `==`. */
  lemma Comparisons(a: Arith, b: Arith)
    ensures ARITH_MIN <= a - b <= ARITH_MAX ==>
              var d := DoBinop(SUB, a, b).v;
              && DoBinop(LT, a, b) == Good(if d < 0 then 1 else 0)
              && DoBinop(GT, a, b) == Good(if d > 0 then 1 else 0)
              && DoBinop(EQ, a, b) == Good(if d == 0 then 1 else 0)
    ensures (a < 0) != (b < 0) ==>
              && DoBinop(LT, a, b) == Good(if a < 0 then 1 else 0)
              && DoBinop(GT, a, b) == Good(if b < 0 then 1 else 0)
              && DoBinop(EQ, a, b) == Good(0)
    ensures (a < 0) == (b < 0) ==> ARITH_MIN <= a - b <= ARITH_MAX
    ensures DoBinop(LE, a, b) == Good(1 - DoBinop(GT, a, b).v)
    ensures DoBinop(GE, a, b) == Good(1 - DoBinop(LT, a, b).v)
    ensures DoBinop(NE, a, b) == Good(1 - DoBinop(EQ, a, b).v)
  {
    hide Wrap, Bits, TruncDiv, TruncRem;
    if ARITH_MIN <= a - b <= ARITH_MAX {
      WrapKeeps(a - b);
    }
  }

  // ---------------------------------------------------------------------------
  // Multiplication and shifts.

  lemma WrapShifts(x: int, k: int)
    ensures Wrap(x + k * TWO64) == Wrap(x)
  {
    assert (x + k * TWO64) % TWO64 == x % TWO64;
  }

  /** A product needs only the low 64 bits of its factors. */
  lemma WrapInProduct(x: int, c: int)
    ensures Wrap(Wrap(x) * c) == Wrap(x * c)
  {
    var k := (Wrap(x) - x) / TWO64;
    assert Wrap(x) == x + k * TWO64;
    assert Wrap(x) * c == x * c + k * c * TWO64;
    WrapShifts(x * c, k * c);
  }

  lemma WrapInSum(x: int, y: int)
    ensures Wrap(Wrap(x) + Wrap(y)) == Wrap(x + y)
  {
    var k, m := (Wrap(x) - x) / TWO64, (Wrap(y) - y) / TWO64;
    assert Wrap(x) + Wrap(y) == x + y + (k + m) * TWO64;
    WrapShifts(x + y, k + m);
  }

  lemma TimesAndPlus(a: Arith, b: Arith)
    ensures DoBinop(MUL, a, b) == Good(Wrap(a * b)) && DoBinop(ADD, a, b) == Good(Wrap(a + b))
  {
  }

  lemma ProductOfSum(a: int, b: int, c: int)
    ensures (a + b) * c == a * c + b * c && a * b == b * a
  {
  }

  /** `*` is repeated addition, wrap-around included: it distributes over `+`, and 1 and 0 are
      its unit and its zero. */
  lemma Multiplication(a: Arith, b: Arith, c: Arith)
    ensures DoBinop(MUL, DoBinop(ADD, a, b).v, c)
         == DoBinop(ADD, DoBinop(MUL, a, c).v, DoBinop(MUL, b, c).v)
    ensures DoBinop(MUL, a, b) == DoBinop(MUL, b, a)
    ensures DoBinop(MUL, a, 1) == Good(a) && DoBinop(MUL, a, 0) == Good(0)
  {
    hide DoBinop, Wrap;
    TimesAndPlus(a, b);
    TimesAndPlus(b, a);
    TimesAndPlus(a, 1);
    TimesAndPlus(a, 0);
    WrapKeeps(a);
    WrapKeeps(0);
    ProductOfSum(a, b, c);
    SumOfProducts(a, b, c);
  }

  lemma SumOfProducts(a: Arith, b: Arith, c: Arith)
    ensures DoBinop(MUL, DoBinop(ADD, a, b).v, c)
         == DoBinop(ADD, DoBinop(MUL, a, c).v, DoBinop(MUL, b, c).v)
  {
    hide DoBinop, Wrap;
    TimesAndPlus(a, b);
    TimesAndPlus(a, c);
    TimesAndPlus(b, c);
    var sum, left, right := Wrap(a + b), Wrap(a * c), Wrap(b * c);
    TimesAndPlus(sum, c);
    TimesAndPlus(left, right);
    WrapInProduct(a + b, c);
    WrapInSum(a * c, b * c);
    ProductOfSum(a, b, c);
  }

  lemma ShiftIsProduct(a: Arith, b: Arith)
    ensures DoBinop(LSHIFT, a, b) == Good(Wrap(a * Pow2(b % 64)))
  {
  }

  lemma NextCount(b: Arith)
    requires b % 64 < 63
    ensures b + 1 <= ARITH_MAX && (b + 1) % 64 == b % 64 + 1 && Pow2((b + 1) % 64) == 2 * Pow2(b % 64)
  {
  }

  lemma Doubled(a: int, p: int)
    ensures a * (2 * p) == a * p + a * p
  {
  }

  /** A left shift multiplies by a power of two, the count taken modulo 64: it is one doubling
      for each step of the count. */
  lemma LeftShift(a: Arith, b: Arith)
    ensures DoBinop(LSHIFT, a, b) == DoBinop(MUL, a, Wrap(Pow2(b % 64)))
    ensures b % 64 == 0 ==> DoBinop(LSHIFT, a, b) == Good(a)
    ensures b % 64 < 63 && b < ARITH_MAX ==>
              var d := DoBinop(LSHIFT, a, b).v;
              DoBinop(LSHIFT, a, b + 1) == DoBinop(ADD, d, d)
  {
    hide DoBinop, Wrap, Pow2;
    var p := Pow2(b % 64);
    ShiftIsProduct(a, b);
    TimesAndPlus(a, Wrap(p));
    WrapInProduct(p, a);
    ProductOfSum(p, 0, a);
    ProductOfSum(Wrap(p), a, 0);
    ProductOfSum(p, a, 0);
    if b % 64 == 0 {
      NoShift(a);
    }
    if b % 64 < 63 && b < ARITH_MAX {
      NextCount(b);
      ShiftIsProduct(a, b + 1);
      Doubled(a, p);
      WrapInSum(a * p, a * p);
      TimesAndPlus(Wrap(a * p), Wrap(a * p));
    }
  }

  lemma NoShift(a: Arith)
    ensures Wrap(a * Pow2(0)) == a
  {
  }

  // ---------------------------------------------------------------------------
  // Bits, one place at a time.

  function Bit(x: nat, i: nat): (d: nat)
    ensures d < 2
  {
    if i == 0 then x % 2 else Bit(x / 2, i - 1)
  }

  lemma {:induction false} BitsStep(op: BinOp, a: nat, b: nat)
    requires a != 0 || b != 0
    ensures Bits(op, a, b) / 2 == Bits(op, a / 2, b / 2)
    ensures Bits(op, a, b) % 2 == LowBit(op, a % 2, b % 2)
  {
    ParityOfSum(a, b);
    Halved(Bits(op, a / 2, b / 2), LowBit(op, a % 2, b % 2));
  }

  function LowBit(op: BinOp, x: nat, y: nat): (d: nat)
    requires x < 2 && y < 2
    ensures d < 2
  {
    if op == BAND then (if x == y then x else 0)
    else if op == BXOR then (if x == y then 0 else 1)
    else if x == y then x else 1
  }

  lemma Halved(n: nat, d: nat)
    requires d < 2
    ensures (2 * n + d) / 2 == n && (2 * n + d) % 2 == d
  {
  }

  lemma {:induction false} BitsAt(op: BinOp, a: nat, b: nat, i: nat)
    requires op == BAND || op == BOR || op == BXOR
    ensures Bit(Bits(op, a, b), i) ==
              if op == BAND then (if Bit(a, i) == 1 && Bit(b, i) == 1 then 1 else 0)
              else if op == BOR then (if Bit(a, i) == 1 || Bit(b, i) == 1 then 1 else 0)
              else if Bit(a, i) != Bit(b, i) then 1 else 0
  {
    if a == 0 && b == 0 {
      NoBits(i);
    } else {
      hide Bits;
      BitsStep(op, a, b);
      if i > 0 {
        BitsAt(op, a / 2, b / 2, i - 1);
      }
    }
  }

  lemma ParityOfSum(a: nat, b: nat)
    ensures (a + b) % 2 == if a % 2 == b % 2 then 0 else 1
  {
  }

  lemma {:induction false} NoBits(i: nat)
    ensures Bit(0, i) == 0
  {
    if i > 0 {
      NoBits(i - 1);
    }
  }

  /** `&`, `|` and `^` act on every bit of the words by itself. */
  lemma {:induction false} Bitwise(a: Arith, b: Arith, i: nat)
    ensures var x, y := Bit(Unsigned(a), i), Bit(Unsigned(b), i);
            && Bit(Unsigned(DoBinop(BAND, a, b).v), i) == (if x == 1 && y == 1 then 1 else 0)
            && Bit(Unsigned(DoBinop(BOR, a, b).v), i) == (if x == 1 || y == 1 then 1 else 0)
            && Bit(Unsigned(DoBinop(BXOR, a, b).v), i) == (if x != y then 1 else 0)
  {
    hide Bits, Bit, DoBinop, Unsigned;
    BitwiseIsBits(BAND, a, b);
    BitwiseIsBits(BOR, a, b);
    BitwiseIsBits(BXOR, a, b);
    BitsAt(BAND, Unsigned(a), Unsigned(b), i);
    BitsAt(BOR, Unsigned(a), Unsigned(b), i);
    BitsAt(BXOR, Unsigned(a), Unsigned(b), i);
  }

  lemma {:induction false} FlipAll(x: nat, n: nat)
    requires x < Pow2(n)
    ensures Bits(BXOR, Pow2(n) - 1, x) == Pow2(n) - 1 - x
  {
    if n > 0 {
      FlipAll(x / 2, n - 1);
      FlipMore(x, Pow2(n - 1));
    }
  }

  lemma {:induction false} FlipMore(x: nat, h: nat)
    requires h > 0 && x < 2 * h && Bits(BXOR, h - 1, x / 2) == h - 1 - x / 2
    ensures Bits(BXOR, 2 * h - 1, x) == 2 * h - 1 - x
  {
    hide Bits;
    Halved(h - 1, 1);
    assert 2 * (h - 1) + 1 == 2 * h - 1;
    BitsStep(BXOR, 2 * h - 1, x);
    Rejoined(Bits(BXOR, 2 * h - 1, x), x, h);
  }

  lemma Rejoined(b: nat, x: nat, h: nat)
    requires b / 2 == h - 1 - x / 2 && b % 2 == 1 - x % 2
    ensures b == 2 * h - 1 - x
  {
  }

  /** `^` with a word of ones subtracts from it. */
  lemma {:induction false} XorOnes(v: Arith)
    ensures DoBinop(BXOR, -1, v) == Good(-1 - v)
  {
    hide Bits, Pow2;
    Pow2Of64();
    FlipAll(Unsigned(v), 64);
    assert Unsigned(-1) == Pow2(64) - 1;
    assert Wrap(TWO64 - 1 - Unsigned(v)) == -1 - v;
  }

  // ---------------------------------------------------------------------------
  // Abbreviations of the expression language.

  /** `+e`, `-e`, `~e` and `!e` are `e`, `0 - e`, `-1 ^ e` and `e == 0`: the same value, the
      same effect on the variables, the same error. */
  lemma {:induction false} UnaryAbbreviates(u: bool, e: Expr, vars: Vars)
    ensures Eval(u, Unary(ADD, e), vars) == Eval(u, e, vars)
    ensures Eval(u, Unary(SUB, e), vars) == Eval(u, Binary(SUB, Lit(0), e), vars)
    ensures Eval(u, Unary(BNOT, e), vars) == Eval(u, Binary(BXOR, Lit(-1), e), vars)
    ensures Eval(u, Unary(NOT, e), vars) == Eval(u, Binary(EQ, e, Lit(0)), vars)
  {
    hide Bits, Wrap, TruncDiv, TruncRem;
    var a := Eval(u, e, vars);
    if a.Done? {
      XorOnes(a.v);
      WrapKeeps(-1 - a.v);
    }
  }

  /** `l && r` and `l || r` are conditionals, except that a false left operand of `&&` is
      itself the value, which is 0. */
  lemma {:induction false} LogicAbbreviates(u: bool, l: Expr, r: Expr, vars: Vars)
    ensures Eval(u, LogAnd(l, r), vars) == Eval(u, Cond(l, Binary(NE, r, Lit(0)), Lit(0)), vars)
    ensures Eval(u, LogOr(l, r), vars) == Eval(u, Cond(l, Lit(1), Binary(NE, r, Lit(0))), vars)
  {
    hide DoBinop, LookupVar, AssignedValue, Format;
    var a := Eval(u, l, vars);
    AgainstZero(u, r, a.vars);
    assert Eval(u, Lit(0), a.vars) == Done(0, a.vars) && Eval(u, Lit(1), a.vars) == Done(1, a.vars);
  }

  lemma {:induction false} AgainstZero(u: bool, e: Expr, vars: Vars)
    ensures var a := Eval(u, e, vars);
            Eval(u, Binary(NE, e, Lit(0)), vars) ==
              if a.Failed? then a else Done(if a.v != 0 then 1 else 0, a.vars)
  {
    var a := Eval(u, e, vars);
    assert Eval(u, Lit(0), a.vars) == Done(0, a.vars);
  }

  /** `!(l && r)` is `!l || !r`. */
  lemma {:induction false} LogicDual(u: bool, l: Expr, r: Expr, vars: Vars)
    ensures Eval(u, Unary(NOT, LogAnd(l, r)), vars)
         == Eval(u, LogOr(Unary(NOT, l), Unary(NOT, r)), vars)
  {
    hide DoBinop, LookupVar, AssignedValue, Format, Wrap;
    var a := Eval(u, l, vars);
    if a.Done? {
      assert Eval(u, Unary(NOT, l), vars) == Done(if a.v == 0 then 1 else 0, a.vars);
      assert Eval(u, Unary(NOT, r), a.vars).vars == Eval(u, r, a.vars).vars;
    }
  }

  /** A conditional is the branch that its condition chooses. */
  lemma {:induction false} ConditionChooses(u: bool, c: Arith, l: Expr, r: Expr, vars: Vars)
    ensures Eval(u, Cond(Lit(c), l, r), vars) == Eval(u, if c != 0 then l else r, vars)
  {
  }

  /** `x op= y` is `x = x op v` in the variables that evaluating `y` to `v` leaves. */
  lemma {:induction false} CompoundAbbreviates(u: bool, op: AssignOp, x: string, y: Expr, vars: Vars)
    requires op != ASS && Eval(u, y, vars).Done?
    ensures var b := Eval(u, y, vars);
            Eval(u, Assign(op, x, y), vars) ==
              Eval(u, Assign(ASS, x, Binary(op - ASS_OFFSET, Var(x), Lit(b.v))), b.vars)
  {
    hide DoBinop, LookupVar, Format;
    var b := Eval(u, y, vars);
    var right := Binary(op - ASS_OFFSET, Var(x), Lit(b.v));
    RightOfCompound(u, op - ASS_OFFSET, x, b.v, b.vars);
  }

  lemma {:induction false} RightOfCompound(u: bool, op: BinOp, x: string, v: Arith, vars: Vars)
    ensures var w := LookupVar(u, vars, x);
            var r := if w.Bad? then w else DoBinop(op, w.v, v);
            Eval(u, Binary(op, Var(x), Lit(v)), vars) ==
              if r.Good? then Done(r.v, vars) else Failed(r.e, vars)
  {
    hide DoBinop, LookupVar;
    assert Eval(u, Lit(v), vars) == Done(v, vars);
  }

  // ---------------------------------------------------------------------------
  // Numbers in a text.

  predicate Common(alphabet: string) {
    alphabet == OCTAL || alphabet == DECIMAL || alphabet == HEX || alphabet == UPPER_HEX
  }

  lemma {:induction false} ReadNumeral(alphabet: string, t: string, v: nat, rest: string)
    requires Common(alphabet)
    requires 2 <= |alphabet| <= 16 && Denotes(alphabet, t, v) && v < TWO64
    ensures ReadDigits(t + rest, |alphabet|, 0) == ReadDigits(rest, |alphabet|, v)
    decreases |t|
  {
    hide ReadDigits, Denotes, Common;
    var q, d := LastDigit(alphabet, t, v);
    var last := [alphabet[d]];
    Below(q, |alphabet|);
    if |t| == 1 {
      assert t == last;
    } else {
      var front := t[..|t| - 1];
      assert t + rest == front + (last + rest);
      ReadNumeral(alphabet, front, q, last + rest);
    }
    ReadOne(alphabet, d, rest, q);
  }

  lemma Below(q: nat, base: nat)
    requires base >= 1
    ensures q <= q * base
  {
  }

  lemma {:induction false} ReadOne(alphabet: string, d: nat, rest: string, acc: nat)
    requires Common(alphabet)
    requires d < |alphabet| && acc * |alphabet| + d < TWO64
    ensures ReadDigits([alphabet[d]] + rest, |alphabet|, acc) == ReadDigits(rest, |alphabet|, acc * |alphabet| + d)
  {
    AlphabetDigit(alphabet, d);
    assert ([alphabet[d]] + rest)[1..] == rest;
    assert (acc * |alphabet| + d) % TWO64 == acc * |alphabet| + d;
  }

  lemma AlphabetDigit(alphabet: string, d: nat)
    requires Common(alphabet)
    requires d < |alphabet|
    ensures DigitValue(alphabet[d]) == d
  {
  }

  /** A numeral after `0x` or `0X` is read in base 16, in either letter case, up to the first
      character that is no digit. */
  lemma {:induction false} HexRead(t: string, v: nat, rest: string)
    requires v < TWO64 && (rest == [] || DigitValue(rest[0]) == 36)
    requires Denotes(HEX, t, v) || Denotes(UPPER_HEX, t, v)
    ensures ReadUnsigned("0x" + (t + rest)) == ReadUnsigned("0X" + (t + rest)) == Number(v, rest)
  {
    hide Denotes, ReadDigits, DigitValue, ReadUnsigned;
    if Denotes(HEX, t, v) {
      ReadNumeral(HEX, t, v, rest);
    } else {
      ReadNumeral(UPPER_HEX, t, v, rest);
    }
    HexPrefix(t + rest);
    NumberEnds(rest, 16, v);
  }

  /** A numeral after `0` is read in base 8. */
  lemma {:induction false} OctalRead(t: string, v: nat, rest: string)
    requires v < TWO64 && (rest == [] || DigitValue(rest[0]) == 36)
    requires Denotes(OCTAL, t, v)
    ensures ReadUnsigned("0" + (t + rest)) == Number(v, rest)
  {
    hide Denotes, ReadDigits, DigitValue, ReadUnsigned;
    ReadNumeral(OCTAL, t, v, rest);
    OctalPrefix(t, v, rest);
    NumberEnds(rest, 8, v);
  }

  /** Any other numeral is read in base 10. */
  lemma {:induction false} DecimalRead(t: string, v: nat, rest: string)
    requires v < TWO64 && (rest == [] || DigitValue(rest[0]) == 36)
    requires Shortest(DECIMAL, t, v)
    ensures ReadUnsigned(t + rest) == Number(v, rest)
  {
    hide Denotes, ReadDigits, DigitValue;
    ReadNumeral(DECIMAL, t, v, rest);
    FirstDigit(DECIMAL, t, v);
    NumberEnds(rest, 10, v);
    assert (t + rest)[0] == t[0] && SkipSpace(t + rest) == t + rest;
    if t[0] == '0' {
      LoneZero(t, v, rest);
    }
  }

  lemma LoneZero(t: string, v: nat, rest: string)
    requires Denotes(DECIMAL, t, v) && |t| == 1 && t[0] == '0'
    requires rest == [] || DigitValue(rest[0]) == 36
    ensures v == 0 && ReadUnsigned(t + rest) == Number(0, rest)
  {
    var s := t + rest;
    assert SkipSpace(s) == s && s[1..] == rest;
  }

  lemma NumberEnds(rest: string, base: nat, v: nat)
    requires base <= 36 && (rest == [] || DigitValue(rest[0]) == 36)
    ensures ReadDigits(rest, base, v) == Number(v, rest)
  {
  }

  lemma HexPrefix(s: string)
    ensures ReadUnsigned("0x" + s) == ReadUnsigned("0X" + s) == ReadDigits(s, 16, 0)
  {
    hide ReadDigits;
    assert SkipSpace("0x" + s) == "0x" + s && ("0x" + s)[1..][0] == 'x' && ("0x" + s)[2..] == s;
    assert SkipSpace("0X" + s) == "0X" + s && ("0X" + s)[1..][0] == 'X' && ("0X" + s)[2..] == s;
  }

  lemma {:induction false} FirstDigit(alphabet: string, t: string, v: nat)
    requires |alphabet| >= 2 && Denotes(alphabet, t, v)
    ensures t != [] && t[0] in alphabet
    decreases |t|
  {
    if |t| > 1 {
      FirstDigit(alphabet, t[..|t| - 1], v / |alphabet|);
    }
  }

  lemma OctalPrefix(t: string, v: nat, rest: string)
    requires Denotes(OCTAL, t, v)
    ensures ReadUnsigned("0" + (t + rest)) == ReadDigits(t + rest, 8, 0)
  {
    hide ReadDigits, Denotes;
    FirstDigit(OCTAL, t, v);
    var s := "0" + (t + rest);
    assert SkipSpace(s) == s && s[1..] == t + rest && (t + rest)[0] == t[0];
  }

  /** A shell variable is 0 when it is empty, or unset without -u; it is the numeral it holds;
      and it is an error when the numeral is followed by anything. */
  lemma VariableReads(u: bool, vars: Vars, x: string, t: string, v: nat, rest: string)
    requires v <= ARITH_MAX && Shortest(DECIMAL, t, v)
    ensures Eval(u, Var(x), vars - {x}) == if u then Failed(VariableNotSet, vars - {x}) else Done(0, vars - {x})
    ensures Eval(u, Var(x), vars[x := ""]) == Done(0, vars[x := ""])
    ensures Eval(u, Var(x), vars[x := t]) == Done(v, vars[x := t])
    ensures rest != [] && rest[0] != '\0' && DigitValue(rest[0]) == 36 ==>
              Eval(u, Var(x), vars[x := t + rest]) == Failed(VariableConversion, vars[x := t + rest])
  {
    hide Denotes, ReadArith, DigitValue;
    FirstDigit(DECIMAL, t, v);
    assert t + [] == t;
    NumeralRead(t, v, []);
    if rest != [] && DigitValue(rest[0]) == 36 {
      NumeralRead(t, v, rest);
    }
  }

  lemma NumeralRead(t: string, v: nat, rest: string)
    requires v <= ARITH_MAX && Shortest(DECIMAL, t, v)
    requires rest == [] || DigitValue(rest[0]) == 36
    ensures ReadArith(t + rest) == Converted(v, rest, false)
  {
    hide Denotes, ReadUnsigned, ReadDigits, DigitValue;
    FirstDigit(DECIMAL, t, v);
    DecimalRead(t, v, rest);
    assert (t + rest)[0] == t[0] && SkipSpace(t + rest) == t + rest;
    WrapKeeps(v);
  }

  /** The text an assignment stores is the shortest decimal numeral, with a minus sign for a
      negative value. */
  lemma {:induction false} StoredText(v: Arith)
    ensures var t := Format(v);
            if v < 0 then t[0] == '-' && Shortest(DECIMAL, t[1..], Abs(v)) else Shortest(DECIMAL, t, v)
  {
    hide Denotes, Decimal;
    DecimalShortest(Abs(v));
    if v < 0 {
      assert Format(v)[1..] == Decimal(Abs(v));
    }
  }

  lemma {:induction false} DecimalShortest(v: nat)
    ensures Shortest(DECIMAL, Decimal(v), v)
  {
    hide Denotes;
    assert DECIMAL[v % 10] == DigitChar(v % 10);
    if v < 10 {
      OneDigit(DECIMAL, v);
    } else {
      DecimalShortest(v / 10);
      OneMoreDigit(DECIMAL, Decimal(v / 10), v);
    }
  }

  // ---------------------------------------------------------------------------
  // Operators in a text.

  /** The binary operators by their texts, the tightest first, as in sections 6.5.5 to 6.5.12
      of ISO/IEC 9899. */
  const LEVELS: seq<seq<string>> :=
    [["*", "/", "%"], ["+", "-"], ["<<", ">>"], ["<", "<=", ">", ">="], ["==", "!="], ["&"], ["^"], ["|"]]

  /** What C gives for the operator with this text on 64-bit two's-complement words, the shift
      count taken modulo 64 as the machine does; the two divisions without a result are
      refused. */
  ghost predicate Computes(text: string, a: Arith, b: Arith, r: Value) {
    if text == "/" || text == "%" then
      if b == 0 then r == Bad(DivisionByZero)
      else if a == ARITH_MIN && b == -1 then r == Bad(DivideError)
      else r == Good(if text == "/" then TruncDiv(a, b) else TruncRem(a, b))
    else
      && r.Good?
      && match text
         case "*" => (r.v - a * b) % TWO64 == 0
         case "+" => (r.v - (a + b)) % TWO64 == 0
         case "-" => (r.v - (a - b)) % TWO64 == 0
         case "<<" => (r.v - a * Pow2(b % 64)) % TWO64 == 0
         case ">>" => r.v * Pow2(b % 64) <= a < (r.v + 1) * Pow2(b % 64)
         case "<" => r.v == if a < b then 1 else 0
         case "<=" => r.v == if a <= b then 1 else 0
         case ">" => r.v == if a > b then 1 else 0
         case ">=" => r.v == if a >= b then 1 else 0
         case "==" => r.v == if a == b then 1 else 0
         case "!=" => r.v == if a != b then 1 else 0
         case "&" => forall i: nat :: Bit(Unsigned(r.v), i) == Min(Bit(Unsigned(a), i), Bit(Unsigned(b), i))
         case "|" => forall i: nat :: (Bit(Unsigned(r.v), i) == 0) == (Bit(Unsigned(a), i) == 0 && Bit(Unsigned(b), i) == 0)
         case "^" => forall i: nat :: (Bit(Unsigned(r.v), i) == 0) == (Bit(Unsigned(a), i) == Bit(Unsigned(b), i))
         case _ => false
  }

  /** Every binary operator by its text: how tightly it binds and what it computes. */
  lemma OperatorMeaning(op: BinOp, a: Arith, b: Arith)
    ensures SymbolText(op) in LEVELS[Prec(op)] && Computes(SymbolText(op), a, b, DoBinop(op, a, b))
  {
    hide Bits, Bit, TruncDiv, TruncRem, Wrap, Unsigned, Pow2;
    if op == RSHIFT {
      RightShiftFloors(a, b);
    } else if (op == DIV || op == REM) && b != 0 && !(a == ARITH_MIN && b == -1) {
      DivisionIsExact(a, b);
    } else if op == BAND || op == BOR || op == BXOR {
      forall i: nat {
        Bitwise(a, b, i);
      }
    }
  }

  /** Longest match: the symbol found begins the text, and no symbol that begins the text is
      longer. The doubled signs `++` and `--` are refused; apart from them only a text that no
      symbol begins is. */
  lemma LongestMatch(s: string, other: Symbol)
    ensures var m := Munch(s);
            if m.0 == BAD then "++" <= s || "--" <= s || !(SymbolText(other) <= s)
            else && SymbolText(m.0) <= s && |SymbolText(m.0)| == m.1
                 && (SymbolText(other) <= s ==> |SymbolText(other)| <= m.1)
    ensures "++" <= s || "--" <= s ==> Munch(s).0 == BAD
  {
  }

  /** A compound assignment is spelled as its operator and `=`; the other symbols as in C. */
  lemma OtherSpellings(op: AssignOp)
    ensures op != ASS ==> SymbolText(op) == SymbolText(op - ASS_OFFSET) + "="
    ensures SymbolText(ASS) == "=" && SymbolText(NOT) == "!" && SymbolText(BNOT) == "~"
    ensures SymbolText(AND) == "&&" && SymbolText(OR) == "||"
    ensures SymbolText(QMARK) == "?" && SymbolText(COLON) == ":"
    ensures SymbolText(LPAREN) == "(" && SymbolText(RPAREN) == ")"
  {
  }
}
