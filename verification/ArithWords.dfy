/** 64-bit shell arithmetic: the value type `arith_t`, its wrap-around, and the binary
    operators of the shell's arithmetic expansion.
 */
module ArithWords {
  import opened Basics

  const ARITH_MIN := -0x8000_0000_0000_0000
  const ARITH_MAX := 0x7FFF_FFFF_FFFF_FFFF

  /** `arith_t`, a signed 64-bit integer. */
  type Arith = x: int | ARITH_MIN <= x <= ARITH_MAX witness 0

  /** Conversion of any integer to `arith_t`, keeping the low 64 bits. */
  function Wrap(x: int): (r: Arith)
    ensures (r - x) % TWO64 == 0
  {
    var u := x % TWO64;
    if u > ARITH_MAX then u - TWO64 else u
  }

  /** The same bits read as an unsigned 64-bit integer. */
  function Unsigned(x: Arith): (u: nat)
    ensures u < TWO64 && Wrap(u) == x
  {
    if x < 0 then x + TWO64 else x
  }

  function Truth(b: bool): Arith {
    if b then 1 else 0
  }

  // Token codes of the binary operators (arith_yacc.h).
  const LE := 8
  const GE := 9
  const LT := 10
  const GT := 11
  const EQ := 12
  const REM := 13
  const BAND := 14
  const LSHIFT := 15
  const RSHIFT := 16
  const MUL := 17
  const ADD := 18
  const BOR := 19
  const SUB := 20
  const BXOR := 21
  const DIV := 22
  const NE := 23
  const BINOP_MIN := 8
  const BINOP_MAX := 24

  predicate IsBinOp(code: int) {
    BINOP_MIN <= code < BINOP_MAX
  }

  type BinOp = op: int | BINOP_MIN <= op < BINOP_MAX witness MUL

  /** The precedence table: 0 binds tightest, 7 loosest. */
  function Prec(op: BinOp): (p: nat)
    ensures p < MAX_PREC
  {
    if op == MUL || op == DIV || op == REM then 0
    else if op == ADD || op == SUB then 1
    else if op == LSHIFT || op == RSHIFT then 2
    else if op == LT || op == LE || op == GT || op == GE then 3
    else if op == EQ || op == NE then 4
    else if op == BAND then 5
    else if op == BXOR then 6
    else 7
  }

  const MAX_PREC: nat := 8

  datatype Error = DivisionByZero | DivideError | VariableNotSet | VariableConversion

  datatype Value = Good(v: Arith) | Bad(e: Error)

  function Abs(x: int): nat {
    if x < 0 then -x else x
  }

  /** Quotient truncated toward zero, as C divides. */
  function TruncDiv(a: int, b: int): int
    requires b != 0
  {
    var q := Abs(a) / Abs(b);
    if (a < 0) != (b < 0) then -q else q
  }

  /** Remainder with the sign of the dividend, as C takes it. */
  function TruncRem(a: int, b: int): int
    requires b != 0
  {
    var m := Abs(a) % Abs(b);
    if a < 0 then -m else m
  }

  /** Bitwise combination of two unsigned words, bit by bit. */
  function Bits(op: BinOp, a: nat, b: nat): nat {
    if a == 0 && b == 0 then 0
    else
      var bit :=
        if op == BAND then (a % 2) * (b % 2)
        else if op == BXOR then (a + b) % 2
        else if a % 2 + b % 2 == 0 then 0 else 1;
      2 * Bits(op, a / 2, b / 2) + bit
  }

  /** do_binop. */
  function DoBinop(op: BinOp, a: Arith, b: Arith): Value {
    if op == REM || op == DIV then
      if b == 0 then Bad(DivisionByZero)
      else if a == ARITH_MIN && b == -1 then Bad(DivideError)
      else Good(Wrap(if op == REM then TruncRem(a, b) else TruncDiv(a, b)))
    else if op == MUL then Good(Wrap(a * b))
    else if op == ADD then Good(Wrap(a + b))
    else if op == SUB then Good(Wrap(a - b))
    else if op == LSHIFT then Good(Wrap(a * Pow2(b % 64)))
    else if op == RSHIFT then Good(Wrap(a / Pow2(b % 64)))
    else if op == LT then Good(Truth(a < b))
    else if op == LE then Good(Truth(a <= b))
    else if op == GT then Good(Truth(a > b))
    else if op == GE then Good(Truth(a >= b))
    else if op == EQ then Good(Truth(a == b))
    else if op == NE then Good(Truth(a != b))
    else Good(Wrap(Bits(op, Unsigned(a), Unsigned(b))))
  }

  // ---------------------------------------------------------------------------
  // What the operators mean, independently of how they are computed.

  lemma WrapKeeps(x: int)
    requires ARITH_MIN <= x <= ARITH_MAX
    ensures Wrap(x) == x
  {
  }

  /** Truncated division: quotient times divisor plus remainder, the remainder smaller than
      the divisor and of the dividend's sign. */
  lemma TruncLaws(a: int, b: int)
    requires b != 0
    ensures a == TruncDiv(a, b) * b + TruncRem(a, b)
    ensures 0 - Abs(b) < TruncRem(a, b) < Abs(b)
    ensures (TruncRem(a, b) > 0 ==> a > 0) && (TruncRem(a, b) < 0 ==> a < 0)
  {
    hide TruncDiv, TruncRem;
    var q, m := TruncParts(a, b);
    SignedLaws(a, b, q, m);
    if a == 0 {
      NoRemainderOfZero(q, Abs(b), m);
    }
  }

  lemma TruncParts(a: int, b: int) returns (q: int, m: int)
    requires b != 0
    ensures Abs(a) == q * Abs(b) + m && 0 <= m < Abs(b)
    ensures TruncDiv(a, b) == (if (a < 0) != (b < 0) then -q else q)
    ensures TruncRem(a, b) == (if a < 0 then -m else m)
  {
    q, m := Abs(a) / Abs(b), Abs(a) % Abs(b);
    DivMod(Abs(a), Abs(b));
  }

  lemma NoRemainderOfZero(q: int, d: int, m: int)
    requires 0 == q * d + m && 0 <= m < d
    ensures m == 0
  {
    if q >= 1 {
      MulOutgrows(q, d);
    } else if q <= -1 {
      MulOutgrows(-q, d);
      NegMul(q, d);
    }
  }

  lemma MulOutgrows(q: int, d: int)
    requires q >= 1 && d > 0
    ensures q * d >= d
  {
  }

  lemma SignedLaws(a: int, b: int, q: int, m: int)
    requires b != 0 && Abs(a) == q * Abs(b) + m
    ensures a == (if (a < 0) != (b < 0) then -q else q) * b + (if a < 0 then -m else m)
  {
    NegMul(q, Abs(b));
    NegMul(q, b);
  }

  lemma DivMod(n: int, d: int)
    requires n >= 0 && d > 0
    ensures n == n / d * d + n % d && 0 <= n % d < d
  {
  }

  lemma NegMul(q: int, d: int)
    ensures q * -d == -(q * d) && -q * d == -(q * d) && -q * -d == q * d
  {
  }

  /** The one quotient that does not fit is refused, so the shell's `/` and `%` never wrap:
      they are the truncated quotient and remainder. */
  lemma DivisionIsExact(a: Arith, b: Arith)
    requires b != 0 && !(a == ARITH_MIN && b == -1)
    ensures DoBinop(DIV, a, b).Good? && DoBinop(DIV, a, b).v == TruncDiv(a, b)
    ensures DoBinop(REM, a, b).Good? && DoBinop(REM, a, b).v == TruncRem(a, b)
  {
    TruncLaws(a, b);
    QuotientBound(Abs(a), Abs(b));
    WrapKeeps(TruncDiv(a, b));
    WrapKeeps(TruncRem(a, b));
  }

  lemma QuotientBound(n: int, d: int)
    requires n >= 0 && d > 0
    ensures 0 <= n / d <= n && (d > 1 && n > 0 ==> n / d < n)
  {
    FloorLaws(n, d);
    if d > 1 {
      MulAtLeast(n / d, d);
    }
  }

  lemma MulAtLeast(q: int, d: int)
    requires q >= 0 && d >= 2
    ensures q * d >= q * 2
  {
  }

  /** Subtraction undoes addition and addition subtraction, wrap-around included. */
  lemma AddSubUndo(a: Arith, b: Arith)
    ensures DoBinop(SUB, DoBinop(ADD, a, b).v, b) == Good(a)
    ensures DoBinop(ADD, DoBinop(SUB, a, b).v, b) == Good(a)
  {
    hide DoBinop;
    AddSubWrap(a, b);
    WrapOnce(a + b);
    WrapOnce(a - b);
    var s, d: int := Wrap(a + b), Wrap(a - b);
    WrapNear(a, s - b);
    WrapNear(a, d + b);
  }

  lemma AddSubWrap(a: Arith, b: Arith)
    ensures DoBinop(ADD, a, b) == Good(Wrap(a + b)) && DoBinop(SUB, a, b) == Good(Wrap(a - b))
    ensures DoBinop(SUB, Wrap(a + b), b) == Good(Wrap(Wrap(a + b) - b))
    ensures DoBinop(ADD, Wrap(a - b), b) == Good(Wrap(Wrap(a - b) + b))
  {
    hide Wrap;
  }

  lemma WrapOnce(x: int)
    requires -TWO64 <= x <= TWO64
    ensures Wrap(x) == x || Wrap(x) == x - TWO64 || Wrap(x) == x + TWO64
  {
  }

  lemma WrapNear(a: Arith, x: int)
    requires x == a || x == a - TWO64 || x == a + TWO64
    ensures Wrap(x) == a
  {
  }

  /** A right shift is the floor of the quotient, for negative values too. */
  lemma RightShiftFloors(a: Arith, b: Arith)
    ensures var k := Pow2(b % 64);
            var q := DoBinop(RSHIFT, a, b).v;
            q * k <= a < (q + 1) * k
  {
    var k := Pow2(b % 64);
    FloorLaws(a, k);
    WrapKeeps(a / k);
  }

  lemma FloorLaws(a: int, k: nat)
    requires k >= 1
    ensures (a / k) * k <= a < (a / k + 1) * k
    ensures if a >= 0 then 0 <= a / k <= a else a <= a / k < 0
  {
    var q := a / k;
    assert a == q * k + a % k;
    assert (q + 1) * k == q * k + k;
    if a < 0 {
      assert a * (k - 1) <= 0;
      assert a * k == a + a * (k - 1);
      MulCancel(a, q + 1, k);
    }
  }

  lemma MulCancel(x: int, y: int, k: nat)
    requires k > 0 && x * k < y * k
    ensures x < y
  {
  }

  lemma {:induction false} AndPlusOr(a: nat, b: nat)
    ensures Bits(BAND, a, b) + Bits(BOR, a, b) == a + b
  {
    if a != 0 || b != 0 {
      AndPlusOr(a / 2, b / 2);
    }
  }

  lemma {:induction false} XorPlusTwiceAnd(a: nat, b: nat)
    ensures Bits(BXOR, a, b) + 2 * Bits(BAND, a, b) == a + b
  {
    if a != 0 || b != 0 {
      XorPlusTwiceAnd(a / 2, b / 2);
    }
  }

  lemma {:induction false} BitsBound(op: BinOp, a: nat, b: nat, n: nat)
    requires a < Pow2(n) && b < Pow2(n)
    ensures Bits(op, a, b) < Pow2(n)
  {
    if n > 0 {
      BitsBound(op, a / 2, b / 2, n - 1);
    }
  }

  /** The bitwise operators, tied together by addition: a and b share the bits of `&`, have
      between them those of `|`, and differ in those of `^`. */
  lemma BitwiseAddsUp(a: Arith, b: Arith)
    ensures var x, y := Unsigned(a), Unsigned(b);
            && Unsigned(DoBinop(BAND, a, b).v) + Unsigned(DoBinop(BOR, a, b).v) == x + y
            && Unsigned(DoBinop(BXOR, a, b).v) + 2 * Unsigned(DoBinop(BAND, a, b).v) == x + y
  {
    hide Bits, Unsigned, DoBinop;
    AndPlusOr(Unsigned(a), Unsigned(b));
    XorPlusTwiceAnd(Unsigned(a), Unsigned(b));
    BitwiseIsBits(BAND, a, b);
    BitwiseIsBits(BOR, a, b);
    BitwiseIsBits(BXOR, a, b);
  }

  lemma BitwiseIsBits(op: BinOp, a: Arith, b: Arith)
    requires op == BAND || op == BOR || op == BXOR
    ensures DoBinop(op, a, b).Good? && Unsigned(DoBinop(op, a, b).v) == Bits(op, Unsigned(a), Unsigned(b))
  {
    hide Bits, Pow2;
    Pow2Of64();
    BitsBound(op, Unsigned(a), Unsigned(b), 64);
    UnsignedWraps(Bits(op, Unsigned(a), Unsigned(b)));
  }

  lemma UnsignedWraps(u: nat)
    requires u < TWO64
    ensures Unsigned(Wrap(u)) == u
  {
  }
}
