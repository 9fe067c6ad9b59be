/** The numeric arguments of the shell's control builtins: what break, continue and return
    accept, and the value they take it for.
 */
module ShellNumbers {
  import opened Basics
  import opened ArithWords
  import opened ArithText

  predicate AllDigits(s: string) {
    forall i :: 0 <= i < |s| ==> IsDigit(s[i])
  }

  /** The number that a text of digits writes down. */
  function DecimalValue(s: string): nat {
    if s == [] then 0 else DecimalValue(s[..|s| - 1]) * 10 + DigitValue(s[|s| - 1])
  }

  /** The number of loops that break and continue ask for, or none for an illegal number. */
  function LoopCount(arg: Option<string>): Option<int> {
    if arg.None? then Some(1)
    else
      var n := ReadDigits(arg.value, 10, 0);
      if !IsDigit(At(arg.value)) || n.end != [] then None else Some(Wrap(n.acc))
  }

  /** A decimal number that fits an int. */
  predicate IsNumber(s: string) {
    s != [] && AllDigits(s) && DecimalValue(s) <= INT_MAX
  }

  // ---------------------------------------------------------------------------
  // The count of break and continue.

  lemma ReadOneDigit(c: char, t: string, acc: nat)
    requires IsDigit(c)
    ensures ReadDigits([c] + t, 10, acc) == ReadDigits(t, 10, (acc * 10 + DigitValue(c)) % TWO64)
  {
    assert ([c] + t)[1..] == t;
  }

  lemma WrapDigit(v: nat, d: nat)
    ensures (v % TWO64 * 10 + d) % TWO64 == (v * 10 + d) % TWO64
  {
    var q := v / TWO64;
    assert v * 10 + d == (v % TWO64 * 10 + d) + TWO64 * (q * 10);
    ModShift(v % TWO64 * 10 + d, q * 10);
  }

  lemma {:induction false} ModShift(x: nat, k: nat)
    ensures (x + TWO64 * k) % TWO64 == x % TWO64
  {
    if k > 0 {
      ModShift(x, k - 1);
      assert x + TWO64 * k == (x + TWO64 * (k - 1)) + TWO64;
    }
  }

  /** Reading digits accumulates their value modulo 2^64. */
  lemma {:induction false} DigitsAccumulate(s: string, t: string)
    requires AllDigits(s)
    ensures ReadDigits(s + t, 10, 0) == ReadDigits(t, 10, DecimalValue(s) % TWO64)
    decreases |s|
  {
    if s == [] {
      assert s + t == t;
    } else {
      var n := |s| - 1;
      assert s + t == s[..n] + ([s[n]] + t);
      DigitsAccumulate(s[..n], [s[n]] + t);
      ReadOneDigit(s[n], t, DecimalValue(s[..n]) % TWO64);
      WrapDigit(DecimalValue(s[..n]), DigitValue(s[n]));
    }
  }

  lemma {:induction false} LeftOver(s: string, acc: nat)
    ensures ReadDigits(s, 10, acc).end == [] ==> AllDigits(s)
    decreases |s|
  {
    if s != [] && DigitValue(s[0]) < 10 {
      LeftOver(s[1..], (acc * 10 + DigitValue(s[0])) % TWO64);
      assert forall i :: 1 <= i < |s| ==> s[i] == s[1..][i - 1];
    }
  }

  /** Exactly the texts of one or more digits are legal counts, and a count stands for its
      value modulo 2^64, read as signed. */
  lemma LoopCountIs(s: string)
    ensures LoopCount(Some(s)) == if s != [] && AllDigits(s) then Some(Wrap(DecimalValue(s))) else None
  {
    LeftOver(s, 0);
    if s != [] && AllDigits(s) {
      DigitsAccumulate(s, []);
      assert s + [] == s;
      WrapOfLow(DecimalValue(s));
    }
  }

  lemma WrapOfLow(v: nat)
    ensures Wrap(v % TWO64) == Wrap(v)
  {
  }

  /** The count the builtins act on is the number written, cut to the loops there are, if
      and only if the number is below 2^63 or its low 64 bits lie between the depth and 2^63:
      very large numbers do not always mean all loops. */
  lemma LargeCounts(s: string, depth: nat)
    requires s != [] && AllDigits(s) && 0 < depth < 0x8000_0000_0000_0000
    ensures LoopCount(Some(s)).Some?
    ensures var v := DecimalValue(s);
            Min(LoopCount(Some(s)).value, depth) == Min(v, depth) <==>
              v < 0x8000_0000_0000_0000 || depth <= v % TWO64 < 0x8000_0000_0000_0000
  {
    LoopCountIs(s);
  }

  lemma {:induction false} DecimalReadsBack(v: nat)
    ensures AllDigits(Decimal(v)) && DecimalValue(Decimal(v)) == v
  {
    var s := Decimal(v);
    if v < 10 {
      assert s[..0] == [];
      assert DecimalValue([]) == 0;
    } else {
      DecimalReadsBack(v / 10);
      assert s[..|s| - 1] == Decimal(v / 10);
    }
  }

  /** A count of 2^64 loops is legal and means none. */
  lemma LargeCountExample()
    ensures DecimalValue(Decimal(TWO64)) == TWO64 && LoopCount(Some(Decimal(TWO64))) == Some(0)
  {
    DecimalReadsBack(TWO64);
    LoopCountIs(Decimal(TWO64));
  }

  // ---------------------------------------------------------------------------
  // The argument of return.

  function Pow10(k: nat): (p: nat)
    ensures p >= 1
  {
    if k == 0 then 1 else 10 * Pow10(k - 1)
  }

  lemma {:induction false} ValueBounds(s: string)
    requires AllDigits(s)
    ensures DecimalValue(s) < Pow10(|s|)
    ensures s != [] && s[0] != '0' ==> DecimalValue(s) >= Pow10(|s| - 1)
    decreases |s|
  {
    if s != [] {
      var n := |s| - 1;
      ValueBounds(s[..n]);
      if n == 0 {
        assert DecimalValue(s[..0]) == 0;
      } else {
        assert s[..n][0] == s[0];
      }
    }
  }

  lemma {:induction false} Pow10Grows(j: nat, k: nat)
    requires j <= k
    ensures Pow10(j) <= Pow10(k)
    decreases k
  {
    if j < k {
      Pow10Grows(j, k - 1);
    }
  }

  lemma TenDigits()
    ensures Pow10(9) == 1000000000 && Pow10(10) == 10000000000
  {
    assert Pow10(3) == 1000;
    assert Pow10(6) == 1000 * Pow10(3);
    assert Pow10(9) == 1000 * Pow10(6);
  }

  lemma {:induction false} LeadingZero(s: string, z: nat)
    requires z <= |s| && AllDigits(s[z..]) && forall i :: 0 <= i < z ==> s[i] == '0'
    ensures DecimalValue(s) == DecimalValue(s[z..])
    decreases |s|
  {
    if z == 0 {
      assert s[z..] == s;
    } else if z == |s| {
      LeadingZero(s[..z - 1], z - 1);
    } else {
      var n := |s| - 1;
      assert s[..n][z..] == s[z..][..n - z];
      LeadingZero(s[..n], z);
    }
  }

  /** Of two texts of digits of one length the first difference decides. */
  lemma {:induction false} FirstDifference(a: string, b: string, k: nat)
    requires AllDigits(a) && AllDigits(b) && |a| == |b| && k < |a| && a[..k] == b[..k] && a[k] > b[k]
    ensures DecimalValue(a) > DecimalValue(b)
    decreases |a|
  {
    var n := |a| - 1;
    if k == n {
      assert DigitValue(a[n]) > DigitValue(b[n]);
    } else {
      assert a[..n][..k] == a[..k] && b[..n][..k] == b[..k];
      FirstDifference(a[..n], b[..n], k);
    }
  }

  const LIMIT := "2147483647"

  lemma LimitStep(k: nat, v: nat)
    requires k < |LIMIT| && DecimalValue(LIMIT[..k]) == v
    ensures DecimalValue(LIMIT[..k + 1]) == v * 10 + DigitValue(LIMIT[k])
  {
    assert LIMIT[..k + 1][..k] == LIMIT[..k];
  }

  lemma LimitValue()
    ensures AllDigits(LIMIT) && DecimalValue(LIMIT) == INT_MAX
  {
    hide DecimalValue;
    assert DecimalValue(LIMIT[..0]) == 0 by { NoDigits(); }
    LimitStep(0, 0);
    LimitStep(1, 2);
    LimitStep(2, 21);
    LimitStep(3, 214);
    LimitStep(4, 2147);
    LimitStep(5, 21474);
    LimitStep(6, 214748);
    LimitStep(7, 2147483);
    LimitStep(8, 21474836);
    LimitStep(9, 214748364);
    assert LIMIT[..10] == LIMIT;
  }

  lemma NoDigits()
    ensures DecimalValue([]) == 0
  {
  }

  /** The byte comparison of two texts of one length. */
  method Greater(a: string, b: string) returns (gt: bool)
    requires AllDigits(a) && AllDigits(b) && |a| == |b|
    ensures gt <==> DecimalValue(a) > DecimalValue(b)
  {
    var k := 0;
    while k < |a| && a[k] == b[k]
      invariant 0 <= k <= |a| && a[..k] == b[..k]
    {
      k := k + 1;
    }
    gt := k < |a| && a[k] > b[k];
    if k == |a| {
      assert a[..k] == a && b[..k] == b;
    } else if gt {
      FirstDifference(a, b, k);
    } else {
      FirstDifference(b, a, k);
    }
  }

  /** number: is_number skips zeros, checks the digits, and compares with the largest int as
      text; only then is the text converted. */
  method ParseNumber(s: string) returns (ok: bool, value: nat)
    ensures ok <==> IsNumber(s)
    ensures ok ==> value == DecimalValue(s)
  {
    value := 0;
    if s == [] {
      return false, 0;
    }
    var p := 0;
    while p < |s| && s[p] == '0'
      invariant 0 <= p <= |s| && forall i :: 0 <= i < p ==> s[i] == '0'
    {
      p := p + 1;
    }
    var q := p;
    while q < |s|
      invariant p <= q <= |s| && forall i :: 0 <= i < q ==> IsDigit(s[i])
    {
      if !IsDigit(s[q]) {
        return false, 0;
      }
      q := q + 1;
    }
    ok := FitsInt(s, p);
    if ok {
      DigitsAccumulate(s, []);
      assert s + [] == s;
      value := ReadDigits(s, 10, 0).acc;
    }
  }

  method FitsInt(s: string, p: nat) returns (ok: bool)
    requires p <= |s| && AllDigits(s) && (p < |s| ==> s[p] != '0') && forall i :: 0 <= i < p ==> s[i] == '0'
    ensures ok <==> DecimalValue(s) <= INT_MAX
  {
    var t := s[p..];
    LeadingZero(s, p);
    ValueBounds(t);
    TenDigits();
    LimitValue();
    if |t| > 10 {
      Pow10Grows(10, |t| - 1);
      return false;
    }
    if |t| == 10 {
      var gt := Greater(t, LIMIT);
      return !gt;
    }
    Pow10Grows(|t|, 9);
    ok := true;
  }
}
