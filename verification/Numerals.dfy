/** Positional notation, as a relation between a text and a number: the alphabet lists the
    digits in order, and its length is the base.
 */
module Numerals {

  const OCTAL := "01234567"
  const DECIMAL := "0123456789"
  const HEX := "0123456789abcdef"
  const UPPER_HEX := "0123456789ABCDEF"

  /** `t` is a numeral of `v`: its last digit stands for the remainder by the base, and what
      precedes it for the quotient. */
  predicate Denotes(alphabet: string, t: string, v: nat)
    requires |alphabet| >= 2
  {
    && t != []
    && t[|t| - 1] == alphabet[v % |alphabet|]
    && (if |t| == 1 then v < |alphabet| else Denotes(alphabet, t[..|t| - 1], v / |alphabet|))
  }

  /** The numeral begins with a zero only when it is that digit alone. */
  predicate Shortest(alphabet: string, t: string, v: nat)
    requires |alphabet| >= 2
  {
    Denotes(alphabet, t, v) && (|t| == 1 || t[0] != alphabet[0])
  }

  lemma {:induction false} OneDigit(alphabet: string, v: nat)
    requires |alphabet| >= 2 && v < |alphabet|
    ensures Denotes(alphabet, [alphabet[v]], v)
  {
    assert v % |alphabet| == v;
  }

  lemma {:induction false} OneMoreDigit(alphabet: string, t: string, v: nat)
    requires |alphabet| >= 2 && Denotes(alphabet, t, v / |alphabet|)
    ensures Denotes(alphabet, t + [alphabet[v % |alphabet|]], v)
  {
    assert (t + [alphabet[v % |alphabet|]])[..|t|] == t;
  }

  /** The last digit and what precedes it. */
  lemma {:induction false} LastDigit(alphabet: string, t: string, v: nat) returns (q: nat, d: nat)
    requires |alphabet| >= 2 && Denotes(alphabet, t, v)
    ensures v == q * |alphabet| + d && d < |alphabet| && t != [] && t[|t| - 1] == alphabet[d]
    ensures if |t| == 1 then q == 0 else Denotes(alphabet, t[..|t| - 1], q)
  {
    q, d := v / |alphabet|, v % |alphabet|;
    if |t| == 1 {
      NoQuotient(v, |alphabet|);
    }
  }

  lemma NoQuotient(v: nat, base: nat)
    requires v < base
    ensures v / base == 0
  {
  }
}
