/** Definitions that several components share.
 */
module Basics {

  datatype Option<T> = None | Some(value: T)

  type Byte = b: int | 0 <= b < 256

  const INT_MAX: nat := 0x7FFF_FFFF
  const TWO32 := 0x1_0000_0000
  const TWO64 := 0x1_0000_0000_0000_0000

  function Min(a: int, b: int): int {
    if a < b then a else b
  }

  predicate IsAbsolute(path: string) {
    path != [] && path[0] == '/'
  }

  /** A character of a C string, modelled by the characters before the terminating NUL. */
  function At(s: string, p: nat := 0): char {
    if p < |s| then s[p] else '\0'
  }

  function Pow2(k: nat): (p: nat)
    ensures p >= 1
  {
    if k == 0 then 1 else 2 * Pow2(k - 1)
  }

  lemma Pow2Of64()
    ensures Pow2(64) == TWO64
  {
    assert Pow2(8) == 256;
    assert Pow2(16) == 256 * Pow2(8);
    assert Pow2(24) == 256 * Pow2(16);
    assert Pow2(32) == 256 * Pow2(24);
    assert Pow2(40) == 256 * Pow2(32);
    assert Pow2(48) == 256 * Pow2(40);
    assert Pow2(56) == 256 * Pow2(48);
    assert Pow2(64) == 256 * Pow2(56);
  }

  function CharSum(s: string): nat {
    if s == [] then 0 else s[0] as nat + CharSum(s[1..])
  }

  /** The hash of the shell's symbol tables, in 32-bit unsigned arithmetic. */
  function StringHash(name: string, size: nat): (h: nat)
    requires size > 0
    ensures h < size
  {
    var first := if name == [] then 0 else name[0] as nat * 16;
    (first + CharSum(name)) % TWO32 % size
  }
}
