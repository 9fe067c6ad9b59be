/** The kernel's memory copies: eight bytes at a time, on ranges that may overlap.

    Memory is an array of bytes indexed by address; address 0 is the null pointer.
 */
module ByteCopy {
  import opened Basics

  /** Memory after `n` bytes at `s` have been moved to `d`. */
  function Moved(m: seq<Byte>, d: nat, s: nat, n: nat): (r: seq<Byte>)
    requires d + n <= |m| && s + n <= |m|
    ensures |r| == |m|
    ensures forall k :: 0 <= k < |m| ==> r[k] == if d <= k < d + n then m[s + (k - d)] else m[k]
  {
    m[..d] + m[s..s + n] + m[d + n..]
  }

  /** Moving the bytes before and then those after position `i`, when the first move does not
      touch the source of the second, is moving all of them. */
  lemma MovedForward(m: seq<Byte>, d: nat, s: nat, i: nat, n: nat)
    requires i <= n && d + n <= |m| && s + n <= |m|
    requires d <= s || s + n <= d
    ensures Moved(Moved(m, d, s, i), d + i, s + i, n - i) == Moved(m, d, s, n)
  {
    var front := Moved(m, d, s, i);
    var both := Moved(front, d + i, s + i, n - i);
    forall k | 0 <= k < |m|
      ensures both[k] == Moved(m, d, s, n)[k]
    {
      if d + i <= k < d + n {
        assert front[s + i + (k - (d + i))] == m[s + (k - d)];
      }
    }
  }

  /** The same from the other end. */
  lemma MovedBackward(m: seq<Byte>, d: nat, s: nat, i: nat, n: nat)
    requires i <= n && d + n <= |m| && s + n <= |m|
    requires s <= d
    ensures Moved(Moved(m, d + i, s + i, n - i), d, s, i) == Moved(m, d, s, n)
  {
    var back := Moved(m, d + i, s + i, n - i);
    var both := Moved(back, d, s, i);
    forall k | 0 <= k < |m|
      ensures both[k] == Moved(m, d, s, n)[k]
    {
      if d <= k < d + i {
        assert back[s + (k - d)] == m[s + (k - d)];
      }
    }
  }

  /** One 64-bit load and store: all eight bytes are read before any is written. */
  method CopyQword(mem: array<Byte>, d: nat, s: nat)
    requires d + 8 <= mem.Length && s + 8 <= mem.Length
    modifies mem
    ensures mem[..] == Moved(old(mem[..]), d, s, 8)
  {
    var q := mem[s..s + 8];
    for k := 0 to 8
      invariant forall j :: 0 <= j < mem.Length ==> mem[j] == if d <= j < d + k then q[j - d] else old(mem[j])
    {
      mem[d + k] := q[k];
    }
  }

  method CopyByte(mem: array<Byte>, d: nat, s: nat)
    requires d < mem.Length && s < mem.Length
    modifies mem
    ensures mem[..] == Moved(old(mem[..]), d, s, 1)
  {
    mem[d] := mem[s];
  }

  /** memcpy: quadwords upwards, then the remaining bytes.  It is right whenever the
      destination does not start inside the source. */
  method MemCpy(mem: array<Byte>, dest: nat, src: nat, n: nat) returns (r: nat)
    requires dest + n <= mem.Length && src + n <= mem.Length
    requires dest <= src || src + n <= dest
    modifies mem
    ensures r == dest
    ensures mem[..] == if dest == 0 || src == 0 then old(mem[..]) else Moved(old(mem[..]), dest, src, n)
  {
    hide Moved;
    r := dest;
    ghost var m := mem[..];
    if dest == 0 || src == 0 || n == 0 {
      NothingMoved(m, dest, src);
      return;
    }
    var i: nat := 0;
    var qwords := n / 8;
    NothingMoved(m, dest, src);
    while qwords > 0
      invariant 0 <= qwords && i + 8 * qwords + n % 8 == n
      invariant mem[..] == Moved(m, dest, src, i)
    {
      MovedForward(m, dest, src, i, i + 8);
      CopyQword(mem, dest + i, src + i);
      i := i + 8;
      qwords := qwords - 1;
    }
    var rem := n % 8;
    while rem > 0
      invariant 0 <= rem && i + rem == n
      invariant mem[..] == Moved(m, dest, src, i)
    {
      MovedForward(m, dest, src, i, i + 1);
      CopyByte(mem, dest + i, src + i);
      i := i + 1;
      rem := rem - 1;
    }
  }

  lemma NothingMoved(m: seq<Byte>, d: nat, s: nat)
    requires d <= |m| && s <= |m|
    ensures Moved(m, d, s, 0) == m
  {
  }

  /** memmove: right for every length and every overlap.  Below the source it goes upwards
      through memcpy; inside the source it goes downwards, the odd bytes at the top first. */
  method MemMove(mem: array<Byte>, dest: nat, src: nat, n: nat) returns (r: nat)
    requires dest + n <= mem.Length && src + n <= mem.Length
    modifies mem
    ensures r == dest
    ensures mem[..] == if dest == 0 || src == 0 then old(mem[..]) else Moved(old(mem[..]), dest, src, n)
  {
    hide Moved;
    r := dest;
    ghost var m := mem[..];
    if dest == 0 || src == 0 || n == 0 || dest == src {
      NothingMoved(m, dest, src);
      if dest == src {
        MovedOntoItself(m, dest, n);
      }
      return;
    }
    if dest < src || dest >= src + n {
      r := MemCpy(mem, dest, src, n);
      return;
    }
    var i: nat := n;
    NothingMoved(m, dest + n, src + n);
    var rem := n % 8;
    while rem > 0
      invariant 0 <= rem <= i <= n && i == n / 8 * 8 + rem
      invariant mem[..] == Moved(m, dest + i, src + i, n - i)
    {
      MovedBackward(m, dest + (i - 1), src + (i - 1), 1, n - (i - 1));
      CopyByte(mem, dest + (i - 1), src + (i - 1));
      i := i - 1;
      rem := rem - 1;
    }
    var qwords := n / 8;
    while qwords > 0
      invariant 0 <= qwords && i == 8 * qwords
      invariant i <= n && mem[..] == Moved(m, dest + i, src + i, n - i)
    {
      MovedBackward(m, dest + (i - 8), src + (i - 8), 8, n - (i - 8));
      CopyQword(mem, dest + (i - 8), src + (i - 8));
      i := i - 8;
      qwords := qwords - 1;
    }
  }

  lemma MovedOntoItself(m: seq<Byte>, d: nat, n: nat)
    requires d + n <= |m|
    ensures Moved(m, d, d, n) == m
  {
  }
}
