/** Bytes as numbers, and their bits. */
module Bytes {

  type Byte = b: int | 0 <= b < 256

  function Min(a: nat, b: nat): nat { if a <= b then a else b }

  /** The n lowest binary digits of a number, most significant first. */
  function LowBits(x: nat, n: nat): (bits: seq<bool>)
    ensures |bits| == n
  {
    if n == 0 then [] else LowBits(x / 2, n - 1) + [x % 2 == 1]
  }

  function Bits(b: Byte): (bits: seq<bool>)
    ensures |bits| == 8
  {
    LowBits(b, 8)
  }

  function Pow2(n: nat): nat { if n == 0 then 1 else 2 * Pow2(n - 1) }

  lemma {:induction false} LowBitsInjective(x: nat, y: nat, n: nat)
    requires x < Pow2(n) && y < Pow2(n) && LowBits(x, n) == LowBits(y, n)
    ensures x == y
  {
    if n > 0 {
      var a, b := LowBits(x, n), LowBits(y, n);
      assert a[..n - 1] == LowBits(x / 2, n - 1) && b[..n - 1] == LowBits(y / 2, n - 1);
      assert a[n - 1] == b[n - 1];
      LowBitsInjective(x / 2, y / 2, n - 1);
    }
  }

  lemma BitsInjective(a: Byte, b: Byte)
    requires Bits(a) == Bits(b)
    ensures a == b
  {
    assert Pow2(4) == 16 && Pow2(8) == 256;
    LowBitsInjective(a, b, 8);
  }
}
