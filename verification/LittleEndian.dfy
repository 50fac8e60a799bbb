/** Numbers as bytes, lowest byte first, as struct packs and unpacks them. */
module LittleEndian {
  import opened Bytes
  import opened Throttle

  function Pow256(n: nat): nat { if n == 0 then 1 else 256 * Pow256(n - 1) }

  function LowByte(x: nat): Byte { x % 256 }

  /** The n lowest bytes of a number. */
  function Pack(x: nat, n: nat): (b: seq<Byte>)
    ensures |b| == n
  {
    if n == 0 then [] else [LowByte(x)] + Pack(x / 256, n - 1)
  }

  function Unpack(b: seq<Byte>): nat {
    if b == [] then 0 else Add(b[0], Unpack(b[1..]))
  }

  function Add(low: nat, high: nat): nat { low + 256 * high }

  lemma {:induction false} UnpackPack(x: nat, n: nat)
    requires x < Pow256(n)
    ensures Unpack(Pack(x, n)) == x
  {
    if n > 0 {
      UnpackPack(x / 256, n - 1);
      assert Pack(x, n)[1..] == Pack(x / 256, n - 1);
    }
  }

  function Pack32(x: nat): (b: seq<Byte>)
    ensures |b| == 4
  {
    Pack(x, 4)
  }

  function PackAll(words: seq<nat>): (b: seq<Byte>)
    ensures |b| == 4 * |words|
  {
    if words == [] then [] else PackAll(words[..|words| - 1]) + Pack32(words[|words| - 1])
  }

  /** The i-th 32-bit word of a header. */
  function WordAt(b: seq<Byte>, i: nat): nat
    requires 4 * i + 4 <= |b|
  {
    Unpack(b[4 * i..4 * i + 4])
  }

  lemma {:induction false} WordAtPackAll(words: seq<nat>, rest: seq<Byte>, i: nat)
    requires i < |words| && words[i] < TWO_TO_THE_32
    ensures WordAt(PackAll(words) + rest, i) == words[i]
  {
    var front, last := words[..|words| - 1], words[|words| - 1];
    if i == |words| - 1 {
      assert (PackAll(words) + rest)[4 * i..4 * i + 4] == Pack32(last);
      assert Pow256(2) == 0x1_0000 && Pow256(4) == TWO_TO_THE_32;
      UnpackPack(last, 4);
    } else {
      WordAtPackAll(front, Pack32(last) + rest, i);
      assert PackAll(words) + rest == PackAll(front) + (Pack32(last) + rest);
    }
  }
}
