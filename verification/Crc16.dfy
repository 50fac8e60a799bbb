/** The checksum of the file-transfer protocol: a byte-parallel CRC-16, and the polynomial long division over GF(2)
    that it stands for. */
module Crc16 {
  import opened Bytes

  /** A 16-bit word as its bits, most significant first; also a polynomial of degree below 16. */
  type Word = w: seq<bool> | |w| == 16 witness ZERO

  const ZERO: seq<bool> :=
    [false, false, false, false, false, false, false, false, false, false, false, false, false, false, false, false]

  // x^12 + x^5 + 1: the generator of section 2 of ITU-T V.41 without its leading term x^16.
  const GENERATOR: Word :=
    [false, false, false, true, false, false, false, false, false, false, true, false, false, false, false, true]

  function Xor(a: Word, b: Word): Word { seq(16, i requires 0 <= i < 16 => a[i] != b[i]) }

  function Or(a: Word, b: Word): Word { seq(16, i requires 0 <= i < 16 => a[i] || b[i]) }

  function ShiftLeft(a: Word, k: nat): Word
    requires k <= 16
  {
    seq(16, i requires 0 <= i < 16 => i + k < 16 && a[i + k])
  }

  function ShiftRight(a: Word, k: nat): Word
    requires k <= 16
  {
    seq(16, i requires 0 <= i < 16 => k <= i && a[i - k])
  }

  function LowByte(a: Word): Word { seq(16, i requires 0 <= i < 16 => 8 <= i && a[i]) }

  function Extend(b: Byte): Word { seq(16, i requires 0 <= i < 16 => 8 <= i && Bits(b)[i - 8]) }

  /** The loop body of crc16_ccitt. */
  function AbsorbByte(crc: Word, b: Byte): Word {
    var c0 := Or(ShiftRight(crc, 8), ShiftLeft(crc, 8));
    var c1 := Xor(c0, Extend(b));
    var c2 := Xor(c1, ShiftRight(LowByte(c1), 4));
    var c3 := Xor(c2, ShiftLeft(ShiftLeft(c2, 8), 4));
    Xor(c3, ShiftLeft(ShiftLeft(LowByte(c3), 4), 1))
  }

  /** The value the loop computes. What it means is CrcIsRemainder below. */
  function Crc(buffer: seq<Byte>): Word {
    if buffer == [] then ZERO else AbsorbByte(Crc(buffer[..|buffer| - 1]), buffer[|buffer| - 1])
  }

  /** One step of long division: bring down a coefficient, and subtract the generator if a term of degree 16 appears. */
  function DivideBit(r: Word, bit: bool): Word {
    var shifted := r[1..] + [bit];
    if r[0] then Xor(shifted, GENERATOR) else shifted
  }

  /** The remainder of the polynomial with these coefficients (highest first) after division by the generator. */
  function Remainder(bits: seq<bool>): Word {
    if bits == [] then ZERO else DivideBit(Remainder(bits[..|bits| - 1]), bits[|bits| - 1])
  }

  function MessageBits(buffer: seq<Byte>): (bits: seq<bool>)
    ensures |bits| == 8 * |buffer|
  {
    if buffer == [] then [] else MessageBits(buffer[..|buffer| - 1]) + Bits(buffer[|buffer| - 1])
  }

  method Crc16Ccitt(buffer: seq<Byte>) returns (crc: Word)
    ensures crc == Crc(buffer)
    ensures crc == Remainder(MessageBits(buffer) + ZERO)
  {
    crc := ZERO;
    var i := 0;
    while i != |buffer|
      invariant 0 <= i <= |buffer|
      invariant crc == Crc(buffer[..i])
    {
      assert buffer[..i + 1][..i] == buffer[..i];
      crc := Or(ShiftRight(crc, 8), ShiftLeft(crc, 8));
      crc := Xor(crc, Extend(buffer[i]));
      crc := Xor(crc, ShiftRight(LowByte(crc), 4));
      crc := Xor(crc, ShiftLeft(ShiftLeft(crc, 8), 4));
      crc := Xor(crc, ShiftLeft(ShiftLeft(LowByte(crc), 4), 1));
      i := i + 1;
    }
    assert buffer[..i] == buffer;
    CrcIsRemainder(buffer);
  }

  method Check(buffer: seq<Byte>, expected: Word) returns (ok: bool)
    ensures ok <==> Remainder(MessageBits(buffer) + ZERO) == expected
    ensures ok <==> Crc(buffer) == expected
  {
    var crc := Crc16Ccitt(buffer);
    ok := crc == expected;
  }

  // ---- The byte-parallel form is the long division ----

  function ZeroSteps(r: Word, n: nat): Word {
    if n == 0 then r else DivideBit(ZeroSteps(r, n - 1), false)
  }

  /** A division step on a register kept sixteen places ahead of the message. */
  function ShiftIn(r: Word, bit: bool): Word {
    var shifted := r[1..] + [false];
    if r[0] != bit then Xor(shifted, GENERATOR) else shifted
  }

  function BitWord(bit: bool): Word { ZERO[..15] + [bit] }

  lemma DivideZeroLinear(a: Word, b: Word)
    ensures DivideBit(Xor(a, b), false) == Xor(DivideBit(a, false), DivideBit(b, false))
  {}

  lemma {:induction false} ZeroStepsLinear(a: Word, b: Word, n: nat)
    ensures ZeroSteps(Xor(a, b), n) == Xor(ZeroSteps(a, n), ZeroSteps(b, n))
  {
    if n > 0 {
      ZeroStepsLinear(a, b, n - 1);
      DivideZeroLinear(ZeroSteps(a, n - 1), ZeroSteps(b, n - 1));
    }
  }

  lemma {:induction false} ZeroStepsCommute(r: Word, n: nat)
    ensures ZeroSteps(DivideBit(r, false), n) == DivideBit(ZeroSteps(r, n), false)
  {
    if n > 0 { ZeroStepsCommute(r, n - 1); }
  }

  lemma {:induction false} ZeroStepsOfZero(n: nat)
    ensures ZeroSteps(ZERO, n) == ZERO
  {
    if n > 0 { ZeroStepsOfZero(n - 1); }
  }

  /** A single term is only moved up until it reaches degree 16. */
  lemma {:induction false} ZeroStepsOfOne(n: nat)
    requires n < 16
    ensures ZeroSteps(BitWord(true), n) == seq(16, i => i == 15 - n)
  {
    if n > 0 { ZeroStepsOfOne(n - 1); }
  }

  /** x^16 leaves the generator's lower terms. */
  lemma ZeroStepsOfBit(bit: bool)
    ensures ZeroSteps(BitWord(bit), 16) == if bit then GENERATOR else ZERO
  {
    if bit {
      ZeroStepsOfOne(15);
    } else {
      assert BitWord(false) == ZERO;
      ZeroStepsOfZero(16);
    }
  }

  /** Dividing one more message bit and then sixteen zeros is one step of the register that runs ahead. */
  lemma DivideThenZeros(r: Word, bit: bool)
    ensures ZeroSteps(DivideBit(r, bit), 16) == ShiftIn(ZeroSteps(r, 16), bit)
  {
    assert DivideBit(r, bit) == Xor(DivideBit(r, false), BitWord(bit));
    ZeroStepsLinear(DivideBit(r, false), BitWord(bit), 16);
    ZeroStepsCommute(r, 16);
    ZeroStepsOfBit(bit);
  }

  /** Up to four such steps at once: the sums of leading and message bits come in at three places. */
  function ShiftMany(r: Word, bits: seq<bool>): Word
    requires |bits| <= 4
  {
    var n := |bits|;
    seq(16, i requires 0 <= i < 16 =>
      ((i + n < 16 && r[i + n]) != (16 - n <= i && r[i - 16 + n] != bits[i - 16 + n]))
      != ((4 - n <= i < 4 && r[i - 4 + n] != bits[i - 4 + n])
          != (11 - n <= i < 11 && r[i - 11 + n] != bits[i - 11 + n])))
  }

  lemma ShiftManyStep(r: Word, bits: seq<bool>, bit: bool)
    requires |bits| < 4
    ensures ShiftIn(ShiftMany(r, bits), bit) == ShiftMany(r, bits + [bit])
  {
    var n := |bits|;
    var s := ShiftMany(r, bits);
    assert s[0] == r[n];
    forall i | 0 <= i < 16
      ensures ShiftIn(s, bit)[i] == ShiftMany(r, bits + [bit])[i]
    {
      ShiftInAt(s, bit, i);
    }
  }

  lemma ShiftInAt(r: Word, bit: bool, i: nat)
    requires i < 16
    ensures ShiftIn(r, bit)[i] == ((i < 15 && r[i + 1]) != ((i == 3 || i == 10 || i == 15) && r[0] != bit))
  {}

  /** The top byte of the register plus the new byte, its low nibble summed with its high nibble. */
  function Sums(r: Word, b: Byte): seq<bool> {
    seq(8, j requires 0 <= j < 8 => (r[j] != Bits(b)[j]) != (4 <= j && r[j - 4] != Bits(b)[j - 4]))
  }

  predicate AbsorbedAt(r: Word, u: seq<bool>, i: nat)
    requires |u| == 8 && i < 16
  {
    ((i < 8 && r[i + 8]) != (8 <= i && u[i - 8])) != ((i < 4 && u[i + 4]) != (3 <= i <= 10 && u[i - 3]))
  }

  lemma AbsorbByteAt(r: Word, b: Byte)
    ensures forall i :: 0 <= i < 16 ==> AbsorbByte(r, b)[i] == AbsorbedAt(r, Sums(r, b), i)
  {
    var u := Sums(r, b);
    var c0 := Or(ShiftRight(r, 8), ShiftLeft(r, 8));
    var c1 := Xor(c0, Extend(b));
    assert forall i :: 0 <= i < 8 ==> c1[i] == r[i + 8];
    assert forall i :: 8 <= i < 16 ==> c1[i] == (r[i - 8] != Bits(b)[i - 8]);
    var c2 := Xor(c1, ShiftRight(LowByte(c1), 4));
    assert forall i :: 0 <= i < 8 ==> c2[i] == r[i + 8];
    assert forall i :: 8 <= i < 16 ==> c2[i] == u[i - 8];
    FoldUp(r, u, c2);
  }

  lemma FoldUp(r: Word, u: seq<bool>, c2: Word)
    requires |u| == 8
    requires forall i :: 0 <= i < 8 ==> c2[i] == r[i + 8]
    requires forall i :: 8 <= i < 16 ==> c2[i] == u[i - 8]
    ensures var c3 := Xor(c2, ShiftLeft(ShiftLeft(c2, 8), 4));
            forall i :: 0 <= i < 16 ==>
              Xor(c3, ShiftLeft(ShiftLeft(LowByte(c3), 4), 1))[i] == AbsorbedAt(r, u, i)
  {
    var c3 := Xor(c2, ShiftLeft(ShiftLeft(c2, 8), 4));
    assert forall i :: 0 <= i < 4 ==> c3[i] == (r[i + 8] != u[i + 4]);
    assert forall i :: 4 <= i < 16 ==> c3[i] == c2[i];
  }

  lemma TwoNibblesAt(r: Word, b: Byte)
    ensures forall i :: 0 <= i < 16 ==>
      ShiftMany(ShiftMany(r, Bits(b)[..4]), Bits(b)[4..])[i] == AbsorbedAt(r, Sums(r, b), i)
  {
    var high, low := Bits(b)[..4], Bits(b)[4..];
    var s := ShiftMany(r, high);
    var t := ShiftMany(s, low);
    var u := Sums(r, b);
    assert forall j :: 0 <= j < 4 ==> u[j] == (r[j] != high[j]);
    assert forall i :: 0 <= i < 4 ==> s[i] == (r[i + 4] != u[i]);
    assert forall j :: 0 <= j < 4 ==> low[j] == Bits(b)[j + 4];
    assert forall j :: 4 <= j < 8 ==> (s[j - 4] != low[j - 4]) == u[j];
    assert forall j :: 0 <= j < 4 ==> (s[j] != low[j]) == u[4 + j];
    assert forall i :: 4 <= i < 7 ==> s[i] == r[i + 4];
    assert forall i :: 7 <= i < 11 ==> s[i] == (r[i + 4] != u[i - 7]);
    assert s[11] == r[15];
    assert forall i :: 12 <= i < 16 ==> s[i] == u[i - 12];
    assert forall i :: 0 <= i < 4 ==> t[i] == (s[i + 4] != u[i + 4]);
    assert forall i :: 4 <= i < 7 ==> t[i] == s[i + 4];
    assert forall i :: 7 <= i < 11 ==> t[i] == (s[i + 4] != u[i - 3]);
    assert t[11] == s[15];
    assert forall i :: 12 <= i < 16 ==> t[i] == u[i - 8];
  }

  lemma AbsorbIsTwoNibbles(r: Word, b: Byte)
    ensures AbsorbByte(r, b) == ShiftMany(ShiftMany(r, Bits(b)[..4]), Bits(b)[4..])
  {
    AbsorbByteAt(r, b);
    TwoNibblesAt(r, b);
  }

  /** The register sixteen places ahead of a message. */
  function Ahead(bits: seq<bool>): Word { ZeroSteps(Remainder(bits), 16) }

  lemma OneMoreBit(bits: seq<bool>, bit: bool)
    ensures Ahead(bits + [bit]) == ShiftIn(Ahead(bits), bit)
  {
    assert (bits + [bit])[..|bits|] == bits;
    DivideThenZeros(Remainder(bits), bit);
  }

  lemma {:induction false} MoreBits(bits: seq<bool>, more: seq<bool>)
    requires |more| <= 4
    ensures Ahead(bits + more) == ShiftMany(Ahead(bits), more)
  {
    if more == [] {
      assert bits + more == bits;
    } else {
      var front, last := more[..|more| - 1], more[|more| - 1];
      assert bits + more == bits + front + [last] && more == front + [last];
      MoreBits(bits, front);
      OneMoreBit(bits + front, last);
      ShiftManyStep(Ahead(bits), front, last);
    }
  }

  lemma {:induction false} CrcIsAhead(buffer: seq<Byte>)
    ensures Crc(buffer) == Ahead(MessageBits(buffer))
  {
    if buffer == [] {
      ZeroStepsOfZero(16);
    } else {
      var front, b := buffer[..|buffer| - 1], buffer[|buffer| - 1];
      var bits := MessageBits(front);
      CrcIsAhead(front);
      MoreBits(bits, Bits(b)[..4]);
      MoreBits(bits + Bits(b)[..4], Bits(b)[4..]);
      assert bits + Bits(b)[..4] + Bits(b)[4..] == bits + Bits(b);
      AbsorbIsTwoNibbles(Ahead(bits), b);
    }
  }

  function Zeros(n: nat): seq<bool> { if n == 0 then [] else Zeros(n - 1) + [false] }

  lemma {:induction false} RemainderThenZeros(bits: seq<bool>, n: nat)
    ensures Remainder(bits + Zeros(n)) == ZeroSteps(Remainder(bits), n)
  {
    if n == 0 {
      assert bits + Zeros(0) == bits;
    } else {
      RemainderThenZeros(bits, n - 1);
      assert (bits + Zeros(n))[..|bits + Zeros(n)| - 1] == bits + Zeros(n - 1);
    }
  }

  lemma {:induction false} ZerosAreFalse(n: nat)
    ensures |Zeros(n)| == n && forall i :: 0 <= i < n ==> !Zeros(n)[i]
  {
    if n > 0 { ZerosAreFalse(n - 1); }
  }

  /** The byte-parallel loop computes the remainder of the message times x^16. */
  lemma CrcIsRemainder(buffer: seq<Byte>)
    ensures Crc(buffer) == Remainder(MessageBits(buffer) + ZERO)
  {
    CrcIsAhead(buffer);
    RemainderThenZeros(MessageBits(buffer), 16);
    ZerosAreFalse(16);
    assert Zeros(16) == ZERO;
  }

  // ---- Error detection ----

  /** Registers that agree from place j on after four bits have absorbed the same four sums, and agreed from place
      j + 4 on before. */
  lemma NibbleBackwards(r: Word, m: seq<bool>, s: Word, n: seq<bool>, j: nat)
    requires |m| == |n| == 4 && j <= 12
    requires ShiftMany(r, m)[j..] == ShiftMany(s, n)[j..]
    ensures forall i :: 0 <= i < 4 ==> (r[i] != m[i]) == (s[i] != n[i])
    ensures r[j + 4..] == s[j + 4..]
  {
    var x, y := ShiftMany(r, m), ShiftMany(s, n);
    assert forall i :: j <= i < 16 ==> x[i] == x[j..][i - j] == y[i];
    forall i | 0 <= i < 4
      ensures (r[i] != m[i]) == (s[i] != n[i])
    {
      assert x[12 + i] == (r[i] != m[i]) && y[12 + i] == (s[i] != n[i]);
    }
    forall i | j + 4 <= i < 16
      ensures r[i] == s[i]
    {
      assert x[i - 4] == y[i - 4];
    }
  }

  /** A difference between registers is never shifted away. */
  lemma AbsorbInjective(r: Word, s: Word, b: Byte)
    requires AbsorbByte(r, b) == AbsorbByte(s, b)
    ensures r == s
  {
    AbsorbIsTwoNibbles(r, b);
    AbsorbIsTwoNibbles(s, b);
    SameNibble(ShiftMany(r, Bits(b)[..4]), ShiftMany(s, Bits(b)[..4]), Bits(b)[4..]);
    SameNibble(r, s, Bits(b)[..4]);
  }

  lemma SameNibble(r: Word, s: Word, n: seq<bool>)
    requires |n| == 4 && ShiftMany(r, n) == ShiftMany(s, n)
    ensures r == s
  {
    NibbleBackwards(r, n, s, n, 0);
    assert forall i :: 0 <= i < 4 ==> r[i] == s[i];
    assert r == r[..4] + r[4..] && s == s[..4] + s[4..];
  }

  /** The sixteen bits of two bytes all leave a trace: they can be told apart afterwards. */
  lemma AbsorbPairInjective(r: Word, a1: Byte, a2: Byte, b1: Byte, b2: Byte)
    requires AbsorbByte(AbsorbByte(r, a1), a2) == AbsorbByte(AbsorbByte(r, b1), b2)
    ensures a1 == b1 && a2 == b2
  {
    var ra, rb := ShiftMany(r, Bits(a1)[..4]), ShiftMany(r, Bits(b1)[..4]);
    var (sa, sb) := (AbsorbByte(r, a1), AbsorbByte(r, b1));
    var ta, tb := ShiftMany(sa, Bits(a2)[..4]), ShiftMany(sb, Bits(b2)[..4]);
    AbsorbIsTwoNibbles(r, a1);
    AbsorbIsTwoNibbles(r, b1);
    AbsorbIsTwoNibbles(sa, a2);
    AbsorbIsTwoNibbles(sb, b2);
    NibbleBackwards(ta, Bits(a2)[4..], tb, Bits(b2)[4..], 0);
    NibbleBackwards(sa, Bits(a2)[..4], sb, Bits(b2)[..4], 4);
    NibbleBackwards(ra, Bits(a1)[4..], rb, Bits(b1)[4..], 8);
    NibbleBackwards(r, Bits(a1)[..4], r, Bits(b1)[..4], 12);
    SameBits(Bits(a1)[..4], Bits(b1)[..4]);
    SameBits(Bits(a1)[4..], Bits(b1)[4..]);
    SameByte(a1, b1);
    SameBits(Bits(a2)[..4], Bits(b2)[..4]);
    SameBits(Bits(a2)[4..], Bits(b2)[4..]);
    SameByte(a2, b2);
  }

  lemma SameBits(m: seq<bool>, n: seq<bool>)
    requires |m| == |n| == 4 && forall i :: 0 <= i < 4 ==> m[i] == n[i]
    ensures m == n
  {}

  lemma SameByte(a: Byte, b: Byte)
    requires Bits(a)[..4] == Bits(b)[..4] && Bits(a)[4..] == Bits(b)[4..]
    ensures a == b
  {
    assert Bits(a) == Bits(a)[..4] + Bits(a)[4..] == Bits(b);
    BitsInjective(a, b);
  }

  /** Two buffers of one length that differ, but only inside two adjacent bytes. */
  ghost predicate DifferInsideTwoBytes(a: seq<Byte>, b: seq<Byte>, k: nat) {
    |a| == |b| && a != b && forall i: nat :: i < |a| && i != k && i != k + 1 ==> a[i] == b[i]
  }

  /** Such a pair never collides: damage inside two adjacent bytes is always noticed. */
  lemma {:induction false} AdjacentBytesDetected(a: seq<Byte>, b: seq<Byte>, k: nat)
    requires DifferInsideTwoBytes(a, b, k)
    ensures Crc(a) != Crc(b)
  {
    var n := |a| - 1;
    var fa, fb := a[..n], b[..n];
    assert a == fa + [a[n]] && b == fb + [b[n]];
    if a[n] == b[n] {
      AdjacentBytesDetected(fa, fb, k);
      if Crc(a) == Crc(b) { AbsorbInjective(Crc(fa), Crc(fb), a[n]); }
    } else if fa == fb {
      if Crc(a) == Crc(b) { SingleByteShows(Crc(fa), a[n], b[n]); }
    } else {
      assert n == k + 1;
      assert fa[..k] == fb[..k];
      var r := Crc(fa[..k]);
      assert Crc(fa) == AbsorbByte(r, a[k]) && Crc(fb) == AbsorbByte(r, b[k]);
      if Crc(a) == Crc(b) { AbsorbPairInjective(r, a[k], a[n], b[k], b[n]); }
    }
  }

  lemma SingleByteShows(r: Word, a: Byte, b: Byte)
    requires AbsorbByte(r, a) == AbsorbByte(r, b)
    ensures a == b
  {
    AbsorbPairInjective(r, a, 0, b, 0);
  }
}
