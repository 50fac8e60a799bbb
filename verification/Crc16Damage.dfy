/** Which damage the checksum of the file transfer always notices. */
module Crc16Damage {
  import opened Bytes
  import opened Crc16

  // ---- Bursts ----

  /** The register after some more bits. */
  function ShiftAll(r: Word, bits: seq<bool>): Word
    decreases |bits|
  {
    if bits == [] then r else ShiftAll(ShiftIn(r, bits[0]), bits[1..])
  }

  lemma {:induction false} AheadThenMore(bits: seq<bool>, more: seq<bool>)
    ensures Ahead(bits + more) == ShiftAll(Ahead(bits), more)
    decreases |more|
  {
    if more == [] {
      assert bits + more == bits;
    } else {
      OneMoreBit(bits, more[0]);
      AheadThenMore(bits + [more[0]], more[1..]);
      assert bits + more == bits + [more[0]] + more[1..];
    }
  }

  /** Registers that agree from place j on after a bit took in the same sum, and agreed from place j + 1 on before. */
  lemma OneBitBack(r: Word, x: bool, s: Word, y: bool, j: nat)
    requires j <= 15 && ShiftIn(r, x)[j..] == ShiftIn(s, y)[j..]
    ensures (r[0] != x) == (s[0] != y) && r[j + 1..] == s[j + 1..]
  {
    var a, b := ShiftIn(r, x), ShiftIn(s, y);
    assert a[j..][15 - j] == b[j..][15 - j];
    ShiftInAt(r, x, 15);
    ShiftInAt(s, y, 15);
    forall i | j + 1 <= i < 16 ensures r[i] == s[i] {
      assert a[j..][i - 1 - j] == b[j..][i - 1 - j];
      ShiftInAt(r, x, i - 1);
      ShiftInAt(s, y, i - 1);
    }
  }

  lemma {:induction false} BitsBack(r: Word, m: seq<bool>, s: Word, n: seq<bool>, j: nat)
    requires |m| == |n| && j + |m| <= 16 && ShiftAll(r, m)[j..] == ShiftAll(s, n)[j..]
    ensures r[j + |m|..] == s[j + |m|..] && (m != [] ==> (r[0] != m[0]) == (s[0] != n[0]))
    decreases |m|
  {
    if m != [] {
      var k := j + |m| - 1;
      BitsBack(ShiftIn(r, m[0]), m[1..], ShiftIn(s, n[0]), n[1..], j);
      OneBitBack(r, m[0], s, n[0], k);
    }
  }

  /** Sixteen bits all leave a trace: they can be told apart afterwards. */
  lemma {:induction false} BurstInjective(r: Word, m: seq<bool>, n: seq<bool>)
    requires |m| == |n| <= 16 && ShiftAll(r, m) == ShiftAll(r, n)
    ensures m == n
    decreases |m|
  {
    if m != [] {
      BitsBack(r, m, r, n, 0);
      BurstInjective(ShiftIn(r, m[0]), m[1..], n[1..]);
      assert m == [m[0]] + m[1..] && n == [n[0]] + n[1..];
    }
  }

  /** A difference between registers is never shifted away. */
  lemma {:induction false} DifferenceStays(r: Word, s: Word, bits: seq<bool>)
    requires ShiftAll(r, bits) == ShiftAll(s, bits)
    ensures r == s
    decreases |bits|
  {
    if bits != [] {
      DifferenceStays(ShiftIn(r, bits[0]), ShiftIn(s, bits[0]), bits[1..]);
      OneBitBack(r, bits[0], s, bits[0], 0);
      assert r == [r[0]] + r[1..] && s == [s[0]] + s[1..];
    }
  }

  /** Two messages of one length that differ, but only inside w bits from bit k on. */
  ghost predicate DifferInsideBurst(m: seq<bool>, n: seq<bool>, k: nat, w: nat) {
    k + w <= |m| == |n| && m != n && m[..k] == n[..k] && m[k + w..] == n[k + w..]
  }

  /** Taking in a message is taking in its three parts in turn. */
  lemma InThreeParts(m: seq<bool>, k: nat, w: nat)
    requires k + w <= |m|
    ensures Ahead(m) == ShiftAll(ShiftAll(Ahead(m[..k]), m[k..k + w]), m[k + w..])
  {
    InTwoParts(m, k + w);
    InTwoParts(m[..k + w], k);
    assert m[..k + w][..k] == m[..k] && m[..k + w][k..] == m[k..k + w];
  }

  lemma InTwoParts(m: seq<bool>, k: nat)
    requires k <= |m|
    ensures Ahead(m) == ShiftAll(Ahead(m[..k]), m[k..])
  {
    AheadThenMore(m[..k], m[k..]);
    assert m == m[..k] + m[k..];
  }

  lemma SameBurst(r: Word, m: seq<bool>, n: seq<bool>, rest: seq<bool>)
    requires |m| == |n| <= 16 && ShiftAll(ShiftAll(r, m), rest) == ShiftAll(ShiftAll(r, n), rest)
    ensures m == n
  {
    DifferenceStays(ShiftAll(r, m), ShiftAll(r, n), rest);
    BurstInjective(r, m, n);
  }

  /** A burst of up to sixteen bits, wherever it starts, is always noticed. */
  lemma BurstDetected(a: seq<Byte>, b: seq<Byte>, k: nat, w: nat)
    requires w <= 16 && DifferInsideBurst(MessageBits(a), MessageBits(b), k, w)
    ensures Crc(a) != Crc(b)
  {
    CrcIsAhead(a);
    CrcIsAhead(b);
    BurstChangesRegister(MessageBits(a), MessageBits(b), k, w);
  }

  lemma BurstChangesRegister(m: seq<bool>, n: seq<bool>, k: nat, w: nat)
    requires w <= 16 && DifferInsideBurst(m, n, k, w)
    ensures Ahead(m) != Ahead(n)
  {
    assert m[k..k + w] != n[k..k + w] by {
      assert m == m[..k] + m[k..k + w] + m[k + w..];
      assert n == n[..k] + n[k..k + w] + n[k + w..];
    }
    InThreeParts(m, k, w);
    InThreeParts(n, k, w);
    if Ahead(m) == Ahead(n) {
      SameBurst(Ahead(m[..k]), m[k..k + w], n[k..k + w], m[k + w..]);
    }
  }

  // ---- Odd numbers of flipped bits ----

  function Parity(bits: seq<bool>): bool {
    if bits == [] then false else Parity(bits[..|bits| - 1]) != bits[|bits| - 1]
  }

  /** How many bits differ. */
  function FlipCount(m: seq<bool>, n: seq<bool>): nat
    requires |m| == |n|
  {
    if m == [] then 0
    else
      var k := |m| - 1;
      FlipCount(m[..k], n[..k]) + if m[k] != n[k] then 1 else 0
  }

  lemma {:induction false} FlipsAndParity(m: seq<bool>, n: seq<bool>)
    requires |m| == |n|
    ensures FlipCount(m, n) % 2 == 1 <==> Parity(m) != Parity(n)
  {
    if m != [] {
      FlipsAndParity(m[..|m| - 1], n[..|n| - 1]);
    }
  }

  lemma {:induction false} ParityOfXor(a: Word, b: Word, n: nat)
    requires n <= 16
    ensures Parity(Xor(a, b)[..n]) == (Parity(a[..n]) != Parity(b[..n]))
  {
    if n > 0 {
      ParityOfXor(a, b, n - 1);
      assert Xor(a, b)[..n][..n - 1] == Xor(a, b)[..n - 1];
      assert a[..n][..n - 1] == a[..n - 1] && b[..n][..n - 1] == b[..n - 1];
    }
  }

  lemma {:induction false} ParityFromFront(bits: seq<bool>)
    requires bits != []
    ensures Parity(bits) == (bits[0] != Parity(bits[1..]))
  {
    var n := |bits| - 1;
    if n == 0 {
      assert bits[..0] == [] && bits[1..] == [];
    } else {
      ParityFromFront(bits[..n]);
      assert bits[..n][1..] == bits[1..][..n - 1];
    }
  }

  /** The generator has three terms below the one of degree 16, so an even number in all. */
  lemma GeneratorOdd()
    ensures Parity(GENERATOR)
  {
    var one := [] + Zeros(3) + [true];
    var two := one + Zeros(6) + [true];
    RunThenOne([], 3);
    RunThenOne(one, 6);
    RunThenOne(two, 4);
    ZerosAreFalse(3);
    ZerosAreFalse(6);
    ZerosAreFalse(4);
    assert GENERATOR == two + Zeros(4) + [true];
  }

  lemma {:induction false} RunThenOne(bits: seq<bool>, n: nat)
    ensures Parity(bits + Zeros(n)) == Parity(bits)
    ensures Parity(bits + Zeros(n) + [true]) != Parity(bits)
  {
    if n == 0 {
      assert bits + Zeros(0) == bits;
    } else {
      RunThenOne(bits, n - 1);
      assert (bits + Zeros(n))[..|bits| + |Zeros(n)| - 1] == bits + Zeros(n - 1);
    }
    var longer := bits + Zeros(n) + [true];
    assert longer[..|longer| - 1] == bits + Zeros(n);
  }

  lemma ParityShiftsIn(r: Word, bit: bool)
    ensures Parity(ShiftIn(r, bit)) == (Parity(r) != bit)
  {
    var shifted: Word := r[1..] + [false];
    ParityFromFront(r);
    assert shifted[..15] == r[1..];
    if r[0] != bit {
      ParityOfXor(shifted, GENERATOR, 16);
      assert shifted[..16] == shifted && GENERATOR[..16] == GENERATOR;
      assert Xor(shifted, GENERATOR)[..16] == ShiftIn(r, bit);
      GeneratorOdd();
    }
  }

  /** The checksum has the parity of the message, since x + 1 divides the generator. */
  lemma {:induction false} ParityKept(bits: seq<bool>)
    ensures Parity(Ahead(bits)) == Parity(bits)
  {
    if bits == [] {
      ZeroStepsOfZero(16);
      ZerosAreFalse(16);
      RunThenOne([], 16);
      assert [] + Zeros(16) == ZERO;
    } else {
      var n := |bits| - 1;
      ParityKept(bits[..n]);
      OneMoreBit(bits[..n], bits[n]);
      assert bits == bits[..n] + [bits[n]];
      ParityShiftsIn(Ahead(bits[..n]), bits[n]);
    }
  }

  /** Two messages of one length that differ in an odd number of bits, wherever these are. */
  ghost predicate DifferInOddBits(a: seq<Byte>, b: seq<Byte>) {
    |a| == |b| && FlipCount(MessageBits(a), MessageBits(b)) % 2 == 1
  }

  /** An odd number of flipped bits is always noticed. */
  lemma OddFlipsDetected(a: seq<Byte>, b: seq<Byte>)
    requires DifferInOddBits(a, b)
    ensures Crc(a) != Crc(b)
  {
    CrcIsAhead(a);
    CrcIsAhead(b);
    ParityKept(MessageBits(a));
    ParityKept(MessageBits(b));
    FlipsAndParity(MessageBits(a), MessageBits(b));
  }

  // ---- What a channel may do to a message ----

  datatype Damage = InTwoBytes(k: nat) | InBurst(k: nat, w: nat) | InOddBits

  ghost predicate Damaged(a: seq<Byte>, b: seq<Byte>, d: Damage) {
    match d
    case InTwoBytes(k) => DifferInsideTwoBytes(a, b, k)
    case InBurst(k, w) => w <= 16 && DifferInsideBurst(MessageBits(a), MessageBits(b), k, w)
    case InOddBits => DifferInOddBits(a, b)
  }

  lemma DamageDetected(a: seq<Byte>, b: seq<Byte>, d: Damage)
    requires Damaged(a, b, d)
    ensures Crc(a) != Crc(b)
  {
    match d
    case InTwoBytes(k) => AdjacentBytesDetected(a, b, k);
    case InBurst(k, w) => BurstDetected(a, b, k, w);
    case InOddBits => OddFlipsDetected(a, b);
  }
}
