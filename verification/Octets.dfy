/** Bytes and 32-bit words as numbers, and the byte orders that relate them to larger numbers. */
module Octets {
  import opened Arithmetic
  import opened Words

  type Octet = n: int | 0 <= n < 256 witness 0

  type Word32 = n: int | 0 <= n < U32 witness 0

  /** The number whose most significant byte comes first. */
  function BigEndian(b: seq<Octet>): nat
    decreases |b|
  {
    if b == [] then 0 else 256 * BigEndian(b[..|b| - 1]) + b[|b| - 1]
  }

  lemma {:induction false} BigEndianInjective(a: seq<Octet>, b: seq<Octet>)
    requires |a| == |b| && BigEndian(a) == BigEndian(b)
    ensures a == b
    decreases |a|
  {
    if a != [] {
      BigEndianInjective(a[..|a| - 1], b[..|b| - 1]);
      assert a == a[..|a| - 1] + [a[|a| - 1]];
      assert b == b[..|b| - 1] + [b[|b| - 1]];
    }
  }

  function Power256(n: nat): (p: nat)
    ensures p >= 1
  {
    if n == 0 then 1 else 256 * Power256(n - 1)
  }

  /** The number whose least significant byte comes first. */
  function LittleEndian(b: seq<Octet>): nat {
    if b == [] then 0 else b[0] + 256 * LittleEndian(b[1..])
  }

  /** The n low bytes of a number, the least significant one first. */
  function LowBytes(v: nat, n: nat): (b: seq<Octet>)
    ensures |b| == n
  {
    if n == 0 then [] else [v % 256] + LowBytes(v / 256, n - 1)
  }

  /** The low bytes determine the number modulo 256^n, so a 64-bit nonce is recovered from its eight. */
  lemma {:induction false} LowBytesValue(v: nat, n: nat)
    ensures LittleEndian(LowBytes(v, n)) == v % Power256(n)
  {
    if n > 0 {
      LowBytesValue(v / 256, n - 1);
      ModuloStep(v, Power256(n - 1));
    }
  }

  /** And the other way round: bytes are the low bytes of the number they denote. */
  lemma {:induction false} BytesOfLittleEndian(b: seq<Octet>)
    ensures LittleEndian(b) < Power256(|b|) && LowBytes(LittleEndian(b), |b|) == b
  {
    if b != [] {
      BytesOfLittleEndian(b[1..]);
      DivisionUnique(LittleEndian(b), 256, LittleEndian(b[1..]), b[0]);
    }
  }

  lemma ModuloStep(v: nat, p: nat)
    requires p >= 1
    ensures v % (256 * p) == v % 256 + 256 * (v / 256 % p)
  {
    var q, e := v / 256 / p, v % 256 + 256 * (v / 256 % p);
    assert v / 256 == p * q + v / 256 % p;
    assert v == (256 * p) * q + e by {
      assert 256 * (p * q) == (256 * p) * q;
    }
    DivisionUnique(v, 256 * p, q, e);
  }

  // ---------------------------------------------------------------- 32-bit words

  /** Exclusive or of the k low bits. */
  function XorLow(a: nat, b: nat, k: nat): (r: nat)
    ensures r < Power2(k)
  {
    if k == 0 then 0 else (if a % 2 != b % 2 then 1 else 0) + 2 * XorLow(a / 2, b / 2, k - 1)
  }

  function Xor32(a: Word32, b: Word32): Word32 {
    SmallPowers();
    XorLow(a, b, 32)
  }

  /** Bit by bit: a result bit is set exactly when the two bits differ. */
  lemma {:induction false} XorLowBits(a: nat, b: nat, k: nat, z: nat)
    requires z < k
    ensures LowBits(XorLow(a, b, k), k)[z] == (LowBits(a, k)[z] != LowBits(b, k)[z])
  {
    hide XorLow, LowBits;
    XorHalves(a, b, k);
    LowBitsStep(a, k, z);
    LowBitsStep(b, k, z);
    LowBitsStep(XorLow(a, b, k), k, z);
    if z > 0 {
      XorLowBits(a / 2, b / 2, k - 1, z - 1);
    }
  }

  lemma XorHalves(a: nat, b: nat, k: nat)
    requires k > 0
    ensures XorLow(a, b, k) % 2 == (if a % 2 != b % 2 then 1 else 0)
    ensures XorLow(a, b, k) / 2 == XorLow(a / 2, b / 2, k - 1)
  {
  }

  lemma XorBits(a: Word32, b: Word32, z: nat)
    requires z < 32
    ensures LowBits(Xor32(a, b), 32)[z] == (LowBits(a, 32)[z] != LowBits(b, 32)[z])
  {
    hide XorLow, LowBits;
    XorLowBits(a, b, 32, z);
  }

  lemma {:induction false} XorLowTwice(a: nat, b: nat, k: nat)
    requires a < Power2(k)
    ensures XorLow(XorLow(a, b, k), b, k) == a
    ensures XorLow(a, 0, k) == a && XorLow(0, a, k) == a
  {
    hide XorLow;
    if k == 0 {
      XorNothing(a, b);
    } else {
      XorHalves(a, b, k);
      XorHalves(XorLow(a, b, k), b, k);
      XorHalves(a, 0, k);
      XorHalves(0, a, k);
      XorLowTwice(a / 2, b / 2, k - 1);
    }
  }

  lemma XorNothing(a: nat, b: nat)
    ensures XorLow(a, b, 0) == 0
  {
  }

  lemma {:induction false} XorLowSymmetric(a: nat, b: nat, k: nat)
    ensures XorLow(a, b, k) == XorLow(b, a, k)
  {
    hide XorLow;
    if k == 0 {
      XorNothing(a, b);
      XorNothing(b, a);
    } else {
      XorHalves(a, b, k);
      XorHalves(b, a, k);
      XorLowSymmetric(a / 2, b / 2, k - 1);
    }
  }

  /** The laws of exclusive or: symmetric, with zero as its unit, and undone by itself. */
  lemma XorLaws(a: Word32, b: Word32)
    ensures Xor32(a, b) == Xor32(b, a)
    ensures Xor32(a, 0) == a == Xor32(0, a)
    ensures Xor32(Xor32(a, b), b) == a
  {
    hide XorLow;
    SmallPowers();
    XorLowSymmetric(a, b, 32);
    XorLowTwice(a, b, 32);
  }

  const FNV_PRIME: Word32 := 0x0100_0193

  /** The mixing step of host and device: a 32-bit product, then exclusive or. */
  function Fnv1a(a: Word32, b: Word32): Word32 {
    Xor32(a * FNV_PRIME % U32, b)
  }

  /** The inverse of the prime modulo 2^32: their product is 3513497 * 2^32 + 1. */
  const FNV_INVERSE: Word32 := 0x359C_449B

  /** The product loses nothing: multiplying by the inverse recovers the word. */
  lemma PrimeUndone(a: Word32)
    ensures a * FNV_PRIME % U32 * FNV_INVERSE % U32 == a
  {
    var q, e := a * FNV_PRIME / U32, a * FNV_PRIME % U32;
    assert a * FNV_PRIME == U32 * q + e;
    DivisionUnique(e * FNV_INVERSE, U32, 3513497 * a - q * FNV_INVERSE, a);
  }

  /** Mixing with a zero word multiplies by the prime 16777619, mixing into a zero word gives the word
      itself, and in between the two act by exclusive or. */
  lemma FnvValue(a: Word32, b: Word32)
    ensures Fnv1a(a, 0) == a * 16777619 % U32 && Fnv1a(0, b) == b
    ensures Fnv1a(a, b) == Xor32(Fnv1a(a, 0), b)
  {
    hide Xor32;
    XorLaws(a * FNV_PRIME % U32, b);
    XorLaws(b, 0);
  }

  /** A mixing step is injective in each argument: a changed word changes the result. */
  lemma FnvInjective(a: Word32, b: Word32, c: Word32)
    ensures Fnv1a(a, c) == Fnv1a(b, c) ==> a == b
    ensures Fnv1a(c, a) == Fnv1a(c, b) ==> a == b
  {
    hide Xor32;
    var p, q, r := a * FNV_PRIME % U32, b * FNV_PRIME % U32, c * FNV_PRIME % U32;
    PrimeUndone(a);
    PrimeUndone(b);
    XorLaws(p, c);
    XorLaws(q, c);
    XorLaws(r, a);
    XorLaws(r, b);
    XorLaws(a, r);
    XorLaws(b, r);
  }

  /** Four bytes read as a word of a little-endian machine. */
  function WordAt(b: seq<Octet>, i: nat): Word32
    requires 4 * i + 4 <= |b|
  {
    var b0: nat, b1: nat, b2: nat, b3: nat := b[4 * i], b[4 * i + 1], b[4 * i + 2], b[4 * i + 3];
    b0 + 0x100 * b1 + 0x1_0000 * b2 + 0x100_0000 * b3
  }

  lemma WordIsLittleEndian(b: seq<Octet>, i: nat)
    requires 4 * i + 4 <= |b|
    ensures WordAt(b, i) == LittleEndian(b[4 * i..4 * i + 4])
  {
    var s := b[4 * i..4 * i + 4];
    assert s[1..][1..] == s[2..] && s[2..][1..] == s[3..] && s[3..][1..] == [];
    assert LittleEndian(s[3..]) == s[3];
    var s2: nat, s3: nat := s[2], s[3];
    assert LittleEndian(s[2..]) == s2 + 256 * s3;
  }

  function WordsOf(b: seq<Octet>): (w: seq<Word32>)
    ensures |w| == |b| / 4
  {
    seq(|b| / 4, i requires 0 <= i < |b| / 4 => WordAt(b, i))
  }

  function BytesOf(w: seq<Word32>): (b: seq<Octet>)
    ensures |b| == 4 * |w|
  {
    if w == [] then [] else LowBytes(w[0], 4) + BytesOf(w[1..])
  }

  /** Each word is stored in its own four bytes, and that determines the whole. */
  lemma {:induction false} BytesUnique(w: seq<Word32>, b: seq<Octet>)
    requires |b| == 4 * |w|
    requires forall k: nat | k < |w| :: b[4 * k..4 * k + 4] == LowBytes(w[k], 4)
    ensures b == BytesOf(w)
  {
    hide LowBytes;
    if w != [] {
      forall k: nat | k < |w| - 1
        ensures b[4..][4 * k..4 * k + 4] == LowBytes(w[1..][k], 4)
      {
        assert b[4..][4 * k..4 * k + 4] == b[4 * (k + 1)..4 * (k + 1) + 4];
      }
      BytesUnique(w[1..], b[4..]);
      assert b == b[4 * 0..4 * 0 + 4] + b[4..];
    }
  }

  lemma WordBytes(v: Word32)
    ensures WordAt(LowBytes(v, 4), 0) == v
  {
    var b, c, d := v / 256, v / 256 / 256, v / 256 / 256 / 256;
    assert LowBytes(d, 1) == [d];
    assert LowBytes(c, 2) == [c % 256, d];
    assert LowBytes(b, 3) == [b % 256, c % 256, d];
  }

  /** Words survive being stored as bytes. */
  lemma {:induction false} WordsOfBytes(w: seq<Word32>)
    ensures WordsOf(BytesOf(w)) == w
  {
    if w != [] {
      WordBytes(w[0]);
      WordsOfBytes(w[1..]);
      var b := BytesOf(w);
      assert WordAt(b, 0) == WordAt(LowBytes(w[0], 4), 0);
      forall i: nat | 0 < i < |w|
        ensures WordAt(b, i) == w[i]
      {
        assert WordAt(b, i) == WordAt(BytesOf(w[1..]), i - 1);
        assert WordsOf(BytesOf(w[1..]))[i - 1] == w[i];
      }
    }
  }
}
