/** 64-bit words and bytes as the program's bit operations see them: sequences of bits, least
    significant bit first, so that bit `z` of a word is the bit of weight 2^z.  This is also the
    bit order in which FIPS 202 (section 3.1.2 and appendix B.1) reads a string of bytes. */
module Words {
  import opened Arithmetic

  type Word = w: seq<bool> | |w| == 64 witness seq(64, _ => false)

  type Byte = b: seq<bool> | |b| == 8 witness seq(8, _ => false)

  /** The low `k` bits of `n`, least significant first. */
  function LowBits(n: nat, k: nat): (r: seq<bool>)
    ensures |r| == k
  {
    if k == 0 then [] else [n % 2 == 1] + LowBits(n / 2, k - 1)
  }

  /** The first bit is the parity, and the others are the bits of the half. */
  lemma LowBitsStep(n: nat, k: nat, z: nat)
    requires z < k
    ensures LowBits(n, k)[z] == if z == 0 then n % 2 == 1 else LowBits(n / 2, k - 1)[z - 1]
  {
  }

  /** The word a 64-bit literal stands for. */
  function OfNat(n: nat): Word {
    LowBits(n, 64)
  }

  /** Bit z is the one of weight 2^z. */
  lemma {:induction false} LowBitAt(n: nat, k: nat, z: nat)
    requires z < k
    ensures LowBits(n, k)[z] == (n / Power2(z) % 2 == 1)
  {
    if z > 0 {
      LowBitAt(n / 2, k - 1, z - 1);
      DivideTwice(n, 2, Power2(z - 1));
    }
  }

  /** The number a bit string stands for, least significant bit first. */
  function OfBits(b: seq<bool>): (r: nat)
    ensures r < Power2(|b|)
  {
    if b == [] then 0 else (if b[0] then 1 else 0) + 2 * OfBits(b[1..])
  }

  lemma {:induction false} OfLowBits(n: nat, k: nat)
    requires n < Power2(k)
    ensures OfBits(LowBits(n, k)) == n
  {
    if k > 0 {
      OfLowBits(n / 2, k - 1);
    }
  }

  lemma {:induction false} LowBitsOf(b: seq<bool>)
    ensures LowBits(OfBits(b), |b|) == b
  {
    if b != [] {
      LowBitsOf(b[1..]);
    }
  }

  /** A literal below 2^64 is the number its word stands for, and no other word stands for it. */
  lemma OfNatValue(n: nat, w: Word)
    requires n < U64
    ensures OfBits(OfNat(n)) == n
    ensures OfBits(w) == n ==> w == OfNat(n)
  {
    hide LowBits, OfBits;
    SmallPowers();
    OfLowBits(n, 64);
    LowBitsOf(w);
  }

  function Zero(): (r: Word)
    ensures forall z | 0 <= z < 64 :: !r[z]
  {
    seq(64, _ => false)
  }

  const ZERO_BYTE: Byte := [false, false, false, false, false, false, false, false]

  function Xor(a: Word, b: Word): (r: Word)
    ensures forall z | 0 <= z < 64 :: r[z] == (a[z] != b[z])
  {
    seq(64, z requires 0 <= z < 64 => a[z] != b[z])
  }

  function And(a: Word, b: Word): (r: Word)
    ensures forall z | 0 <= z < 64 :: r[z] == (a[z] && b[z])
  {
    seq(64, z requires 0 <= z < 64 => a[z] && b[z])
  }

  function Or(a: Word, b: Word): (r: Word)
    ensures forall z | 0 <= z < 64 :: r[z] == (a[z] || b[z])
  {
    seq(64, z requires 0 <= z < 64 => a[z] || b[z])
  }

  function Not(a: Word): (r: Word)
    ensures forall z | 0 <= z < 64 :: r[z] == !a[z]
  {
    seq(64, z requires 0 <= z < 64 => !a[z])
  }

  /** `a << n` on an unsigned 64-bit word. */
  function Shl(a: Word, n: nat): (r: Word)
    ensures forall z | 0 <= z < 64 :: r[z] == (n <= z && a[z - n])
  {
    seq(64, z requires 0 <= z < 64 => n <= z && a[z - n])
  }

  /** `a >> n` on an unsigned 64-bit word; a shift by 64 clears the word. */
  function Shr(a: Word, n: nat): (r: Word)
    ensures forall z | 0 <= z < 64 :: r[z] == (z + n < 64 && a[z + n])
  {
    seq(64, z requires 0 <= z < 64 => z + n < 64 && a[z + n])
  }

  /** The bit position from which a left rotation by `n` fetches bit `z`: (z - n) mod 64. */
  function Before(z: nat, n: nat): (r: nat)
    requires z < 64 && n < 64
    ensures r < 64
  {
    if n <= z then z - n else z + 64 - n
  }

  /** The rotation as both programs spell it.  With n == 0 the second shift is by the full word
      width, and the rotation is the identity. */
  function Rotl(a: Word, n: nat): (r: Word)
    requires n < 64
    ensures forall z | 0 <= z < 64 :: r[z] == a[Before(z, n)]
  {
    Or(Shl(a, n), Shr(a, 64 - n))
  }

  lemma RotlZero(a: Word)
    ensures Rotl(a, 0) == a
  {
  }

  /** Rotating back: the inverse of the rho step on one lane. */
  function Rotr(a: Word, n: nat): (r: Word)
    requires n < 64
  {
    Rotl(a, if n == 0 then 0 else 64 - n)
  }

  lemma RotrRotl(a: Word, n: nat)
    requires n < 64
    ensures Rotr(Rotl(a, n), n) == a && Rotl(Rotr(a, n), n) == a
  {
    var m := if n == 0 then 0 else 64 - n;
    forall z: nat | z < 64
      ensures Before(Before(z, m), n) == z && Before(Before(z, n), m) == z
    {
    }
  }

  function XorByte(a: Byte, b: Byte): (r: Byte)
    ensures forall z | 0 <= z < 8 :: r[z] == (a[z] != b[z])
  {
    seq(8, z requires 0 <= z < 8 => a[z] != b[z])
  }
}
