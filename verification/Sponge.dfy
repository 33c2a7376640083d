/** The sponge of FIPS 202 over bit strings (section 4, Algorithm 8), with the padding rule pad10*1
    (section 5.1, Algorithm 9) and Keccak-f[1600] as its permutation (section 5.2). */
module Sponge {
  import opened Arithmetic
  import opened Words
  import opened KeccakF

  /** The bit string of a byte string: the bits of each byte from the least significant one. */
  function BitsOf(msg: seq<Byte>): (r: seq<bool>)
    ensures |r| == 8 * |msg|
    ensures forall k | 0 <= k < 8 * |msg| :: r[k] == msg[k / 8][k % 8]
  {
    seq(8 * |msg|, k requires 0 <= k < 8 * |msg| => msg[k / 8][k % 8])
  }

  lemma BitsOfConcat(a: seq<Byte>, b: seq<Byte>)
    ensures BitsOf(a + b) == BitsOf(a) + BitsOf(b)
  {
    forall k | 0 <= k < 8 * |a + b|
      ensures BitsOf(a + b)[k] == (BitsOf(a) + BitsOf(b))[k]
    {
      if 8 * |a| <= k {
        assert (k - 8 * |a|) / 8 == k / 8 - |a| && (k - 8 * |a|) % 8 == k % 8;
      }
    }
  }

  /** pad10*1(x, m): a one, the least number of zeros, and a one, to reach a multiple of x. */
  function Pad101(x: int, m: int): (p: seq<bool>)
    requires 0 < x
    ensures |p| == (-m - 2) % x + 2
  {
    [true] + seq((-m - 2) % x, _ => false) + [true]
  }

  /** The padding completes the last block, and adds at most two blocks. */
  lemma PadFills(x: int, m: int)
    requires 0 < x
    ensures (m + |Pad101(x, m)|) % x == 0
  {
    var q := (-m - 2) / x;
    assert m + |Pad101(x, m)| == x * -q;
    DivisionUnique(x * -q, x, -q, 0);
  }

  /** S xor (P || 0^c): the bits of a block are added to the first bits of the state. */
  function AddBlock(s: State, block: seq<bool>): State
    requires |block| <= 1600
  {
    seq(25, i requires 0 <= i < 25 =>
      seq(64, z requires 0 <= z < 64 => s[i][z] != (64 * i + z < |block| && block[64 * i + z])))
  }

  /** Algorithm 8, steps 5 and 6: p is consumed r bits at a time. */
  function Absorb(s: State, p: seq<bool>, r: nat): State
    requires 0 < r <= 1600
    decreases |p|
  {
    if |p| < r then s else
      Absorb(Permute(AddBlock(s, p[..r])), p[r..], r)
  }

  function Truncate(s: State, d: nat): (t: seq<bool>)
    requires d <= 1600
    ensures |t| == d
  {
    seq(d, k requires 0 <= k < d => s[k / 64][k % 64])
  }

  /** SPONGE[Keccak-f, pad10*1, r](n, d), for outputs no longer than one block. */
  function Hash(n: seq<bool>, r: nat, d: nat): (z: seq<bool>)
    requires 0 < r <= 1600 && d <= r
    ensures |z| == d
  {
    Truncate(Absorb(ZeroState(), n + Pad101(r, |n|), r), d)
  }

  // ---------------------------------------------------------------- the padding loses nothing

  /** Drops the zeros a string ends with. */
  function DropZeros(p: seq<bool>): seq<bool> {
    if |p| == 0 || p[|p| - 1] then p else DropZeros(p[..|p| - 1])
  }

  /** Recovers the message from its padded form: the last one, the zeros before it, and the one
      before those are removed. */
  function Unpad(p: seq<bool>): seq<bool> {
    if |p| == 0 then [] else
      var q := DropZeros(p[..|p| - 1]);
      if |q| == 0 then [] else q[..|q| - 1]
  }

  lemma {:induction false} DropZerosAfterOne(n: seq<bool>, j: nat)
    ensures DropZeros(n + [true] + seq(j, _ => false)) == n + [true]
    decreases j
  {
    var p := n + [true] + seq(j, _ => false);
    if j == 0 {
      assert p == n + [true];
    } else {
      assert p[..|p| - 1] == n + [true] + seq(j - 1, _ => false);
      DropZerosAfterOne(n, j - 1);
    }
  }

  lemma UnpadPad(n: seq<bool>, x: nat)
    requires 0 < x
    ensures Unpad(n + Pad101(x, |n|)) == n
  {
    var j := (-|n| - 2) % x;
    var p := n + Pad101(x, |n|);
    assert p[..|p| - 1] == n + [true] + seq(j, _ => false);
    DropZerosAfterOne(n, j);
    assert (n + [true])[..|n|] == n;
  }

  /** Two messages with the same padded blocks are equal. */
  lemma PaddingInjective(n: seq<bool>, m: seq<bool>, x: nat)
    requires 0 < x && n + Pad101(x, |n|) == m + Pad101(x, |m|)
    ensures n == m
  {
    UnpadPad(n, x);
    UnpadPad(m, x);
  }

  // ---------------------------------------------------------------- blocks of bytes

  function StateByte(s: State, i: nat): Byte
    requires i < 200
  {
    s[i / 8][8 * (i % 8)..8 * (i % 8) + 8]
  }

  /** Byte k of a little-endian word replaced by b. */
  function SetByte(w: Word, k: nat, b: Byte): Word
    requires k < 8
  {
    w[..8 * k] + b + w[8 * k + 8..]
  }

  /** A byte converted to an unsigned 64-bit word. */
  function Widen(b: Byte): Word {
    b + seq(56, _ => false)
  }

  /** A word converted to an unsigned byte. */
  function Narrow(w: Word): Byte {
    w[..8]
  }

  lemma BytePosition(i: nat, z: nat)
    requires z < 8
    ensures (8 * i + z) / 64 == i / 8 && (8 * i + z) % 64 == 8 * (i % 8) + z
    ensures (8 * i + z) / 8 == i && (8 * i + z) % 8 == z
  {
  }

  /** A byte added at byte position i of the state, as a shifted word. */
  function AddByte(s: State, i: nat, b: Byte): State
    requires i < 200
  {
    s[i / 8 := Xor(s[i / 8], Shl(Widen(b), 8 * (i % 8)))]
  }

  lemma BlockAt(s: State, block: seq<bool>, i: nat, z: nat)
    requires |block| <= 1600 && i < 25 && z < 64
    ensures AddBlock(s, block)[i][z] == (s[i][z] != (64 * i + z < |block| && block[64 * i + z]))
  {
  }

  lemma ShiftedByteAt(b: Byte, k: nat, z: nat)
    requires k < 8 && z < 64
    ensures Shl(Widen(b), 8 * k)[z] == (8 * k <= z < 8 * k + 8 && b[z - 8 * k])
  {
  }

  lemma AddByteAt(s: State, block: seq<Byte>, b: Byte, l: nat, z: nat)
    requires |block| < 200 && l < 25 && z < 64
    ensures AddByte(AddBlock(s, BitsOf(block)), |block|, b)[l][z] == AddBlock(s, BitsOf(block + [b]))[l][z]
  {
    hide AddBlock, Widen, Shl;
    var i := |block|;
    BlockAt(s, BitsOf(block), l, z);
    BlockAt(s, BitsOf(block + [b]), l, z);
    BitsOfConcat(block, [b]);
    ShiftedByteAt(b, i % 8, z);
  }

  /** Adding one more byte to an absorbed prefix changes one byte of one lane. */
  lemma AddByteExtends(s: State, block: seq<Byte>, b: Byte)
    requires |block| < 200
    ensures AddByte(AddBlock(s, BitsOf(block)), |block|, b) == AddBlock(s, BitsOf(block + [b]))
  {
    hide AddBlock, BitsOf, AddByte;
    var u, v := AddByte(AddBlock(s, BitsOf(block)), |block|, b), AddBlock(s, BitsOf(block + [b]));
    forall l: nat, z: nat | l < 25 && z < 64
      ensures u[l][z] == v[l][z]
    {
      AddByteAt(s, block, b, l, z);
    }
    StateExt(u, v);
  }

  /** Overwriting a byte with its sum is adding the shifted byte. */
  lemma SetByteAdds(s: State, i: nat, b: Byte)
    requires i < 200
    ensures s[i / 8 := SetByte(s[i / 8], i % 8, XorByte(StateByte(s, i), b))] == AddByte(s, i, b)
  {
    hide Widen, Shl;
    var u, v := SetByte(s[i / 8], i % 8, XorByte(StateByte(s, i), b)), Xor(s[i / 8], Shl(Widen(b), 8 * (i % 8)));
    forall z: nat | z < 64
      ensures u[z] == v[z]
    {
      ShiftedByteAt(b, i % 8, z);
    }
    assert u == v;
  }

  /** Bytes beyond an absorbed prefix are still those of the state it was added to. */
  lemma ByteBeyondBlock(s: State, block: seq<Byte>, i: nat)
    requires |block| <= i < 200
    ensures StateByte(AddBlock(s, BitsOf(block)), i) == StateByte(s, i)
  {
    hide AddBlock, BitsOf;
    forall z: nat | z < 8
      ensures StateByte(AddBlock(s, BitsOf(block)), i)[z] == StateByte(s, i)[z]
    {
      BlockAt(s, BitsOf(block), i / 8, 8 * (i % 8) + z);
    }
  }

  lemma NothingAdded(s: State)
    ensures AddBlock(s, []) == s
  {
    hide AddBlock;
    forall l: nat, z: nat | l < 25 && z < 64
      ensures AddBlock(s, [])[l][z] == s[l][z]
    {
      BlockAt(s, [], l, z);
    }
    StateExt(AddBlock(s, []), s);
  }

  // ---------------------------------------------------------------- the padded last block

  const FIRST_BIT: Byte := [true, false, false, false, false, false, false, false]

  const LAST_BIT: Byte := [false, false, false, false, false, false, false, true]

  /** The number of zeros pad10*1 inserts after a message of q whole blocks and t more bytes. */
  lemma PadLengthOfBytes(rate: nat, q: nat, t: nat)
    requires t < rate
    ensures |Pad101(8 * rate, 8 * (rate * q + t))| == 8 * rate - 8 * t
  {
    var x := 8 * rate;
    var m: int := 8 * (rate * q + t);
    assert -m - 2 == x * (-1 - q) + (x - 8 * t - 2);
    DivisionUnique(-m - 2, x, -1 - q, x - 8 * t - 2);
  }

  /** Byte i of the last block as the programs build it: the rest of the message, then 0x01, zeros,
      and 0x80, where the first and the last may fall on the same byte. */
  function PaddedByte(tail: seq<Byte>, rate: nat, i: nat): Byte
    requires |tail| < rate && i < rate
  {
    var b := if i < |tail| then tail[i] else ZERO_BYTE;
    var c := if i == |tail| then XorByte(b, FIRST_BIT) else b;
    if i == rate - 1 then XorByte(c, LAST_BIT) else c
  }

  lemma PaddedByteAt(tail: seq<Byte>, rate: nat, i: nat, z: nat)
    requires |tail| < rate && i < rate && z < 8
    ensures PaddedByte(tail, rate, i)[z]
         == if i < |tail| then tail[i][z] != (i == rate - 1 && z == 7)
            else (i == |tail| && z == 0) || (i == rate - 1 && z == 7)
  {
  }

  /** The bytes of the last block are the rest of the message followed by pad10*1. */
  lemma PaddedBlockBits(tail: seq<Byte>, rate: nat, q: nat, block: seq<Byte>)
    requires |tail| < rate && |block| == rate
    requires forall i: nat | i < rate :: block[i] == PaddedByte(tail, rate, i)
    ensures BitsOf(block) == BitsOf(tail) + Pad101(8 * rate, 8 * (rate * q + |tail|))
  {
    hide PaddedByte;
    PadLengthOfBytes(rate, q, |tail|);
    var p := Pad101(8 * rate, 8 * (rate * q + |tail|));
    forall k: nat | k < 8 * rate
      ensures BitsOf(block)[k] == (BitsOf(tail) + p)[k]
    {
      PaddedByteAt(tail, rate, k / 8, k % 8);
    }
  }
}
