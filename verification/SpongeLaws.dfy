/** Laws of the sponge that do not depend on how its parts are spelled. */
module SpongeLaws {
  import opened Words
  import opened KeccakF
  import opened Sponge
  import Arithmetic
  import KeccakInverse

  /** Adding a block is undone by adding it again. */
  lemma AddBlockTwice(s: State, block: seq<bool>)
    requires |block| <= 1600
    ensures AddBlock(AddBlock(s, block), block) == s
  {
    forall i: nat, z: nat | i < 25 && z < 64
      ensures AddBlock(AddBlock(s, block), block)[i][z] == s[i][z]
    {
      BlockAt(AddBlock(s, block), block, i, z);
      BlockAt(s, block, i, z);
    }
    StateExt(AddBlock(AddBlock(s, block), block), s);
  }

  /** A state is the sum of the zero state and all its bits, read in the order in which they are output. */
  lemma StateIsItsBits(s: State)
    ensures AddBlock(ZeroState(), Truncate(s, 1600)) == s
  {
    forall i: nat, z: nat | i < 25 && z < 64
      ensures AddBlock(ZeroState(), Truncate(s, 1600))[i][z] == s[i][z]
    {
      BlockAt(ZeroState(), Truncate(s, 1600), i, z);
      assert (64 * i + z) / 64 == i && (64 * i + z) % 64 == z;
    }
    StateExt(AddBlock(ZeroState(), Truncate(s, 1600)), s);
  }

  /** A shorter output is the beginning of a longer one. */
  lemma TruncateTwice(s: State, d: nat, e: nat)
    requires d <= e <= 1600
    ensures Truncate(s, e)[..d] == Truncate(s, d)
  {
  }

  /** One block is added and permuted. */
  lemma AbsorbOne(s: State, block: seq<bool>, r: nat)
    requires |block| == r && 0 < r <= 1600
    ensures Absorb(s, block, r) == Permute(AddBlock(s, block))
  {
    hide Permute, AddBlock;
    assert block[..r] == block && block[r..] == [];
    assert Absorb(Permute(AddBlock(s, block)), [], r) == Permute(AddBlock(s, block));
  }

  /** Whole blocks can be absorbed first and the rest later. */
  lemma {:induction false} AbsorbInParts(s: State, p: seq<bool>, q: seq<bool>, r: nat)
    requires 0 < r <= 1600 && |p| % r == 0
    ensures Absorb(s, p + q, r) == Absorb(Absorb(s, p, r), q, r)
    decreases |p|
  {
    hide Permute, AddBlock;
    if |p| < r {
      SmallMultiple(|p|, r);
      assert p + q == q;
    } else {
      assert (p + q)[..r] == p[..r] && (p + q)[r..] == p[r..] + q;
      LessOneBlock(|p|, r);
      AbsorbInParts(Permute(AddBlock(s, p[..r])), p[r..], q, r);
    }
  }

  lemma SmallMultiple(n: nat, r: nat)
    requires n < r && n % r == 0
    ensures n == 0
  {
  }

  lemma LessOneBlock(n: nat, r: nat)
    requires 0 < r <= n && n % r == 0
    ensures (n - r) % r == 0
  {
    var q := n / r;
    assert n - r == r * (q - 1);
    Arithmetic.DivisionUnique(n - r, r, q - 1, 0);
  }

  lemma AddBlockInjective(s: State, a: seq<bool>, b: seq<bool>)
    requires |a| == |b| <= 1600 && AddBlock(s, a) == AddBlock(s, b)
    ensures a == b
  {
    forall k: nat | k < |a|
      ensures a[k] == b[k]
    {
      BlockAt(s, a, k / 64, k % 64);
      BlockAt(s, b, k / 64, k % 64);
    }
  }

  lemma PaddedLength(n: seq<bool>, r: nat)
    requires 2 <= r && |n| <= r - 2
    ensures |n + Pad101(r, |n|)| == r
  {
    Arithmetic.DivisionUnique(-|n| - 2, r, -1, r - |n| - 2);
  }

  /** The padding is a one, zeros, and a one, and no shorter padding completes the block. */
  lemma PaddingShape(x: int, m: int, shorter: nat)
    requires 0 < x
    ensures var p := Pad101(x, m);
            && 2 <= |p| && p[0] && p[|p| - 1] && (forall k | 1 <= k < |p| - 1 :: !p[k])
            && (m + |p|) % x == 0
            && (2 <= shorter < |p| ==> (m + shorter) % x != 0)
  {
    PadFills(x, m);
    var p := Pad101(x, m);
    if 2 <= shorter < |p| && (m + shorter) % x == 0 {
      var q := (m + shorter) / x;
      assert -m - 2 == x * -q + (shorter - 2);
      Arithmetic.DivisionUnique(-m - 2, x, -q, shorter - 2);
      assert false;
    }
  }

  /** A message that fits into one block is padded, added to the zero state and permuted once; the hash
      is the beginning of that state. */
  lemma ShortHash(n: seq<bool>, r: nat, d: nat)
    requires 2 <= r <= 1600 && d <= r && |n| <= r - 2
    ensures |n + Pad101(r, |n|)| == r
    ensures Hash(n, r, d) == Truncate(Permute(AddBlock(ZeroState(), n + Pad101(r, |n|))), d)
  {
    hide Permute, AddBlock, Absorb, Pad101, Truncate;
    PaddedLength(n, r);
    AbsorbOne(ZeroState(), n + Pad101(r, |n|), r);
  }

  /** Two messages that fit in one block never meet in the same state: neither the padding nor the
      permutation loses anything. */
  lemma ShortMessagesDiffer(n: seq<bool>, m: seq<bool>, r: nat)
    requires 2 <= r <= 1600 && |n| <= r - 2 && |m| <= r - 2
    requires Absorb(ZeroState(), n + Pad101(r, |n|), r) == Absorb(ZeroState(), m + Pad101(r, |m|), r)
    ensures n == m
  {
    hide Permute, AddBlock, Absorb, Pad101;
    PaddedLength(n, r);
    PaddedLength(m, r);
    var a, b := n + Pad101(r, |n|), m + Pad101(r, |m|);
    AbsorbOne(ZeroState(), a, r);
    AbsorbOne(ZeroState(), b, r);
    KeccakInverse.PermuteInjective(AddBlock(ZeroState(), a), AddBlock(ZeroState(), b));
    AddBlockInjective(ZeroState(), a, b);
    PaddingInjective(n, m, r);
  }
}
