/** Keccak-f[1600] as coded is a permutation of the 25-lane states: an explicit inverse undoes it
    on both sides.  Theta is the only step whose inverse is not visible in its own formula. */
module KeccakInverse {
  import opened Words
  import opened KeccakF

  // ---------------------------------------------------------------- theta

  /** The column d places to the left of column x, cyclically. */
  function West(x: nat, d: nat): (r: nat)
    requires x < 5 && d < 5
    ensures r < 5
  {
    if d <= x then x - d else x + 5 - d
  }

  function East(x: nat, d: nat): (r: nat)
    requires x < 5 && d < 5
    ensures r < 5
  {
    if x + d < 5 then x + d else x + d - 5
  }

  /** Column x of Mix(c, d, n) is the sum of column x, the column d to its left, and the column d
      to its right rotated by n.  On column parities theta acts as Mix(c, 1, 1). */
  function Mix(c: Plane, d: nat, n: nat): (m: Plane)
    requires d < 5 && n < 64
  {
    seq(5, x requires 0 <= x < 5 => Xor(Xor(c[x], c[West(x, d)]), Rotl(c[East(x, d)], n)))
  }

  lemma PlaneExt(a: Plane, b: Plane)
    requires forall x, z | 0 <= x < 5 && 0 <= z < 64 :: a[x][z] == b[x][z]
    ensures a == b
  {
    forall x | 0 <= x < 5
      ensures a[x] == b[x]
    {
    }
  }

  lemma MixAt(c: Plane, d: nat, n: nat, x: nat, z: nat)
    requires d < 5 && n < 64 && x < 5 && z < 64
    ensures Mix(c, d, n)[x][z] == ((c[x][z] != c[West(x, d)][z]) != c[East(x, d)][Before(z, n)])
  {
  }

  /** Two steps of a columns and n bits are one step of twice as many, in both directions, and a step
      to either side is undone by one to the other. */
  lemma StepsDouble(d: nat, n: nat, d2: nat, n2: nat, x: nat, z: nat)
    requires d < 5 && n < 64 && x < 5 && z < 64
    requires d2 == (if d < 3 then 2 * d else 2 * d - 5)
    requires n2 == (if n < 32 then 2 * n else 2 * n - 64)
    ensures West(West(x, d), d) == West(x, d2) && East(East(x, d), d) == East(x, d2)
    ensures West(East(x, d), d) == x == East(West(x, d), d)
    ensures Before(Before(z, n), n) == Before(z, n2)
  {
  }

  lemma MixSquaredAt(c: Plane, d: nat, n: nat, d2: nat, n2: nat, x: nat, z: nat)
    requires d < 5 && n < 64 && x < 5 && z < 64
    requires d2 == (if d < 3 then 2 * d else 2 * d - 5)
    requires n2 == (if n < 32 then 2 * n else 2 * n - 64)
    ensures Mix(Mix(c, d, n), d, n)[x][z] == Mix(c, d2, n2)[x][z]
  {
    hide Mix, West, East, Before;
    StepsDouble(d, n, d2, n2, x, z);
    MixAt(Mix(c, d, n), d, n, x, z);
    MixAt(c, d, n, x, z);
    MixAt(c, d, n, West(x, d), z);
    MixAt(c, d, n, East(x, d), Before(z, n));
    MixAt(c, d2, n2, x, z);
  }

  /** Squaring doubles the step: the cross terms cancel. */
  lemma MixSquared(c: Plane, d: nat, n: nat, d2: nat, n2: nat)
    requires d < 5 && n < 64
    requires d2 == (if d < 3 then 2 * d else 2 * d - 5)
    requires n2 == (if n < 32 then 2 * n else 2 * n - 64)
    ensures Mix(Mix(c, d, n), d, n) == Mix(c, d2, n2)
  {
    hide Mix;
    forall x: nat, z: nat | x < 5 && z < 64
      ensures Mix(Mix(c, d, n), d, n)[x][z] == Mix(c, d2, n2)[x][z]
    {
      MixSquaredAt(c, d, n, d2, n2, x, z);
    }
    PlaneExt(Mix(Mix(c, d, n), d, n), Mix(c, d2, n2));
  }

  /** Six squarings of the theta action: 64 == 4 (mod 5) columns and 0 (mod 64) bits. */
  lemma MixTo64(c: Plane)
    ensures Mix(Mix(Mix(Mix(Mix(Mix(Mix(c, 1, 1), 1, 1), 2, 2), 4, 4), 3, 8), 1, 16), 2, 32) == Mix(c, 4, 0)
  {
    hide Mix;
    MixSquared(c, 1, 1, 2, 2);
    MixSquared(c, 2, 2, 4, 4);
    MixSquared(c, 4, 4, 3, 8);
    MixSquared(c, 3, 8, 1, 16);
    MixSquared(c, 1, 16, 2, 32);
    MixSquared(c, 2, 32, 4, 0);
  }

  lemma MixCubedAt(c: Plane, x: nat, z: nat)
    requires x < 5 && z < 64
    ensures Mix(Mix(c, 3, 0), 4, 0)[x][z] == c[x][z]
  {
    hide Mix;
    MixAt(Mix(c, 3, 0), 4, 0, x, z);
    MixAt(c, 3, 0, x, z);
    MixAt(c, 3, 0, West(x, 4), z);
    MixAt(c, 3, 0, East(x, 4), z);
  }

  /** Without rotation the action has order three. */
  lemma MixCubed(c: Plane)
    ensures Mix(Mix(Mix(c, 4, 0), 4, 0), 4, 0) == c
  {
    hide Mix;
    MixSquared(c, 4, 0, 3, 0);
    forall x: nat, z: nat | x < 5 && z < 64
      ensures Mix(Mix(c, 3, 0), 4, 0)[x][z] == c[x][z]
    {
      MixCubedAt(c, x, z);
    }
    PlaneExt(Mix(Mix(c, 3, 0), 4, 0), c);
  }

  /** The inverse of Mix(., 1, 1): its 191st power, as 191 == 64 + 64 + 32 + 16 + 8 + 4 + 2 + 1. */
  function Unmix(c: Plane): Plane {
    Mix(Mix(Mix(Mix(Mix(Mix(Mix(Mix(c, 4, 0), 4, 0), 2, 32), 1, 16), 3, 8), 4, 4), 2, 2), 1, 1)
  }

  lemma MixUnmix(c: Plane)
    ensures Mix(Unmix(c), 1, 1) == c
  {
    hide Mix;
    var c6 := Mix(Mix(c, 4, 0), 4, 0);
    var c5 := Mix(c6, 2, 32);
    var c4 := Mix(c5, 1, 16);
    var c3 := Mix(c4, 3, 8);
    var c2 := Mix(c3, 4, 4);
    var c1 := Mix(c2, 2, 2);
    MixSquared(c1, 1, 1, 2, 2);
    MixSquared(c2, 2, 2, 4, 4);
    MixSquared(c3, 4, 4, 3, 8);
    MixSquared(c4, 3, 8, 1, 16);
    MixSquared(c5, 1, 16, 2, 32);
    MixSquared(c6, 2, 32, 4, 0);
    MixCubed(c);
  }

  lemma MixInjective(c: Plane, e: Plane)
    requires Mix(c, 1, 1) == Mix(e, 1, 1)
    ensures c == e
  {
    hide Mix;
    MixTo64(c);
    MixTo64(e);
    MixCubed(c);
    MixCubed(e);
  }

  lemma UnmixMix(c: Plane)
    ensures Unmix(Mix(c, 1, 1)) == c
  {
    hide Mix, Unmix;
    MixUnmix(Mix(c, 1, 1));
    MixInjective(Unmix(Mix(c, 1, 1)), c);
  }

  lemma MixIsSpread(c: Plane, x: nat)
    requires x < 5
    ensures Mix(c, 1, 1)[x] == Xor(c[x], Spread(c, x))
  {
    hide Xor, Rotl;
    assert West(x, 1) == (x + 4) % 5 && East(x, 1) == (x + 1) % 5 by {
      assert x == 0 || x == 1 || x == 2 || x == 3 || x == 4;
    }
    XorAssociative(c[x], c[West(x, 1)], Rotl(c[East(x, 1)], 1));
  }

  lemma XorAssociative(a: Word, b: Word, c: Word)
    ensures Xor(Xor(a, b), c) == Xor(a, Xor(b, c))
  {
  }

  lemma FiveTerms(a0: Word, a1: Word, a2: Word, a3: Word, a4: Word, d: Word)
    ensures Xor(Xor(Xor(Xor(Xor(a0, d), Xor(a1, d)), Xor(a2, d)), Xor(a3, d)), Xor(a4, d))
         == Xor(Xor(Xor(Xor(Xor(a0, a1), a2), a3), a4), d)
  {
  }

  /** Adding a word to a column changes its parity by that word, since a column has five lanes. */
  lemma ParityOfSum(s: State, c: Plane, x: nat)
    requires x < 5
    ensures Parity(AddToColumns(s, c), x) == Xor(Parity(s, x), Spread(c, x))
  {
    hide Xor, Spread;
    FiveTerms(s[x], s[x + 5], s[x + 10], s[x + 15], s[x + 20], Spread(c, x));
  }

  lemma XorCancel(a: Word, b: Word)
    ensures Xor(Xor(a, b), b) == a
  {
  }

  lemma AddTwice(s: State, c: Plane)
    ensures AddToColumns(AddToColumns(s, c), c) == s
  {
    hide Spread, Xor;
    forall i: nat | i < 25
      ensures AddToColumns(AddToColumns(s, c), c)[i] == s[i]
    {
      XorCancel(s[i], Spread(c, i % 5));
    }
  }

  function ThetaInverse(t: State): State {
    AddToColumns(t, Unmix(Parities(t)))
  }

  lemma ThetaInverseOfTheta(s: State)
    ensures ThetaInverse(Theta(s)) == s
  {
    hide Mix, Unmix, AddToColumns, Parity, Spread, Xor;
    var c := Parities(s);
    forall x: nat | x < 5
      ensures Parities(Theta(s))[x] == Mix(c, 1, 1)[x]
    {
      ParityOfSum(s, c, x);
      MixIsSpread(c, x);
    }
    assert Parities(Theta(s)) == Mix(c, 1, 1);
    UnmixMix(c);
    AddTwice(s, c);
  }

  lemma ThetaOfThetaInverse(t: State)
    ensures Theta(ThetaInverse(t)) == t
  {
    hide Mix, Unmix, AddToColumns, Parity, Spread, Xor;
    var c := Unmix(Parities(t));
    MixUnmix(Parities(t));
    forall x: nat | x < 5
      ensures Parities(ThetaInverse(t))[x] == c[x]
    {
      ParityOfSum(t, c, x);
      MixIsSpread(c, x);
      XorCancel(c[x], Spread(c, x));
    }
    assert Parities(ThetaInverse(t)) == c;
    AddTwice(t, c);
  }

  // ---------------------------------------------------------------- rho and pi

  function RhoPiInverse(b: State): State {
    seq(25, i requires 0 <= i < 25 => Rotr(b[PiTarget(i)], Offset(i)))
  }

  lemma RhoPiInverses(s: State)
    ensures RhoPiInverse(RhoPi(s)) == s && RhoPi(RhoPiInverse(s)) == s
  {
    hide Rotl, Rotr, PiSource, PiTarget, Offset;
    forall i: nat | i < 25
      ensures RhoPiInverse(RhoPi(s))[i] == s[i] && RhoPi(RhoPiInverse(s))[i] == s[i]
    {
      PiSourceTarget(i);
      RotrRotl(s[i], Offset(i));
      RotrRotl(s[i], Offset(PiSource(i)));
    }
  }

  // ---------------------------------------------------------------- chi

  function ChiInverse(b: State): State {
    seq(25, i requires 0 <= i < 25 =>
      Xor(b[i], And(Not(b[Right(i, 1)]), Xor(b[Right(i, 2)], And(Not(b[Right(i, 3)]), b[Right(i, 4)])))))
  }

  lemma RightRight(i: nat, k: nat, m: nat)
    requires i < 25 && k < 5 && m < 5
    ensures Right(Right(i, k), m) == if k + m < 5 then Right(i, k + m) else Right(i, k + m - 5)
    ensures Right(i, 0) == i
  {
  }

  lemma ChiInverseAt(b: State, i: nat, z: nat)
    requires i < 25 && z < 64
    ensures ChiInverse(b)[i][z]
         == (b[i][z] != (!b[Right(i, 1)][z]
                         && (b[Right(i, 2)][z] != (!b[Right(i, 3)][z] && b[Right(i, 4)][z]))))
  {
  }

  /** Chi on the row of lane i, lane by lane; each lane looks at its two right neighbours. */
  lemma ChiAround(a: State, i: nat, z: nat, k: nat, k1: nat, k2: nat)
    requires i < 25 && z < 64 && k < 5
    requires k1 == (if k < 4 then k + 1 else k - 4) && k2 == (if k < 3 then k + 2 else k - 3)
    ensures Chi(a)[Right(i, k)][z] == (a[Right(i, k)][z] != (!a[Right(i, k1)][z] && a[Right(i, k2)][z]))
  {
    hide Chi, Right;
    ChiAt(a, Right(i, k), z);
    RightRight(i, k, 1);
    RightRight(i, k, 2);
  }

  lemma ChiInverseAround(b: State, i: nat, z: nat, k: nat, k1: nat, k2: nat, k3: nat, k4: nat)
    requires i < 25 && z < 64 && k < 5
    requires k1 == (if k < 4 then k + 1 else k - 4) && k2 == (if k < 3 then k + 2 else k - 3)
    requires k3 == (if k < 2 then k + 3 else k - 2) && k4 == (if k < 1 then k + 4 else k - 1)
    ensures ChiInverse(b)[Right(i, k)][z]
         == (b[Right(i, k)][z] != (!b[Right(i, k1)][z]
                         && (b[Right(i, k2)][z] != (!b[Right(i, k3)][z] && b[Right(i, k4)][z]))))
  {
    hide ChiInverse, Right;
    ChiInverseAt(b, Right(i, k), z);
    RightRight(i, k, 1);
    RightRight(i, k, 2);
    RightRight(i, k, 3);
    RightRight(i, k, 4);
  }

  lemma ChiInverseOfChiAt(a: State, i: nat, z: nat)
    requires i < 25 && z < 64
    ensures ChiInverse(Chi(a))[i][z] == a[i][z]
  {
    hide Chi, ChiInverse, Right;
    RightRight(i, 0, 0);
    ChiInverseAt(Chi(a), i, z);
    ChiAround(a, i, z, 0, 1, 2);
    ChiAround(a, i, z, 1, 2, 3);
    ChiAround(a, i, z, 2, 3, 4);
    ChiAround(a, i, z, 3, 4, 0);
    ChiAround(a, i, z, 4, 0, 1);
  }

  lemma ChiOfChiInverseAt(b: State, i: nat, z: nat)
    requires i < 25 && z < 64
    ensures Chi(ChiInverse(b))[i][z] == b[i][z]
  {
    hide Chi, ChiInverse, Right;
    RightRight(i, 0, 0);
    ChiAt(ChiInverse(b), i, z);
    ChiInverseAround(b, i, z, 0, 1, 2, 3, 4);
    ChiInverseAround(b, i, z, 1, 2, 3, 4, 0);
    ChiInverseAround(b, i, z, 2, 3, 4, 0, 1);
  }

  lemma ChiInverses(s: State)
    ensures ChiInverse(Chi(s)) == s && Chi(ChiInverse(s)) == s
  {
    hide Chi, ChiInverse;
    forall i: nat, z: nat | i < 25 && z < 64
      ensures ChiInverse(Chi(s))[i][z] == s[i][z] && Chi(ChiInverse(s))[i][z] == s[i][z]
    {
      ChiInverseOfChiAt(s, i, z);
      ChiOfChiInverseAt(s, i, z);
    }
    StateExt(ChiInverse(Chi(s)), s);
    StateExt(Chi(ChiInverse(s)), s);
  }

  // ---------------------------------------------------------------- rounds

  lemma IotaTwice(s: State, round: nat)
    requires round < 24
    ensures Iota(Iota(s, round), round) == s
  {
    hide Xor, RoundKey;
    XorCancel(s[0], RoundKey(round));
  }

  function RoundInverse(t: State, round: nat): State
    requires round < 24
  {
    ThetaInverse(RhoPiInverse(ChiInverse(Iota(t, round))))
  }

  lemma RoundInverses(s: State, round: nat)
    requires round < 24
    ensures RoundInverse(Round(s, round), round) == s && Round(RoundInverse(s, round), round) == s
  {
    hide Theta, ThetaInverse, RhoPi, RhoPiInverse, Chi, ChiInverse, Iota;
    ThetaInverseOfTheta(s);
    RhoPiInverses(Theta(s));
    ChiInverses(RhoPi(Theta(s)));
    IotaTwice(Chi(RhoPi(Theta(s))), round);
    var c := Iota(s, round);
    var b := ChiInverse(c);
    ThetaOfThetaInverse(RhoPiInverse(b));
    RhoPiInverses(b);
    ChiInverses(c);
    IotaTwice(s, round);
  }

  /** Undoes the first n rounds, last round first. */
  function RoundsInverse(t: State, n: nat): State
    requires n <= 24
    decreases n
  {
    if n == 0 then t else RoundsInverse(RoundInverse(t, n - 1), n - 1)
  }

  lemma {:induction false} RoundsInverses(s: State, n: nat)
    requires n <= 24
    ensures RoundsInverse(Rounds(s, n), n) == s && Rounds(RoundsInverse(s, n), n) == s
    decreases n
  {
    hide Round, RoundInverse;
    if n > 0 {
      RoundInverses(Rounds(s, n - 1), n - 1);
      RoundsInverses(s, n - 1);
      RoundInverses(s, n - 1);
      RoundsInverses(RoundInverse(s, n - 1), n - 1);
    }
  }

  function PermuteInverse(t: State): State {
    RoundsInverse(t, 24)
  }

  /** Keccak-f[1600] as coded is a bijection on the 25-lane states. */
  lemma PermuteIsPermutation(s: State)
    ensures PermuteInverse(Permute(s)) == s && Permute(PermuteInverse(s)) == s
  {
    hide Rounds, RoundsInverse;
    RoundsInverses(s, 24);
  }

  /** No two states are mapped to one. */
  lemma PermuteInjective(s: State, t: State)
    requires Permute(s) == Permute(t)
    ensures s == t
  {
    hide Permute, PermuteInverse;
    PermuteIsPermutation(s);
    PermuteIsPermutation(t);
  }
}
