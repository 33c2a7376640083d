/** The Keccak definitions of FIPS 202, written from the standard: the step mappings of section 3.2
    bit by bit, the rotation and round constants by the rules that generate them, and the sponge
    of section 4 over bit strings. */
module Fips202 {
  import opened Arithmetic
  import opened Words
  import opened KeccakF
  import opened KeccakCycle

  /** A[x, y, z] with every coordinate read modulo its range. */
  function Bit(a: State, x: int, y: int, z: int): bool {
    a[x % 5 + 5 * (y % 5)][z % 64]
  }

  // Algorithm 1
  function ColumnParity(a: State, x: int, z: int): bool {
    (((Bit(a, x, 0, z) != Bit(a, x, 1, z)) != Bit(a, x, 2, z)) != Bit(a, x, 3, z)) != Bit(a, x, 4, z)
  }

  function ThetaBit(a: State, x: int, y: int, z: int): bool {
    Bit(a, x, y, z) != (ColumnParity(a, x - 1, z) != ColumnParity(a, x + 1, z - 1))
  }

  function ThetaStep(a: State): State {
    seq(25, i requires 0 <= i < 25 => seq(64, z requires 0 <= z < 64 => ThetaBit(a, i % 5, i / 5, z)))
  }

  // Algorithm 2: the lanes are visited along the walk (x, y) -> (y, 2x + 3y) from (1, 0).
  function Walk(t: nat): (p: (nat, nat))
    ensures p.0 < 5 && p.1 < 5
  {
    if t == 0 then (1, 0) else (Walk(t - 1).1, (2 * Walk(t - 1).0 + 3 * Walk(t - 1).1) % 5)
  }

  function RotateLane(w: Word, r: nat): Word {
    seq(64, z requires 0 <= z < 64 => w[(z - r) % 64])
  }

  /** The offset of step t - 1, (t - 1 + 1)(t - 1 + 2)/2. */
  function Triangle(t: nat): nat {
    t * (t + 1) / 2
  }

  function RhoUpTo(a: State, t: nat): State {
    if t == 0 then a else
      var i := Walk(t - 1).0 + 5 * Walk(t - 1).1;
      RhoUpTo(a, t - 1)[i := RotateLane(a[i], Triangle(t))]
  }

  function RhoStep(a: State): State {
    RhoUpTo(a, 24)
  }

  // Algorithm 3
  function PiBit(a: State, x: int, y: int, z: int): bool {
    Bit(a, x + 3 * y, x, z)
  }

  function PiStep(a: State): State {
    seq(25, i requires 0 <= i < 25 => seq(64, z requires 0 <= z < 64 => PiBit(a, i % 5, i / 5, z)))
  }

  // Algorithm 4
  function ChiBit(a: State, x: int, y: int, z: int): bool {
    Bit(a, x, y, z) != (!Bit(a, x + 1, y, z) && Bit(a, x + 2, y, z))
  }

  function ChiStep(a: State): State {
    seq(25, i requires 0 <= i < 25 => seq(64, z requires 0 <= z < 64 => ChiBit(a, i % 5, i / 5, z)))
  }

  // Algorithm 5
  datatype Register = Register(r0: bool, r1: bool, r2: bool, r3: bool, r4: bool, r5: bool, r6: bool, r7: bool)

  function Clock(r: Register): Register {
    Register(r.r7, r.r0, r.r1, r.r2, r.r3 != r.r7, r.r4 != r.r7, r.r5 != r.r7, r.r6)
  }

  function RegisterAt(t: nat): Register {
    if t == 0 then Register(true, false, false, false, false, false, false, false) else Clock(RegisterAt(t - 1))
  }

  function Rc(t: nat): bool {
    RegisterAt(t % 255).r0
  }

  // Algorithm 6: bit 2^j - 1 of the round constant is rc(j + 7*round), the others are zero.
  function Weight(b: bool, w: nat): nat {
    if b then w else 0
  }

  function RoundConstant(round: nat): nat {
    Weight(Rc(7 * round), 0x1) + Weight(Rc(7 * round + 1), 0x2) + Weight(Rc(7 * round + 2), 0x8)
    + Weight(Rc(7 * round + 3), 0x80) + Weight(Rc(7 * round + 4), 0x8000)
    + Weight(Rc(7 * round + 5), 0x8000_0000) + Weight(Rc(7 * round + 6), 0x8000_0000_0000_0000)
  }

  lemma OneClock(t: nat)
    requires t < 254
    ensures RegisterAt(t + 1) == Clock(RegisterAt(t)) && Rc(t) == RegisterAt(t).r0
  {
    assert t % 255 == t;
  }

  /** The round constant and the next register, from the register the round starts with. */
  lemma SevenClocks(round: nat, r0: Register)
    returns (next: Register, value: nat)
    requires round < 24 && RegisterAt(7 * round) == r0
    ensures var r1 := Clock(r0); var r2 := Clock(r1); var r3 := Clock(r2); var r4 := Clock(r3);
            var r5 := Clock(r4); var r6 := Clock(r5);
            && next == Clock(r6)
            && value == Weight(r0.r0, 0x1) + Weight(r1.r0, 0x2) + Weight(r2.r0, 0x8) + Weight(r3.r0, 0x80)
                        + Weight(r4.r0, 0x8000) + Weight(r5.r0, 0x8000_0000) + Weight(r6.r0, 0x8000_0000_0000_0000)
    ensures RegisterAt(7 * (round + 1)) == next && RoundConstant(round) == value
  {
    hide RegisterAt, Rc, Clock;
    var t := 7 * round;
    OneClock(t);
    OneClock(t + 1);
    OneClock(t + 2);
    OneClock(t + 3);
    OneClock(t + 4);
    OneClock(t + 5);
    OneClock(t + 6);
    next := RegisterAt(t + 7);
    value := RoundConstant(round);
  }

  lemma FirstRoundConstants()
    returns (r: Register)
    ensures r == RegisterAt(56) && r == Register(false, true, false, true, false, false, true, true)
    ensures forall i | 0 <= i < 8 :: ROUND_CONSTANTS[i] == RoundConstant(i)
  {
    hide RegisterAt, Rc, RoundConstant;
    var v: nat;
    RegisterZero();
    r := RegisterAt(0);
    r, v := SevenClocks(0, r);
    r, v := SevenClocks(1, r);
    r, v := SevenClocks(2, r);
    r, v := SevenClocks(3, r);
    r, v := SevenClocks(4, r);
    r, v := SevenClocks(5, r);
    r, v := SevenClocks(6, r);
    r, v := SevenClocks(7, r);
  }

  lemma MiddleRoundConstants()
    returns (r: Register)
    ensures r == RegisterAt(112) && r == Register(false, true, false, true, false, true, false, true)
    ensures forall i | 8 <= i < 16 :: ROUND_CONSTANTS[i] == RoundConstant(i)
  {
    hide RegisterAt, Rc, RoundConstant;
    var v: nat;
    r := FirstRoundConstants();
    r, v := SevenClocks(8, r);
    r, v := SevenClocks(9, r);
    r, v := SevenClocks(10, r);
    r, v := SevenClocks(11, r);
    r, v := SevenClocks(12, r);
    r, v := SevenClocks(13, r);
    r, v := SevenClocks(14, r);
    r, v := SevenClocks(15, r);
  }

  lemma LastRoundConstants()
    returns (r: Register)
    ensures r == RegisterAt(168) && r == Register(false, true, true, true, false, false, false, true)
    ensures forall i | 16 <= i < 24 :: ROUND_CONSTANTS[i] == RoundConstant(i)
  {
    hide RegisterAt, Rc, RoundConstant;
    var v: nat;
    r := MiddleRoundConstants();
    r, v := SevenClocks(16, r);
    r, v := SevenClocks(17, r);
    r, v := SevenClocks(18, r);
    r, v := SevenClocks(19, r);
    r, v := SevenClocks(20, r);
    r, v := SevenClocks(21, r);
    r, v := SevenClocks(22, r);
    r, v := SevenClocks(23, r);
  }

  /** The table of round constants is the one Algorithms 5 and 6 generate. */
  lemma RoundConstantsAreGenerated()
    ensures forall i | 0 <= i < 24 :: ROUND_CONSTANTS[i] == RoundConstant(i)
  {
    hide RegisterAt, RoundConstant;
    var r := FirstRoundConstants();
    r := MiddleRoundConstants();
    r := LastRoundConstants();
  }

  lemma RegisterZero()
    ensures RegisterAt(0) == Register(true, false, false, false, false, false, false, false)
  {
  }

  // ---------------------------------------------------------------- the code's steps are the standard's

  /** The walk of Algorithm 2 is the cycle of pi. */
  lemma {:induction false} WalkIsCycle(t: nat)
    requires t < 24
    ensures Walk(t).0 + 5 * Walk(t).1 == CycleLane(t)
  {
    hide Position, Turn, PILN, Offset;
    if t > 0 {
      WalkIsCycle(t - 1);
      CycleTables(t - 1);
      Coordinates(Walk(t - 1).0, Walk(t - 1).1);
    }
  }

  lemma NextTriangle(t: nat)
    ensures Triangle(t + 1) == Triangle(t) + t + 1
  {
    assert (t + 1) * (t + 2) == t * (t + 1) + 2 * (t + 1);
  }

  lemma FirstTurn()
    ensures Triangle(1) % 64 == Turn(0)
  {
  }

  /** The t-th rotation of Algorithm 2, by (t + 1)(t + 2)/2, is the tabulated one. */
  lemma {:induction false} TurnsAreTriangular(t: nat)
    requires t < 24
    ensures Triangle(t + 1) % 64 == Turn(t)
  {
    hide Turn, Triangle;
    if t == 0 {
      FirstTurn();
    } else {
      TurnsAreTriangular(t - 1);
      TurnsAdvance(t);
      NextTriangle(t);
      ReduceModulo(Triangle(t), t + 1, 64);
    }
  }

  lemma TurnsAdvance(t: nat)
    requires 0 < t < 24
    ensures Turn(t) == (Turn(t - 1) + t + 1) % 64
  {
    if t < 9 {
      assert t == 1 || t == 2 || t == 3 || t == 4 || t == 5 || t == 6 || t == 7 || t == 8;
    } else if t < 17 {
      assert t == 9 || t == 10 || t == 11 || t == 12 || t == 13 || t == 14 || t == 15 || t == 16;
    } else {
      assert t == 17 || t == 18 || t == 19 || t == 20 || t == 21 || t == 22 || t == 23;
    }
  }

  lemma RotateIsRotl(w: Word, r: nat)
    ensures RotateLane(w, r) == Rotl(w, r % 64)
  {
    forall z: nat | z < 64
      ensures (z - r) % 64 == Before(z, r % 64)
    {
    }
  }

  /** Step t of Algorithm 2 rotates the next lane of the cycle by its tabulated amount. */
  lemma RhoNext(a: State, t: nat)
    requires t < 24
    ensures CycleLane(t) < 25 && Turn(t) < 64
    ensures RhoUpTo(a, t + 1) == RhoUpTo(a, t)[CycleLane(t) := Rotl(a[CycleLane(t)], Turn(t))]
  {
    hide Rotl, RotateLane, Triangle, Turn, CycleLane;
    WalkIsCycle(t);
    TurnsAreTriangular(t);
    RotateIsRotl(a[CycleLane(t)], Triangle(t + 1));
  }

  lemma RhoStart(a: State)
    ensures RhoUpTo(a, 0) == a
  {
  }

  /** After t steps Algorithm 2 has rotated exactly the lanes at positions below t of the cycle. */
  lemma {:induction false} RhoProgress(a: State, t: nat, i: nat)
    requires t <= 24 && i < 25
    ensures RhoUpTo(a, t)[i] == if 0 < i && Position(i) < t then Rotl(a[i], Offset(i)) else a[i]
  {
    hide *;
    if t == 0 {
      assert RhoUpTo(a, 0) == a by { RhoStart(a); }
    } else {
      RhoProgress(a, t - 1, i);
      RhoNext(a, t - 1);
      LaneAt(t - 1);
      if 0 < i {
        CycleCovers(i);
      }
    }
  }

  lemma RhoIsRotation(a: State, i: nat)
    requires i < 25
    ensures RhoStep(a)[i] == Rotl(a[i], Offset(i))
  {
    hide RhoUpTo, Rotl;
    RhoProgress(a, 24, i);
    if i == 0 {
      RotlZero(a[0]);
    } else {
      CycleCovers(i);
    }
  }

  lemma BitAt(a: State, x: int, y: nat, z: nat)
    requires y < 5 && z < 64
    ensures Bit(a, x, y, z) == a[x % 5 + 5 * y][z]
  {
  }

  lemma ColumnParityAt(a: State, x: int, z: int)
    ensures ColumnParity(a, x, z) == Parity(a, x % 5)[z % 64]
  {
  }

  lemma ThetaBitAt(a: State, x: nat, y: nat, z: nat)
    requires x < 5 && y < 5 && z < 64
    ensures ThetaBit(a, x, y, z)
         == (a[x + 5 * y][z] != (Parity(a, (x + 4) % 5)[z] != Parity(a, (x + 1) % 5)[Before(z, 1)]))
  {
    hide ColumnParity, Parity;
    ColumnParityAt(a, x - 1, z);
    ColumnParityAt(a, x + 1, z - 1);
    assert (x - 1) % 5 == (x + 4) % 5;
    assert (z - 1) % 64 == Before(z, 1);
  }

  lemma SpreadAt(c: Plane, x: nat, z: nat)
    requires x < 5 && z < 64
    ensures Spread(c, x)[z] == (c[(x + 4) % 5][z] != c[(x + 1) % 5][Before(z, 1)])
  {
    hide Before;
  }

  lemma ThetaAt(a: State, i: nat, z: nat)
    requires i < 25 && z < 64
    ensures Theta(a)[i][z]
         == (a[i][z] != (Parity(a, (i % 5 + 4) % 5)[z] != Parity(a, (i % 5 + 1) % 5)[Before(z, 1)]))
  {
    hide Parity, Before, Spread;
    SpreadAt(Parities(a), i % 5, z);
  }

  lemma ThetaIsStandard(a: State)
    ensures ThetaStep(a) == Theta(a)
  {
    hide Theta, ThetaBit, Parity;
    forall i: nat, z: nat | i < 25 && z < 64
      ensures ThetaStep(a)[i][z] == Theta(a)[i][z]
    {
      ThetaAt(a, i, z);
      ThetaBitAt(a, i % 5, i / 5, z);
    }
    StateExt(ThetaStep(a), Theta(a));
  }

  lemma PiBitAt(a: State, j: nat, z: nat)
    requires j < 25 && z < 64
    ensures PiBit(a, j % 5, j / 5, z) == a[PiSource(j)][z]
  {
    hide Bit;
    BitAt(a, j % 5 + 3 * (j / 5), j % 5, z);
  }

  lemma PiIsStandard(a: State)
    ensures PiStep(RhoStep(a)) == RhoPi(a)
  {
    hide RhoStep, Rotl, Offset, PiSource, PiBit;
    var r := RhoStep(a);
    forall j: nat, z: nat | j < 25 && z < 64
      ensures PiStep(r)[j][z] == RhoPi(a)[j][z]
    {
      RhoIsRotation(a, PiSource(j));
      PiBitAt(r, j, z);
    }
    StateExt(PiStep(r), RhoPi(a));
  }

  lemma ChiBitAt(a: State, i: nat, z: nat)
    requires i < 25 && z < 64
    ensures ChiBit(a, i % 5, i / 5, z) == (a[i][z] != (!a[Right(i, 1)][z] && a[Right(i, 2)][z]))
  {
    hide Right, Bit;
    var x, y := i % 5, i / 5;
    RightAt(i, 1);
    RightAt(i, 2);
    assert i == x + 5 * y;
    BitAt(a, x, y, z);
    BitAt(a, x + 1, y, z);
    BitAt(a, x + 2, y, z);
    ModFive(x, 0, x);
  }

  lemma ChiIsStandard(a: State)
    ensures ChiStep(a) == Chi(a)
  {
    hide Right, Chi, ChiBit;
    forall i: nat, z: nat | i < 25 && z < 64
      ensures ChiStep(a)[i][z] == Chi(a)[i][z]
    {
      ChiAt(a, i, z);
      ChiBitAt(a, i, z);
    }
    StateExt(ChiStep(a), Chi(a));
  }

  // ---------------------------------------------------------------- Algorithm 6 by bits

  function Falses(k: nat): seq<bool> {
    seq(k, _ => false)
  }

  /** The bit at position 2^j - 1, and the zeros up to the next one. */
  function Spaced(b: bool, gap: nat, rest: seq<bool>): seq<bool> {
    [b] + Falses(gap) + rest
  }

  lemma FirstBitValue(b: bool, rest: seq<bool>)
    ensures OfBits([b] + rest) == Weight(b, 1) + 2 * OfBits(rest)
  {
    assert ([b] + rest)[1..] == rest;
  }

  lemma FalsesSplit(k: nat, rest: seq<bool>)
    ensures k == 0 ==> Falses(k) + rest == rest
    ensures k > 0 ==> Falses(k) + rest == [false] + (Falses(k - 1) + rest)
  {
  }

  lemma NextPower(k: nat)
    ensures Power2(k + 1) == 2 * Power2(k) && Power2(0) == 1
  {
  }

  lemma {:induction false} FalsesValue(k: nat, rest: seq<bool>)
    ensures OfBits(Falses(k) + rest) == Power2(k) * OfBits(rest)
  {
    hide OfBits, Falses, Power2;
    FalsesSplit(k, rest);
    if k == 0 {
      NextPower(0);
    } else {
      FalsesValue(k - 1, rest);
      FirstBitValue(false, Falses(k - 1) + rest);
      NextPower(k - 1);
      DoubleProduct(Power2(k - 1), OfBits(rest));
    }
  }

  lemma SpacedValue(b: bool, gap: nat, rest: seq<bool>)
    ensures OfBits(Spaced(b, gap, rest)) == Weight(b, 1) + Power2(gap + 1) * OfBits(rest)
  {
    hide OfBits, Falses, Power2, Weight;
    FalsesValue(gap, rest);
    assert Spaced(b, gap, rest) == [b] + (Falses(gap) + rest);
    FirstBitValue(b, Falses(gap) + rest);
    NextPower(gap);
    DoubleProduct(Power2(gap), OfBits(rest));
  }

  lemma SpacedAt(b: bool, gap: nat, rest: seq<bool>, z: nat)
    requires z < gap + 1 + |rest|
    ensures |Spaced(b, gap, rest)| == gap + 1 + |rest|
    ensures Spaced(b, gap, rest)[z] == if z == 0 then b else if z <= gap then false else rest[z - gap - 1]
  {
  }

  lemma OneBit(b: bool)
    ensures OfBits([b]) == Weight(b, 1)
  {
    assert [b][1..] == [];
  }

  /** Bit z of the round constant. */
  function RcBit(round: nat, z: nat): bool {
    if z == 0 then Rc(7 * round)
    else if z == 1 then Rc(7 * round + 1)
    else if z == 3 then Rc(7 * round + 2)
    else if z == 7 then Rc(7 * round + 3)
    else if z == 15 then Rc(7 * round + 4)
    else if z == 31 then Rc(7 * round + 5)
    else if z == 63 then Rc(7 * round + 6)
    else false
  }

  /** Bit 2^j - 1 is rc(j + 7*round), and all other bits are zero. */
  lemma RcBitAt(round: nat, j: nat, z: nat)
    requires j <= 6 && z < 64
    ensures RcBit(round, Power2(j) - 1) == Rc(j + 7 * round)
    ensures (forall i: nat | i <= 6 :: z != Power2(i) - 1) ==> !RcBit(round, z)
  {
    hide Rc;
    FirstPowers();
    assert j == 0 || j == 1 || j == 2 || j == 3 || j == 4 || j == 5 || j == 6;
    if forall i: nat | i <= 6 :: z != Power2(i) - 1 {
      assert z != Power2(0) - 1 && z != Power2(1) - 1 && z != Power2(2) - 1 && z != Power2(3) - 1;
      assert z != Power2(4) - 1 && z != Power2(5) - 1 && z != Power2(6) - 1;
    }
  }

  lemma FirstPowers()
    ensures Power2(0) == 1 && Power2(1) == 2 && Power2(2) == 4 && Power2(3) == 8
    ensures Power2(4) == 16 && Power2(5) == 32 && Power2(6) == 64
  {
    assert Power2(3) == 8;
  }

  /** The word whose bits are those of the round constant, from its top bit down. */
  lemma RcWordValue(b0: bool, b1: bool, b2: bool, b3: bool, b4: bool, b5: bool, b6: bool)
    ensures var w := Spaced(b0, 0, Spaced(b1, 1, Spaced(b2, 3, Spaced(b3, 7, Spaced(b4, 15, Spaced(b5, 31, [b6]))))));
            OfBits(w) == Weight(b0, 0x1) + Weight(b1, 0x2) + Weight(b2, 0x8) + Weight(b3, 0x80) + Weight(b4, 0x8000)
                         + Weight(b5, 0x8000_0000) + Weight(b6, 0x8000_0000_0000_0000)
  {
    hide OfBits, Spaced, Power2, Weight;
    SmallPowers();
    FirstPowers();
    WeightTimes(b1, 0x2);
    WeightTimes(b2, 0x8);
    WeightTimes(b3, 0x80);
    WeightTimes(b4, 0x8000);
    WeightTimes(b5, 0x8000_0000);
    WeightTimes(b6, 0x8000_0000_0000_0000);
    var w5 := Spaced(b5, 31, [b6]);
    var w4 := Spaced(b4, 15, w5);
    var w3 := Spaced(b3, 7, w4);
    var w2 := Spaced(b2, 3, w3);
    var w1 := Spaced(b1, 1, w2);
    OneBit(b6);
    SpacedValue(b5, 31, [b6]);
    SpacedValue(b4, 15, w5);
    SpacedValue(b3, 7, w4);
    SpacedValue(b2, 3, w3);
    SpacedValue(b1, 1, w2);
    SpacedValue(b0, 0, w1);
  }

  function RcWord(round: nat): Word {
    seq(64, z requires 0 <= z < 64 => RcBit(round, z))
  }

  /** The word as the spaced bits, from the seven bits of a round. */
  function RcSpaced(b: seq<bool>): seq<bool>
    requires |b| == 7
  {
    Spaced(b[0], 0, Spaced(b[1], 1, Spaced(b[2], 3, Spaced(b[3], 7, Spaced(b[4], 15, Spaced(b[5], 31, [b[6]]))))))
  }

  function RoundBits(round: nat): (b: seq<bool>)
    ensures |b| == 7
  {
    seq(7, j requires 0 <= j < 7 => Rc(7 * round + j))
  }

  /** The bits of the round constant from position `from` on. */
  function RcTail(round: nat, from: nat): seq<bool>
    requires from <= 64
  {
    seq(64 - from, z requires 0 <= z < 64 - from => RcBit(round, from + z))
  }

  lemma RcTailStep(round: nat, from: nat, gap: nat)
    requires from + gap < 64
    requires forall z: nat | from < z <= from + gap :: !RcBit(round, z)
    ensures RcTail(round, from) == Spaced(RcBit(round, from), gap, RcTail(round, from + gap + 1))
  {
    hide RcBit;
    var rest := RcTail(round, from + gap + 1);
    forall z: nat | z < 64 - from
      ensures RcTail(round, from)[z] == Spaced(RcBit(round, from), gap, rest)[z]
    {
      SpacedAt(RcBit(round, from), gap, rest, z);
    }
  }

  /** Between the marked positions there are only zeros. */
  lemma RcGap(round: nat, from: nat, gap: nat)
    requires from == gap && (gap == 0 || gap == 1 || gap == 3 || gap == 7 || gap == 15 || gap == 31)
    ensures forall z: nat | from < z <= from + gap :: !RcBit(round, z)
  {
    hide Rc;
  }

  lemma RcWordSpaced(round: nat)
    ensures RcWord(round) == RcSpaced(RoundBits(round))
  {
    RcTailEnds(round);
    hide RcBit, Spaced, Rc;
    RcGap(round, 0, 0);
    RcTailStep(round, 0, 0);
    RcGap(round, 1, 1);
    RcTailStep(round, 1, 1);
    RcGap(round, 3, 3);
    RcTailStep(round, 3, 3);
    RcGap(round, 7, 7);
    RcTailStep(round, 7, 7);
    RcGap(round, 15, 15);
    RcTailStep(round, 15, 15);
    RcGap(round, 31, 31);
    RcTailStep(round, 31, 31);
  }

  lemma RcTailEnds(round: nat)
    ensures RcTail(round, 0) == RcWord(round) && RcTail(round, 63) == [RcBit(round, 63)]
    ensures var b := RoundBits(round);
            && RcBit(round, 0) == b[0] && RcBit(round, 1) == b[1] && RcBit(round, 3) == b[2] && RcBit(round, 7) == b[3]
            && RcBit(round, 15) == b[4] && RcBit(round, 31) == b[5] && RcBit(round, 63) == b[6]
  {
    hide Rc;
  }

  lemma WeightTimes(b: bool, w: nat)
    ensures Weight(b, w) == w * Weight(b, 1)
  {
  }

  lemma RoundConstantValue(round: nat)
    ensures OfBits(RcSpaced(RoundBits(round))) == RoundConstant(round) < U64
  {
    hide Rc, OfBits, Spaced;
    var b := RoundBits(round);
    RcWordValue(b[0], b[1], b[2], b[3], b[4], b[5], b[6]);
  }

  /** The word the program adds has exactly the bits of Algorithm 6. */
  lemma RoundKeyBits(round: nat)
    requires round < 24
    ensures RoundKey(round) == RcWord(round)
  {
    hide Rc, OfBits, OfNat, RcSpaced, RoundConstant, RcWord, RoundBits;
    RcWordSpaced(round);
    RoundConstantValue(round);
    RoundConstantsAreGenerated();
    OfNatValue(RoundConstant(round), RcWord(round));
  }

  // Algorithm 6, and section 3.3
  function IotaStep(a: State, round: nat): State {
    a[0 := seq(64, z requires 0 <= z < 64 => a[0][z] != RcBit(round, z))]
  }

  lemma IotaIsStandard(a: State, round: nat)
    requires round < 24
    ensures IotaStep(a, round) == Iota(a, round)
  {
    hide RcBit, RoundKey;
    RoundKeyBits(round);
    forall z: nat | z < 64
      ensures IotaStep(a, round)[0][z] == Iota(a, round)[0][z]
    {
      assert RcWord(round)[z] == RcBit(round, z);
    }
    assert IotaStep(a, round)[0] == Iota(a, round)[0];
  }

  function StandardRound(a: State, round: nat): State {
    IotaStep(ChiStep(PiStep(RhoStep(ThetaStep(a)))), round)
  }

  /** Every round the program computes is the round of the standard. */
  lemma RoundIsStandard(a: State, round: nat)
    requires round < 24
    ensures Round(a, round) == StandardRound(a, round)
  {
    hide Theta, ThetaStep, RhoPi, RhoStep, PiStep, Chi, ChiStep, Iota, IotaStep;
    ThetaIsStandard(a);
    PiIsStandard(Theta(a));
    ChiIsStandard(RhoPi(Theta(a)));
    IotaIsStandard(Chi(RhoPi(Theta(a))), round);
  }

  function StandardRounds(a: State, n: nat): State {
    if n == 0 then a else StandardRound(StandardRounds(a, n - 1), n - 1)
  }

  lemma {:induction false} RoundsAreStandard(a: State, n: nat)
    requires n <= 24
    ensures Rounds(a, n) == StandardRounds(a, n)
  {
    hide Round, StandardRound;
    if n > 0 {
      RoundsAreStandard(a, n - 1);
      RoundIsStandard(StandardRounds(a, n - 1), n - 1);
    }
  }

  /** The program's permutation is Keccak-p[1600, 24] of section 3.3. */
  lemma PermuteIsStandard(a: State)
    ensures Permute(a) == StandardRounds(a, 24)
  {
    hide Rounds, StandardRounds;
    RoundsAreStandard(a, 24);
  }
}
