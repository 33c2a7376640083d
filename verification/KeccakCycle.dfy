/** The single cycle of length 24 along which pi moves every lane except lane 0, tabulated in the
    device code for its in-place rho and pi steps. */
module KeccakCycle {
  import opened KeccakF

  const ROTC: seq<nat> := [
    1, 3, 6, 10, 15, 21, 28, 36, 45, 55, 2, 14,
    27, 41, 56, 8, 25, 43, 62, 18, 39, 61, 20, 44]

  const PILN: seq<nat> := [
    10, 7, 11, 17, 18, 3, 5, 16, 8, 21, 24, 4,
    15, 23, 19, 13, 12, 2, 20, 14, 22, 9, 6, 1]

  /** The position of each lane on the cycle; lane 0 is not on it. */
  const POSITION: seq<nat> := [24, 0, 18, 6, 12, 7, 23, 2, 9, 22, 1, 3, 17, 16, 20, 13, 8, 4, 5, 15, 19, 10, 21, 14, 11]

  function Turn(t: nat): nat
    requires t < 24
  {
    ROTC[t]
  }

  function Position(i: nat): nat
    requires i < 25
  {
    POSITION[i]
  }

  /** The lane at position t of the cycle, which starts at lane 1. */
  function CycleLane(t: nat): nat
    requires t < 24
  {
    if t == 0 then 1 else PILN[t - 1]
  }

  ghost predicate CycleAt(t: nat)
    requires t < 24
  {
    && 0 < CycleLane(t) < 25
    && Position(CycleLane(t)) == t
    && PiTarget(CycleLane(t)) == PILN[t]
    && Offset(CycleLane(t)) == Turn(t)
  }

  lemma EarlyCyclePi(t: nat)
    requires t < 8
    ensures 0 < CycleLane(t) < 25 && PiTarget(CycleLane(t)) == PILN[t]
  {
    assert t == 0 || t == 1 || t == 2 || t == 3 || t == 4 || t == 5 || t == 6 || t == 7;
  }

  lemma MiddleCyclePi(t: nat)
    requires 8 <= t < 16
    ensures 0 < CycleLane(t) < 25 && PiTarget(CycleLane(t)) == PILN[t]
  {
    assert t == 8 || t == 9 || t == 10 || t == 11 || t == 12 || t == 13 || t == 14 || t == 15;
  }

  lemma LateCyclePi(t: nat)
    requires 16 <= t < 24
    ensures 0 < CycleLane(t) < 25 && PiTarget(CycleLane(t)) == PILN[t]
  {
    assert t == 16 || t == 17 || t == 18 || t == 19 || t == 20 || t == 21 || t == 22 || t == 23;
  }

  lemma CyclePi(t: nat)
    requires t < 24
    ensures 0 < CycleLane(t) < 25 && PiTarget(CycleLane(t)) == PILN[t]
  {
    hide PiTarget, CycleLane;
    if t < 8 {
      EarlyCyclePi(t);
    } else if t < 16 {
      MiddleCyclePi(t);
    } else {
      LateCyclePi(t);
    }
  }

  lemma CyclePosition(t: nat)
    requires t < 24 && 0 < CycleLane(t) < 25
    ensures Position(CycleLane(t)) == t
  {
    if t < 8 {
      assert t == 0 || t == 1 || t == 2 || t == 3 || t == 4 || t == 5 || t == 6 || t == 7;
    } else if t < 16 {
      assert t == 8 || t == 9 || t == 10 || t == 11 || t == 12 || t == 13 || t == 14 || t == 15;
    } else {
      assert t == 16 || t == 17 || t == 18 || t == 19 || t == 20 || t == 21 || t == 22 || t == 23;
    }
  }

  lemma CycleTurn(t: nat)
    requires t < 24 && 0 < CycleLane(t) < 25
    ensures Offset(CycleLane(t)) == Turn(t)
  {
    if t < 8 {
      assert t == 0 || t == 1 || t == 2 || t == 3 || t == 4 || t == 5 || t == 6 || t == 7;
    } else if t < 16 {
      assert t == 8 || t == 9 || t == 10 || t == 11 || t == 12 || t == 13 || t == 14 || t == 15;
    } else {
      assert t == 16 || t == 17 || t == 18 || t == 19 || t == 20 || t == 21 || t == 22 || t == 23;
    }
  }

  /** The two tables agree with pi and with the rotation offsets at every step of the cycle. */
  lemma CycleTables(t: nat)
    requires t < 24
    ensures CycleAt(t)
  {
    hide Position, Offset, Turn;
    CyclePi(t);
    CyclePosition(t);
    CycleTurn(t);
  }

  /** What the tables say about the lane at position t. */
  lemma LaneAt(t: nat)
    requires t < 24
    ensures 0 < CycleLane(t) < 25 && Position(CycleLane(t)) == t && Offset(CycleLane(t)) == Turn(t) < 64
  {
    hide Position, Offset, Turn;
    CycleTables(t);
  }

  /** The cycle visits every lane but lane 0. */
  lemma CycleCovers(i: nat)
    requires 0 < i < 25
    ensures Position(i) < 24 && CycleLane(Position(i)) == i
  {
    if i < 9 {
      assert i == 1 || i == 2 || i == 3 || i == 4 || i == 5 || i == 6 || i == 7 || i == 8;
    } else if i < 17 {
      assert i == 9 || i == 10 || i == 11 || i == 12 || i == 13 || i == 14 || i == 15 || i == 16;
    } else {
      assert i == 17 || i == 18 || i == 19 || i == 20 || i == 21 || i == 22 || i == 23 || i == 24;
    }
  }
}
