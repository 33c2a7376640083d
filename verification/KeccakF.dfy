/** Keccak-f[1600] on 25 lanes as the program writes it.  Lane (x, y) is element x + 5*y. */
module KeccakF {
  import opened Words

  type State = s: seq<Word> | |s| == 25 witness seq(25, _ => Zero())

  type Plane = c: seq<Word> | |c| == 5 witness seq(5, _ => Zero())

  function ZeroState(): State {
    seq(25, _ => Zero())
  }

  lemma StateExt(a: State, b: State)
    requires forall i, z | 0 <= i < 25 && 0 <= z < 64 :: a[i][z] == b[i][z]
    ensures a == b
  {
    forall i | 0 <= i < 25
      ensures a[i] == b[i]
    {
    }
  }

  const ROUND_CONSTANTS: seq<nat> := [
    0x0000000000000001, 0x0000000000008082, 0x800000000000808a,
    0x8000000080008000, 0x000000000000808b, 0x0000000080000001,
    0x8000000080008081, 0x8000000000008009, 0x000000000000008a,
    0x0000000000000088, 0x0000000080008009, 0x000000008000000a,
    0x000000008000808b, 0x800000000000008b, 0x8000000000008089,
    0x8000000000008003, 0x8000000000008002, 0x8000000000000080,
    0x000000000000800a, 0x800000008000000a, 0x8000000080008081,
    0x8000000000008080, 0x0000000080000001, 0x8000000080008008]

  const ROTATION_OFFSETS: seq<nat> := [
    0, 1, 62, 28, 27,
    36, 44, 6, 55, 20,
    3, 10, 43, 25, 39,
    41, 45, 15, 21, 8,
    18, 2, 61, 56, 14]

  function Offset(i: nat): (n: nat)
    requires i < 25
    ensures n < 64
  {
    ROTATION_OFFSETS[i]
  }

  function Parity(s: State, x: nat): Word
    requires x < 5
  {
    Xor(Xor(Xor(Xor(s[x], s[x + 5]), s[x + 10]), s[x + 15]), s[x + 20])
  }

  function Parities(s: State): Plane {
    seq(5, x requires 0 <= x < 5 => Parity(s, x))
  }

  /** The word theta adds to every lane of column x, from the column parities. */
  function Spread(c: Plane, x: nat): Word
    requires x < 5
  {
    Xor(c[(x + 4) % 5], Rotl(c[(x + 1) % 5], 1))
  }

  function AddToColumns(s: State, c: Plane): State {
    seq(25, i requires 0 <= i < 25 => Xor(s[i], Spread(c, i % 5)))
  }

  function Theta(s: State): State {
    AddToColumns(s, Parities(s))
  }

  /** Lane i = x + 5*y is moved by pi to lane y + 5*((2*x + 3*y) % 5). */
  function PiTarget(i: nat): (j: nat)
    requires i < 25
    ensures j < 25
  {
    var x, y := i % 5, i / 5;
    y + 5 * ((2 * x + 3 * y) % 5)
  }

  function PiSource(j: nat): (i: nat)
    requires j < 25
    ensures i < 25
  {
    (j % 5 + 3 * (j / 5)) % 5 + 5 * (j % 5)
  }

  lemma Coordinates(x: nat, y: nat)
    requires x < 5 && y < 5
    ensures (x + 5 * y) % 5 == x && (x + 5 * y) / 5 == y
  {
  }

  lemma ModFive(n: int, q: int, x: nat)
    requires x < 5 && n == 5 * q + x
    ensures n % 5 == x
  {
  }

  /** pi and its inverse on coordinates. */
  lemma PiCoordinates(x: nat, y: nat)
    requires x < 5 && y < 5
    ensures (y + 3 * ((2 * x + 3 * y) % 5)) % 5 == x
    ensures (2 * ((x + 3 * y) % 5) + 3 * x) % 5 == y
  {
    var w, q := (2 * x + 3 * y) % 5, (2 * x + 3 * y) / 5;
    ModFive(y + 3 * w, x + 2 * y - 3 * q, x);
    var v, p := (x + 3 * y) % 5, (x + 3 * y) / 5;
    ModFive(2 * v + 3 * x, x + y - 2 * p, y);
  }

  lemma PiSourceTarget(i: nat)
    requires i < 25
    ensures PiSource(PiTarget(i)) == i && PiTarget(PiSource(i)) == i
  {
    hide PiSource, PiTarget;
    var x, y := i % 5, i / 5;
    assert i == x + 5 * y;
    var w, v := (2 * x + 3 * y) % 5, (x + 3 * y) % 5;
    PiCoordinates(x, y);
    PiAt(x, y);
    PiAt(y, w);
    PiAt(v, x);
  }

  lemma PiAt(x: nat, y: nat)
    requires x < 5 && y < 5
    ensures PiTarget(x + 5 * y) == y + 5 * ((2 * x + 3 * y) % 5)
    ensures PiSource(x + 5 * y) == (x + 3 * y) % 5 + 5 * x
  {
    Coordinates(x, y);
  }

  function RhoPi(s: State): State {
    seq(25, j requires 0 <= j < 25 => Rotl(s[PiSource(j)], Offset(PiSource(j))))
  }

  /** The lane k places to the right of lane i in its row, cyclically: (x + k) % 5 + 5*y. */
  function Right(i: nat, k: nat): (j: nat)
    requires i < 25 && k < 5
    ensures j < 25
  {
    if i % 5 + k < 5 then i + k else i + k - 5
  }

  lemma RightAt(i: nat, k: nat)
    requires i < 25 && k < 5
    ensures Right(i, k) == (i % 5 + k) % 5 + 5 * (i / 5)
  {
    var x, y := i % 5, i / 5;
    assert i == x + 5 * y;
    if x + k < 5 {
      ModFive(x + k, 0, x + k);
    } else {
      ModFive(x + k, 1, x + k - 5);
    }
  }

  function Chi(b: State): State {
    seq(25, i requires 0 <= i < 25 => Xor(b[i], And(Not(b[Right(i, 1)]), b[Right(i, 2)])))
  }

  lemma ChiAt(b: State, i: nat, z: nat)
    requires i < 25 && z < 64
    ensures Chi(b)[i][z] == (b[i][z] != (!b[Right(i, 1)][z] && b[Right(i, 2)][z]))
  {
    hide Right;
  }

  function RoundKey(round: nat): Word
    requires round < 24
  {
    OfNat(ROUND_CONSTANTS[round])
  }

  function Iota(s: State, round: nat): State
    requires round < 24
  {
    s[0 := Xor(s[0], RoundKey(round))]
  }

  function Round(s: State, round: nat): State
    requires round < 24
  {
    Iota(Chi(RhoPi(Theta(s))), round)
  }

  function Rounds(s: State, n: nat): State
    requires n <= 24
  {
    if n == 0 then s else Round(Rounds(s, n - 1), n - 1)
  }

  function Permute(s: State): State {
    Rounds(s, 24)
  }
}
