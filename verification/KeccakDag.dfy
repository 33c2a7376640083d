/** The permutation as the DAG kernel runs it: rho and pi in place along the 24-cycle of pi with one
    carried lane, chi in place with a five-lane copy of each row. */
module KeccakDag {
  import opened Words
  import opened KeccakF
  import opened KeccakCycle
  import opened Sponge
  import KeccakHost

  /** The state when the first n targets on the cycle hold their final lanes. */
  ghost function CycleProgress(s: State, n: nat): State {
    seq(25, j requires 0 <= j < 25 =>
      if 0 < j && Position(PiSource(j)) < n then Rotl(s[PiSource(j)], Offset(PiSource(j))) else s[j])
  }

  /** Where a lane comes from: its source is at position n of the cycle exactly when it is the n-th
      target. */
  lemma SourcePosition(n: nat, j: nat)
    requires n < 24 && 0 < j < 25
    ensures 0 < PiSource(j) && Position(PiSource(j)) < 24
    ensures Position(PiSource(j)) == n <==> j == PILN[n]
    ensures j == PILN[n] ==> PiSource(j) == CycleLane(n) && Offset(PiSource(j)) == Turn(n)
  {
    hide Offset, Position, PiSource, PiTarget, Turn, CycleLane;
    SourceOnCycle(j);
    PiSourceTarget(j);
    CycleCovers(PiSource(j));
    CycleTables(n);
    PiSourceTarget(CycleLane(n));
  }

  /** The n-th step places the carried lane, */
  lemma CyclePlaces(s: State, n: nat)
    requires n < 24
    ensures 0 < PILN[n] < 25 && Turn(n) < 64
    ensures CycleProgress(s, n)[PILN[n]] == s[PILN[n]]
    ensures CycleProgress(s, n + 1)[PILN[n]] == Rotl(s[CycleLane(n)], Turn(n))
  {
    hide Rotl, Offset, Position, PiSource, Turn, CycleLane;
    CycleTargets(n);
    TurnInRange(n);
    SourcePosition(n, PILN[n]);
  }

  /** and leaves all others alone. */
  lemma CycleLeaves(s: State, n: nat, j: nat)
    requires n < 24 && j < 25 && j != PILN[n]
    ensures CycleProgress(s, n + 1)[j] == CycleProgress(s, n)[j]
  {
    hide Rotl, Offset, Position, PiSource, Turn, CycleLane;
    if 0 < j {
      SourcePosition(n, j);
    }
  }

  lemma CycleTargets(n: nat)
    requires n < 24
    ensures 0 < PILN[n] < 25
  {
    CycleTables(n);
    if n < 23 {
      CycleTables(n + 1);
    }
  }

  lemma SourceOnCycle(j: nat)
    requires 0 < j < 25
    ensures 0 < PiSource(j)
  {
    PiSourceTarget(j);
  }

  lemma CycleProgressEnds(s: State)
    ensures CycleProgress(s, 0) == s
    ensures CycleProgress(s, 24) == RhoPi(s)
  {
    hide Rotl, Offset, Position, PiSource;
    forall j: nat | j < 25
      ensures CycleProgress(s, 24)[j] == RhoPi(s)[j]
    {
      if 0 < j {
        SourceOnCycle(j);
        CycleCovers(PiSource(j));
      } else {
        LaneZeroStays();
        RotlZero(s[0]);
      }
    }
  }

  lemma LaneZeroStays()
    ensures PiSource(0) == 0 && Offset(0) == 0
  {
  }

  method RhoPiAlongCycle(state: array<Word>)
    requires state.Length == 25
    modifies state
    ensures state[..] == RhoPi(old(state[..]))
  {
    hide Rotl, CycleProgress, RhoPi, Turn;
    ghost var s: State := state[..];
    var t := state[1];
    CycleProgressEnds(s);
    for i := 0 to 24
      invariant state[..] == CycleProgress(s, i)
      invariant i < 24 ==> t == s[CycleLane(i)]
    {
      CyclePlaces(s, i);
      forall k: nat | k < 25 && k != PILN[i]
        ensures CycleProgress(s, i + 1)[k] == CycleProgress(s, i)[k]
      {
        CycleLeaves(s, i, k);
      }
      var j := PILN[i];
      var displaced := state[j];
      state[j] := Rotl(t, Turn(i));
      t := displaced;
    }
  }

  lemma TurnInRange(n: nat)
    requires n < 24
    ensures Turn(n) < 64
  {
    CycleTables(n);
  }

  /** The state when chi has rewritten the rows before y and the first x lanes of row y. */
  ghost function RowProgress(b: State, y: nat, x: nat): State {
    seq(25, i requires 0 <= i < 25 =>
      if i / 5 < y || (i / 5 == y && i % 5 < x) then Xor(b[i], And(Not(b[Right(i, 1)]), b[Right(i, 2)])) else b[i])
  }

  lemma RowProgressStep(b: State, y: nat, x: nat)
    requires x < 5 && y < 5
    ensures RowProgress(b, y, x)[y * 5 + x] == b[y * 5 + x]
    ensures RowProgress(b, y, x)[y * 5 + x :=
              Xor(b[y * 5 + x], And(Not(b[y * 5 + (x + 1) % 5]), b[y * 5 + (x + 2) % 5]))]
         == RowProgress(b, y, x + 1)
  {
    hide Xor, And, Not, Right;
    Coordinates(x, y);
    RightAt(x + 5 * y, 1);
    RightAt(x + 5 * y, 2);
  }

  lemma RowProgressEnds(b: State, y: nat)
    requires y < 5
    ensures RowProgress(b, 0, 0) == b
    ensures RowProgress(b, y, 5) == RowProgress(b, y + 1, 0)
    ensures RowProgress(b, 5, 0) == Chi(b)
  {
    hide Xor, And, Not, Right;
  }

  lemma RowUntouched(b: State, y: nat, x: nat)
    requires y < 5 && x < 5
    ensures RowProgress(b, y, 0)[y * 5 + x] == b[y * 5 + x]
  {
    hide Xor, And, Not, Right;
    Coordinates(x, y);
  }

  method ChiByRows(state: array<Word>)
    requires state.Length == 25
    modifies state
    ensures state[..] == Chi(old(state[..]))
  {
    hide Xor, And, Not, RowProgress, Chi;
    ghost var b: State := state[..];
    RowProgressEnds(b, 0);
    var c := new Word[5](_ => Zero());
    for y := 0 to 5
      invariant state[..] == RowProgress(b, y, 0)
    {
      RowProgressEnds(b, y);
      for x := 0 to 5
        invariant state[..] == RowProgress(b, y, 0)
        invariant forall k | 0 <= k < x :: c[k] == b[y * 5 + k]
      {
        RowUntouched(b, y, x);
        c[x] := state[y * 5 + x];
      }
      for x := 0 to 5
        invariant state[..] == RowProgress(b, y, x)
        invariant forall k | 0 <= k < 5 :: c[k] == b[y * 5 + k]
      {
        RowProgressStep(b, y, x);
        state[y * 5 + x] := Xor(state[y * 5 + x], And(Not(c[(x + 1) % 5]), c[(x + 2) % 5]));
      }
    }
  }

  /** The device permutation computes the host permutation. */
  method KeccakF1600(state: array<Word>)
    requires state.Length == 25
    modifies state
    ensures state[..] == Permute(old(state[..]))
  {
    hide Xor, Theta, RhoPi, Chi, RoundKey;
    ghost var s: State := state[..];
    for round := 0 to 24
      invariant state[..] == Rounds(s, round)
    {
      KeccakHost.ThetaInPlace(state);
      RhoPiAlongCycle(state);
      ChiByRows(state);
      state[0] := Xor(state[0], RoundKey(round));
    }
  }

  // ---------------------------------------------------------------- the byte-streaming sponge

  /** A byte added to the state, bit by bit. */
  lemma AddedByteAt(s: State, i: nat, b: Byte, l: nat, z: nat)
    requires i < 200 && l < 25 && z < 64
    ensures AddByte(s, i, b)[l][z] == (s[l][z] != (8 * i <= 64 * l + z < 8 * i + 8 && b[64 * l + z - 8 * i]))
  {
    hide Widen, Shl;
    ShiftedByteAt(b, i % 8, z);
  }

  lemma PadBitAt(rate: nat, q: nat, t: nat, k: nat)
    requires t < rate && k < 8 * (rate - t)
    ensures |Pad101(8 * rate, 8 * (rate * q + t))| == 8 * (rate - t)
    ensures Pad101(8 * rate, 8 * (rate * q + t))[k] == (k == 0 || k == 8 * (rate - t) - 1)
  {
    PadLengthOfBytes(rate, q, t);
  }

  lemma PadWordsAt(s: State, tail: seq<Byte>, rate: nat, q: nat, l: nat, z: nat)
    requires |tail| < rate <= 200 && l < 25 && z < 64
    ensures var p := Pad101(8 * rate, 8 * (rate * q + |tail|));
            |tail| + |p| / 8 == rate && |p| % 8 == 0
    ensures AddByte(AddByte(AddBlock(s, BitsOf(tail)), |tail|, FIRST_BIT), rate - 1, LAST_BIT)[l][z]
         == AddBlock(s, BitsOf(tail) + Pad101(8 * rate, 8 * (rate * q + |tail|)))[l][z]
  {
    hide AddByte, AddBlock, BitsOf, Pad101;
    PadBitAt(rate, q, |tail|, 0);
    var p := Pad101(8 * rate, 8 * (rate * q + |tail|));
    var t := AddBlock(s, BitsOf(tail));
    AddedByteAt(AddByte(t, |tail|, FIRST_BIT), rate - 1, LAST_BIT, l, z);
    AddedByteAt(t, |tail|, FIRST_BIT, l, z);
    BlockAt(s, BitsOf(tail), l, z);
    BlockAt(s, BitsOf(tail) + p, l, z);
    var k := 64 * l + z;
    if 8 * |tail| <= k < 8 * rate {
      PadBitAt(rate, q, |tail|, k - 8 * |tail|);
    }
  }

  /** The two words added after the last byte are the padding of the standard. */
  lemma PadWords(s: State, tail: seq<Byte>, rate: nat, q: nat)
    requires |tail| < rate <= 200
    ensures |BitsOf(tail) + Pad101(8 * rate, 8 * (rate * q + |tail|))| == 8 * rate
    ensures AddByte(AddByte(AddBlock(s, BitsOf(tail)), |tail|, FIRST_BIT), rate - 1, LAST_BIT)
         == AddBlock(s, BitsOf(tail) + Pad101(8 * rate, 8 * (rate * q + |tail|)))
  {
    hide AddByte, AddBlock, BitsOf, Pad101;
    PadBitAt(rate, q, |tail|, 0);
    var u := AddByte(AddByte(AddBlock(s, BitsOf(tail)), |tail|, FIRST_BIT), rate - 1, LAST_BIT);
    var v := AddBlock(s, BitsOf(tail) + Pad101(8 * rate, 8 * (rate * q + |tail|)));
    forall l: nat, z: nat | l < 25 && z < 64
      ensures u[l][z] == v[l][z]
    {
      PadWordsAt(s, tail, rate, q, l, z);
    }
    StateExt(u, v);
  }

  lemma ShiftedOut(s: State, i: nat)
    requires i < 200
    ensures Narrow(Shr(s[i / 8], 8 * (i % 8))) == StateByte(s, i)
  {
    forall z: nat | z < 8
      ensures Narrow(Shr(s[i / 8], 8 * (i % 8)))[z] == StateByte(s, i)[z]
    {
    }
  }

  /** The device hash, fed one byte at a time, is the standard's sponge as well. */
  method Keccak512(data: seq<Byte>) returns (out: seq<Byte>)
    ensures |out| == 64
    ensures BitsOf(out) == Hash(BitsOf(data), 576, 512)
  {
    hide AddBlock, BitsOf, Permute, StateByte, Truncate, Pad101, Absorb, Xor, Shl, Shr, Narrow, Widen;
    var state := new Word[25](_ => Zero());
    var rate := 72;
    var blockSize := 0;
    ghost var q := 0;
    ghost var s: State := state[..];
    assert s == ZeroState();
    ghost var pad := Pad101(576, 8 * |data|);
    ghost var goal := Absorb(s, BitsOf(data) + pad, 576);
    assert data[0..] == data && BitsOf(data[0..0]) == [];
    NothingAdded(s);
    for i := 0 to |data|
      invariant 0 <= blockSize < 72 && i == 72 * q + blockSize
      invariant state[..] == AddBlock(s, BitsOf(data[72 * q..i]))
      invariant Absorb(s, BitsOf(data[72 * q..]) + pad, 576) == goal
    {
      ghost var block := data[72 * q..i];
      AddByteExtends(s, block, data[i]);
      assert data[72 * q..i + 1] == block + [data[i]];
      state[blockSize / 8] := Xor(state[blockSize / 8], Shl(Widen(data[i]), 8 * (blockSize % 8)));
      blockSize := blockSize + 1;
      if blockSize == rate {
        KeccakHost.AbsorbOneBlock(s, data[72 * q..], pad, 72);
        assert data[72 * q..][..72] == data[72 * q..i + 1] && data[72 * q..][72..] == data[72 * q + 72..];
        KeccakF1600(state);
        blockSize := 0;
        s := state[..];
        q := q + 1;
        assert BitsOf(data[72 * q..i + 1]) == [];
        NothingAdded(s);
      }
    }
    ghost var tail := data[72 * q..];
    assert data[72 * q..|data|] == tail;
    PadWords(s, tail, 72, q);
    state[blockSize / 8] := Xor(state[blockSize / 8], Shl(Widen(FIRST_BIT), 8 * (blockSize % 8)));
    state[(rate - 1) / 8] := Xor(state[(rate - 1) / 8], Shl(Widen(LAST_BIT), 8 * ((rate - 1) % 8)));
    assert |data| == 72 * q + |tail|;
    assert state[..] == AddBlock(s, BitsOf(tail) + pad);
    KeccakHost.AbsorbLastBlock(s, BitsOf(tail) + pad, 72);
    KeccakF1600(state);
    out := [];
    for i := 0 to 64
      invariant state[..] == goal && |out| == i
      invariant forall k: nat | k < i :: out[k] == StateByte(state[..], k)
    {
      ShiftedOut(state[..], i);
      out := out + [Narrow(Shr(state[i / 8], 8 * (i % 8)))];
    }
    KeccakHost.OutputBits(goal, out);
  }

  lemma BitsOfInjective(a: seq<Byte>, b: seq<Byte>)
    requires BitsOf(a) == BitsOf(b)
    ensures a == b
  {
    forall i: nat | i < |a|
      ensures a[i] == b[i]
    {
      forall z: nat | z < 8
        ensures a[i][z] == b[i][z]
      {
        BytePosition(i, z);
        assert a[i][z] == BitsOf(a)[8 * i + z] && b[i][z] == BitsOf(b)[8 * i + z];
      }
    }
  }

  /** On every message the device hash and the host hash return the same 64 bytes. */
  method BothHashes(data: seq<Byte>) returns (host: seq<Byte>, device: seq<Byte>)
    ensures host == device && |host| == 64
  {
    hide BitsOf;
    host := KeccakHost.Keccak(data, 64);
    device := Keccak512(data);
    BitsOfInjective(host, device);
  }
}
