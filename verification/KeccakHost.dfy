/** The permutation and the sponge as the host code runs them: in place on an array of 25 lanes,
    with a scratch array for rho and pi, absorbing the message block by block. */
module KeccakHost {
  import opened Words
  import opened KeccakF
  import opened Sponge

  method ColumnParities(state: array<Word>) returns (c: array<Word>)
    requires state.Length == 25
    ensures fresh(c) && c.Length == 5 && c[..] == Parities(state[..])
  {
    hide Xor;
    c := new Word[5](_ => Zero());
    for x := 0 to 5
      invariant forall k: nat | k < x :: c[k] == Parity(state[..], k)
    {
      c[x] := Xor(Xor(Xor(Xor(state[x], state[x + 5]), state[x + 10]), state[x + 15]), state[x + 20]);
    }
  }

  method ColumnSpreads(c: array<Word>) returns (d: array<Word>)
    requires c.Length == 5
    ensures fresh(d) && d.Length == 5
    ensures forall k: nat | k < 5 :: d[k] == Spread(c[..], k)
  {
    hide Xor, Rotl, Spread;
    d := new Word[5](_ => Zero());
    ghost var plane: Plane := c[..];
    for x := 0 to 5
      invariant c[..] == plane
      invariant forall k: nat | k < x :: d[k] == Spread(plane, k)
    {
      Neighbours(x);
      var west, east := (x + 4) % 5, (x + 1) % 5;
      SpreadAt(plane, x, west, east);
      d[x] := Xor(c[west], Rotl(c[east], 1));
    }
  }

  lemma Neighbours(x: nat)
    requires x < 5
    ensures (x + 4) % 5 == (if x == 0 then 4 else x - 1) && (x + 1) % 5 == (if x == 4 then 0 else x + 1)
  {
  }

  lemma SpreadAt(c: Plane, x: nat, west: nat, east: nat)
    requires x < 5 && west == (x + 4) % 5 && east == (x + 1) % 5
    ensures Spread(c, x) == Xor(c[west], Rotl(c[east], 1))
  {
    hide Xor, Rotl;
  }

  /** The state when theta has added to the columns before x and to the first y lanes of column x. */
  ghost function ThetaProgress(s: State, c: Plane, x: nat, y: nat): State {
    seq(25, i requires 0 <= i < 25 =>
      if i % 5 < x || (i % 5 == x && i / 5 < y) then Xor(s[i], Spread(c, i % 5)) else s[i])
  }

  lemma ThetaProgressStep(s: State, c: Plane, x: nat, y: nat)
    requires x < 5 && y < 5
    ensures var p := ThetaProgress(s, c, x, y);
            var i := x + 5 * y;
            p[i] == s[i] && p[i := Xor(s[i], Spread(c, x))] == ThetaProgress(s, c, x, y + 1)
  {
    hide Xor, Spread;
    Coordinates(x, y);
  }

  lemma ThetaProgressEnds(s: State, c: Plane, x: nat)
    requires x < 5
    ensures ThetaProgress(s, c, 0, 0) == s
    ensures ThetaProgress(s, c, x, 5) == ThetaProgress(s, c, x + 1, 0)
    ensures ThetaProgress(s, c, 5, 0) == AddToColumns(s, c)
  {
    hide Xor, Spread;
  }

  method ThetaInPlace(state: array<Word>)
    requires state.Length == 25
    modifies state
    ensures state[..] == Theta(old(state[..]))
  {
    hide Xor, Rotl, Parities, ThetaProgress, AddToColumns, Spread;
    ghost var s: State := state[..];
    var c := ColumnParities(state);
    var d := ColumnSpreads(c);
    ghost var p: Plane := Parities(s);
    ThetaProgressEnds(s, p, 0);
    for x := 0 to 5
      invariant forall k: nat | k < 5 :: d[k] == Spread(p, k)
      invariant state[..] == ThetaProgress(s, p, x, 0)
    {
      for y := 0 to 5
        invariant forall k: nat | k < 5 :: d[k] == Spread(p, k)
        invariant state[..] == ThetaProgress(s, p, x, y)
      {
        ThetaProgressStep(s, p, x, y);
        state[x + 5 * y] := Xor(state[x + 5 * y], d[x]);
      }
      ThetaProgressEnds(s, p, x);
    }
  }

  /** The scratch array when rho and pi have moved the columns before x and y lanes of column x. */
  ghost function RhoPiProgress(s: State, b: State, x: nat, y: nat): State {
    seq(25, j requires 0 <= j < 25 =>
      var i := PiSource(j);
      if i % 5 < x || (i % 5 == x && i / 5 < y) then Rotl(s[i], Offset(i)) else b[j])
  }

  lemma RhoPiProgressAt(s: State, b: State, x: nat, y: nat, j: nat)
    requires x < 5 && y < 5 && j < 25
    ensures RhoPiProgress(s, b, x, y + 1)[j]
         == if j == PiTarget(x + 5 * y) then Rotl(s[x + 5 * y], Offset(x + 5 * y)) else RhoPiProgress(s, b, x, y)[j]
  {
    hide Rotl, Offset, PiSource, PiTarget;
    Coordinates(x, y);
    PiSourceTarget(x + 5 * y);
    PiSourceTarget(j);
  }

  lemma RhoPiProgressStep(s: State, b: State, x: nat, y: nat)
    requires x < 5 && y < 5
    ensures RhoPiProgress(s, b, x, y)[y + 5 * ((2 * x + 3 * y) % 5) := Rotl(s[x + 5 * y], Offset(x + 5 * y))]
         == RhoPiProgress(s, b, x, y + 1)
  {
    hide Rotl, Offset, PiSource, PiTarget, RhoPiProgress;
    PiAt(x, y);
    var t := PiTarget(x + 5 * y);
    var next := RhoPiProgress(s, b, x, y)[t := Rotl(s[x + 5 * y], Offset(x + 5 * y))];
    forall j: nat | j < 25
      ensures next[j] == RhoPiProgress(s, b, x, y + 1)[j]
    {
      RhoPiProgressAt(s, b, x, y, j);
    }
    assert next == RhoPiProgress(s, b, x, y + 1);
  }

  lemma RhoPiProgressEnds(s: State, b: State, x: nat)
    requires x < 5
    ensures RhoPiProgress(s, b, 0, 0) == b
    ensures RhoPiProgress(s, b, x, 5) == RhoPiProgress(s, b, x + 1, 0)
    ensures RhoPiProgress(s, b, 5, 0) == RhoPi(s)
  {
    hide Rotl, Offset, PiSource;
  }

  method RhoPiToScratch(state: array<Word>) returns (b: array<Word>)
    requires state.Length == 25
    ensures fresh(b) && b.Length == 25 && b[..] == RhoPi(state[..])
  {
    hide Rotl, Offset, RhoPiProgress, RhoPi;
    b := new Word[25](_ => Zero());
    ghost var b0: State := b[..];
    ghost var s: State := state[..];
    RhoPiProgressEnds(s, b0, 0);
    for x := 0 to 5
      invariant b[..] == RhoPiProgress(s, b0, x, 0)
    {
      for y := 0 to 5
        invariant b[..] == RhoPiProgress(s, b0, x, y)
      {
        RhoPiProgressStep(s, b0, x, y);
        b[y + 5 * ((2 * x + 3 * y) % 5)] := Rotl(state[x + 5 * y], Offset(x + 5 * y));
      }
      RhoPiProgressEnds(s, b0, x);
    }
  }

  ghost function ChiProgress(s: State, b: State, x: nat, y: nat): State {
    seq(25, i requires 0 <= i < 25 =>
      if i % 5 < x || (i % 5 == x && i / 5 < y) then Xor(b[i], And(Not(b[Right(i, 1)]), b[Right(i, 2)])) else s[i])
  }

  lemma ChiProgressStep(s: State, b: State, x: nat, y: nat)
    requires x < 5 && y < 5
    ensures ChiProgress(s, b, x, y)[x + 5 * y :=
              Xor(b[x + 5 * y], And(Not(b[(x + 1) % 5 + 5 * y]), b[(x + 2) % 5 + 5 * y]))]
         == ChiProgress(s, b, x, y + 1)
  {
    hide Xor, And, Not, Right;
    Coordinates(x, y);
    RightAt(x + 5 * y, 1);
    RightAt(x + 5 * y, 2);
  }

  lemma ChiProgressEnds(s: State, b: State, x: nat)
    requires x < 5
    ensures ChiProgress(s, b, 0, 0) == s
    ensures ChiProgress(s, b, x, 5) == ChiProgress(s, b, x + 1, 0)
    ensures ChiProgress(s, b, 5, 0) == Chi(b)
  {
    hide Xor, And, Not, Right;
  }

  method ChiFromScratch(state: array<Word>, b: array<Word>)
    requires state.Length == 25 && b.Length == 25 && state != b
    modifies state
    ensures state[..] == Chi(b[..])
  {
    hide Xor, And, Not, ChiProgress, Chi;
    ghost var s: State := state[..];
    ghost var t: State := b[..];
    ChiProgressEnds(s, t, 0);
    for x := 0 to 5
      invariant b[..] == t && state[..] == ChiProgress(s, t, x, 0)
    {
      for y := 0 to 5
        invariant b[..] == t && state[..] == ChiProgress(s, t, x, y)
      {
        ChiProgressStep(s, t, x, y);
        state[x + 5 * y] := Xor(b[x + 5 * y], And(Not(b[(x + 1) % 5 + 5 * y]), b[(x + 2) % 5 + 5 * y]));
      }
      ChiProgressEnds(s, t, x);
    }
  }

  method KeccakF1600(state: array<Word>)
    requires state.Length == 25
    modifies state
    ensures state[..] == Permute(old(state[..]))
  {
    hide Xor, Theta, RhoPi, Chi, RoundKey;
    ghost var s: State := state[..];
    for round := 0 to 24
      invariant state[..] == Rounds(s, round)
    {
      ThetaInPlace(state);
      var b := RhoPiToScratch(state);
      ChiFromScratch(state, b);
      state[0] := Xor(state[0], RoundKey(round));
    }
  }

  // ---------------------------------------------------------------- the hash

  /** XORs the first n bytes of a block into the state, byte by byte. */
  method XorIntoState(state: array<Word>, block: array<Byte>, n: nat)
    requires state.Length == 25 && n <= 200 && n <= block.Length
    modifies state
    ensures state[..] == AddBlock(old(state[..]), BitsOf(block[..n]))
  {
    hide AddBlock, BitsOf, AddByte, SetByte, XorByte, StateByte;
    ghost var s: State := state[..];
    NothingAdded(s);
    assert BitsOf(block[..0]) == [];
    for i := 0 to n
      invariant state[..] == AddBlock(s, BitsOf(block[..i]))
    {
      AddByteExtends(s, block[..i], block[i]);
      SetByteAdds(state[..], i, block[i]);
      assert block[..i + 1] == block[..i] + [block[i]];
      state[i / 8] := SetByte(state[i / 8], i % 8, XorByte(StateByte(state[..], i), block[i]));
    }
  }

  /** Adds a whole block of the message: the sums go to a byte buffer that is then copied back. */
  method AddMessageBlock(state: array<Word>, temp: array<Byte>, data: seq<Byte>, pos: nat, rate: nat)
    requires state.Length == 25 && temp.Length == 200 && rate <= 200 && pos + rate <= |data|
    modifies state, temp
    ensures state[..] == AddBlock(old(state[..]), BitsOf(data[pos..pos + rate]))
  {
    hide AddBlock, BitsOf, AddByte, SetByte, XorByte, StateByte;
    ghost var s: State := state[..];
    for i := 0 to rate
      invariant state[..] == s
      invariant forall k: nat | k < i :: temp[k] == XorByte(StateByte(s, k), data[pos + k])
    {
      temp[i] := XorByte(StateByte(state[..], i), data[pos + i]);
    }
    NothingAdded(s);
    assert BitsOf(data[pos..pos]) == [];
    for i := 0 to rate
      invariant forall k: nat | k < rate :: temp[k] == XorByte(StateByte(s, k), data[pos + k])
      invariant state[..] == AddBlock(s, BitsOf(data[pos..pos + i]))
    {
      var block := data[pos..pos + i];
      AddByteExtends(s, block, data[pos + i]);
      ByteBeyondBlock(s, block, i);
      SetByteAdds(state[..], i, data[pos + i]);
      assert data[pos..pos + i + 1] == block + [data[pos + i]];
      state[i / 8] := SetByte(state[i / 8], i % 8, temp[i]);
    }
  }

  /** The last block: the rest of the message in a cleared buffer, with the two padding bits. */
  method PadLastBlock(temp: array<Byte>, tail: seq<Byte>, rate: nat)
    requires temp.Length == 200 && |tail| < rate <= 200
    modifies temp
    ensures forall i: nat | i < rate :: temp[i] == PaddedByte(tail, rate, i)
  {
    hide XorByte;
    var len := |tail|;
    for i := 0 to 200
      invariant forall k: nat | k < i :: temp[k] == ZERO_BYTE
    {
      temp[i] := ZERO_BYTE;
    }
    for i := 0 to len
      invariant forall k: nat | k < 200 :: temp[k] == if k < i then tail[k] else ZERO_BYTE
    {
      temp[i] := tail[i];
    }
    temp[len] := XorByte(temp[len], FIRST_BIT);
    temp[rate - 1] := XorByte(temp[rate - 1], LAST_BIT);
  }

  method CopyOut(state: array<Word>, outputLen: nat) returns (output: seq<Byte>)
    requires state.Length == 25 && outputLen <= 200
    ensures |output| == outputLen && forall i: nat | i < outputLen :: output[i] == StateByte(state[..], i)
  {
    hide StateByte;
    output := [];
    for i := 0 to outputLen
      invariant |output| == i && forall k: nat | k < i :: output[k] == StateByte(state[..], k)
    {
      output := output + [StateByte(state[..], i)];
    }
  }

  /** For outputs that fit in one block, the host hash is the standard's sponge on the bits of the
      message, with rate 1600 - 16*outputLen. */
  method Keccak(data: seq<Byte>, outputLen: nat) returns (output: seq<Byte>)
    requires 0 < outputLen <= 66
    ensures |output| == outputLen
    ensures BitsOf(output) == Hash(BitsOf(data), 1600 - 16 * outputLen, 8 * outputLen)
  {
    hide AddBlock, BitsOf, Permute, PaddedByte, StateByte, Truncate, Pad101, Absorb;
    var rate := 200 - 2 * outputLen;
    var state := new Word[25](_ => Zero());
    var temp := new Byte[200](_ => ZERO_BYTE);
    var pos, len := 0, |data|;
    ghost var q := 0;
    ghost var pad := Pad101(8 * rate, 8 * |data|);
    ghost var goal := Absorb(ZeroState(), BitsOf(data) + pad, 8 * rate);
    assert state[..] == ZeroState();
    while len >= rate
      invariant 0 <= pos && 0 <= len && pos + len == |data|
      invariant pos == rate * q
      invariant Absorb(state[..], BitsOf(data[pos..]) + pad, 8 * rate) == goal
    {
      AbsorbOneBlock(state[..], data[pos..], pad, rate);
      assert data[pos..][..rate] == data[pos..pos + rate] && data[pos..][rate..] == data[pos + rate..];
      AddMessageBlock(state, temp, data, pos, rate);
      KeccakF1600(state);
      pos := pos + rate;
      len := len - rate;
      assert rate * (q + 1) == rate * q + rate;
      q := q + 1;
    }
    ghost var tail := data[pos..];
    assert |data| == rate * q + |tail|;
    PadLastBlock(temp, data[pos..], rate);
    PaddedBlockBits(tail, rate, q, temp[..rate]);
    AbsorbLastBlock(state[..], BitsOf(temp[..rate]), rate);
    XorIntoState(state, temp, rate);
    KeccakF1600(state);
    output := CopyOut(state, outputLen);
    OutputBits(state[..], output);
  }

  /** Absorbing consumes the first block of the bytes that remain. */
  lemma AbsorbOneBlock(s: State, rest: seq<Byte>, pad: seq<bool>, rate: nat)
    requires 0 < rate <= 200 && rate <= |rest|
    ensures Absorb(s, BitsOf(rest) + pad, 8 * rate)
         == Absorb(Permute(AddBlock(s, BitsOf(rest[..rate]))), BitsOf(rest[rate..]) + pad, 8 * rate)
  {
    hide AddBlock, BitsOf, Permute;
    var p := BitsOf(rest) + pad;
    BitsOfConcat(rest[..rate], rest[rate..]);
    assert rest[..rate] + rest[rate..] == rest;
    assert p[..8 * rate] == BitsOf(rest[..rate]);
    assert p[8 * rate..] == BitsOf(rest[rate..]) + pad;
  }

  lemma AbsorbLastBlock(s: State, block: seq<bool>, rate: nat)
    requires 0 < rate <= 200 && |block| == 8 * rate
    ensures Absorb(s, block, 8 * rate) == Permute(AddBlock(s, block))
  {
    hide AddBlock, Permute;
    assert block[..8 * rate] == block;
  }

  lemma OutputBits(s: State, output: seq<Byte>)
    requires |output| <= 200 && forall i: nat | i < |output| :: output[i] == StateByte(s, i)
    ensures BitsOf(output) == Truncate(s, 8 * |output|)
  {
    hide StateByte;
    forall k: nat | k < 8 * |output|
      ensures BitsOf(output)[k] == Truncate(s, 8 * |output|)[k]
    {
      StateByteAt(s, k / 8, k % 8);
    }
  }

  lemma StateByteAt(s: State, i: nat, z: nat)
    requires i < 200 && z < 8
    ensures StateByte(s, i)[z] == s[(8 * i + z) / 64][(8 * i + z) % 64]
  {
    BytePosition(i, z);
  }
}
