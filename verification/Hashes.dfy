/** The two Keccak hashes of the program as functions on byte strings. */
module Hashes {
  import opened Arithmetic
  import opened Words
  import opened Octets
  import Sponge
  import KeccakHost
  import KeccakDag

  function ToByte(o: Octet): Byte {
    LowBits(o, 8)
  }

  function OfByte(b: Byte): Octet {
    SmallPowers();
    OfBits(b)
  }

  /** Bit z of a byte is the one of weight 2^z. */
  lemma ByteBits(o: Octet, z: nat)
    requires z < 8
    ensures ToByte(o)[z] == (o / Power2(z) % 2 == 1)
  {
    hide LowBits;
    LowBitAt(o, 8, z);
  }

  /** Bytes survive the change of representation, in both directions. */
  lemma ByteRoundTrip(o: Octet)
    ensures OfByte(ToByte(o)) == o
  {
    SmallPowers();
    OfLowBits(o, 8);
  }

  lemma BitsRoundTrip(b: Byte)
    ensures ToByte(OfByte(b)) == b
  {
    LowBitsOf(b);
  }

  function ToBytes(s: seq<Octet>): (b: seq<Byte>)
    ensures |b| == |s|
  {
    seq(|s|, i requires 0 <= i < |s| => ToByte(s[i]))
  }

  /** The bytes of a bit string, eight bits each. */
  function OctetsOf(bits: seq<bool>): (s: seq<Octet>)
    ensures |s| == |bits| / 8
  {
    seq(|bits| / 8, i requires 0 <= i < |bits| / 8 => OfByte(bits[8 * i..8 * i + 8]))
  }

  /** Keccak with an n-byte digest: the sponge of rate 1600 - 16*n. */
  function Keccak(data: seq<Octet>, n: nat): (digest: seq<Octet>)
    requires 0 < n <= 66
    ensures |digest| == n
  {
    OctetsOf(Sponge.Hash(Sponge.BitsOf(ToBytes(data)), 1600 - 16 * n, 8 * n))
  }

  function Keccak256(data: seq<Octet>): (digest: seq<Octet>)
    ensures |digest| == 32
  {
    Keccak(data, 32)
  }

  function Keccak512(data: seq<Octet>): (digest: seq<Octet>)
    ensures |digest| == 64
  {
    Keccak(data, 64)
  }

  lemma ByteOfBits(bytes: seq<Byte>, i: nat)
    requires i < |bytes|
    ensures |Sponge.BitsOf(bytes)| == 8 * |bytes|
    ensures Sponge.BitsOf(bytes)[8 * i..8 * i + 8] == bytes[i]
  {
    forall z: nat | z < 8
      ensures Sponge.BitsOf(bytes)[8 * i + z] == bytes[i][z]
    {
      assert (8 * i + z) / 8 == i && (8 * i + z) % 8 == z;
    }
  }

  lemma OctetsOfBits(bytes: seq<Byte>)
    ensures OctetsOf(Sponge.BitsOf(bytes)) == OctetsOfBytes(bytes)
  {
    hide OfByte, Sponge.BitsOf;
    forall i: nat | i < |bytes|
      ensures OctetsOf(Sponge.BitsOf(bytes))[i] == OfByte(bytes[i])
    {
      ByteOfBits(bytes, i);
    }
  }

  function OctetsOfBytes(bytes: seq<Byte>): (s: seq<Octet>)
    ensures |s| == |bytes|
  {
    seq(|bytes|, i requires 0 <= i < |bytes| => OfByte(bytes[i]))
  }

  /** The digest of the program's block-wise sponge. */
  method HashBytes(data: seq<Octet>, n: nat) returns (digest: seq<Octet>)
    requires 0 < n <= 66
    ensures digest == Keccak(data, n)
  {
    hide OfByte, ToBytes, OctetsOf, OctetsOfBytes;
    var bytes := KeccakHost.Keccak(ToBytes(data), n);
    OctetsOfBits(bytes);
    digest := OctetsOfBytes(bytes);
  }

  lemma BytesRoundTrip(bytes: seq<Byte>)
    ensures ToBytes(OctetsOfBytes(bytes)) == bytes
  {
    hide OfByte, ToByte;
    forall i: nat | i < |bytes|
      ensures ToByte(OfByte(bytes[i])) == bytes[i]
    {
      BitsRoundTrip(bytes[i]);
    }
  }

  lemma OctetsRoundTrip(s: seq<Octet>)
    ensures OctetsOfBytes(ToBytes(s)) == s
  {
    hide OfByte, ToByte;
    forall i: nat | i < |s|
      ensures OfByte(ToByte(s[i])) == s[i]
    {
      ByteRoundTrip(s[i]);
    }
  }

  /** Read as bits, the digest of a byte string is the sponge of its bits: nothing is lost between the
      two views, and distinct messages stay distinct. */
  lemma KeccakIsSponge(data: seq<Octet>, n: nat)
    requires 0 < n <= 66
    ensures Sponge.BitsOf(ToBytes(Keccak(data, n))) == Sponge.Hash(Sponge.BitsOf(ToBytes(data)), 1600 - 16 * n, 8 * n)
  {
    hide ToBytes, OctetsOf, OctetsOfBytes, Sponge.BitsOf, Sponge.Hash;
    var bits := Sponge.Hash(Sponge.BitsOf(ToBytes(data)), 1600 - 16 * n, 8 * n);
    var bytes := BytesOfBits(bits);
    BitsOfBytes(bits);
    OctetsOfBits(bytes);
    BytesRoundTrip(bytes);
  }

  lemma MessagesStayDistinct(a: seq<Octet>, b: seq<Octet>)
    requires Sponge.BitsOf(ToBytes(a)) == Sponge.BitsOf(ToBytes(b))
    ensures a == b
  {
    hide ToBytes, OctetsOfBytes, Sponge.BitsOf;
    KeccakDag.BitsOfInjective(ToBytes(a), ToBytes(b));
    OctetsRoundTrip(a);
    OctetsRoundTrip(b);
  }

  function BytesOfBits(bits: seq<bool>): (bytes: seq<Byte>)
    ensures |bytes| == |bits| / 8
  {
    seq(|bits| / 8, i requires 0 <= i < |bits| / 8 => bits[8 * i..8 * i + 8])
  }

  lemma BitsOfBytes(bits: seq<bool>)
    requires |bits| % 8 == 0
    ensures Sponge.BitsOf(BytesOfBits(bits)) == bits
  {
    hide BytesOfBits;
    forall k: nat | k < |bits|
      ensures k / 8 < |BytesOfBits(bits)| && BytesOfBits(bits)[k / 8][k % 8] == bits[k]
    {
      BitAt(bits, k / 8, k % 8);
    }
  }

  lemma BitAt(bits: seq<bool>, i: nat, z: nat)
    requires |bits| % 8 == 0 && z < 8 && 8 * i + z < |bits|
    ensures i < |BytesOfBits(bits)| && BytesOfBits(bits)[i][z] == bits[8 * i + z]
  {
  }
}
