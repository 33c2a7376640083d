/** Epochs: the chain of seed hashes, the size of the data an epoch needs, and the widths in which
    the program keeps these numbers. */
module Ethash {
  import opened Arithmetic
  import opened Octets
  import opened Hashes

  const UINT32_MAX: Word32 := 0xFFFF_FFFF

  const MAX_EPOCH_SCAN: Word32 := 2000

  const EPOCH_LENGTH := 30000

  type Hash32 = h: seq<Octet> | |h| == 32 witness seq(32, _ => 0)

  /** The bytes hashed first: the header and the nonce. */
  function SeedInput(header: Hash32, nonce: nat): seq<Octet> {
    header + LowBytes(nonce, 8)
  }

  /** The header comes first, then the eight bytes of the nonce, the least significant one first. */
  lemma SeedInputReads(header: Hash32, nonce: nat)
    requires nonce < U64
    ensures |SeedInput(header, nonce)| == 40
    ensures SeedInput(header, nonce)[..32] == header && LittleEndian(SeedInput(header, nonce)[32..]) == nonce
  {
    LowBytesValue(nonce, 8);
    PowerEight();
    assert SeedInput(header, nonce)[32..] == LowBytes(nonce, 8);
  }

  /** A message of 40 bytes that consists of header and nonce; there is only one. */
  predicate ReadsAs(message: seq<Octet>, header: Hash32, nonce: nat) {
    |message| == 40 && message[..32] == header && LittleEndian(message[32..]) == nonce
  }

  lemma SeedInputUnique(message: seq<Octet>, header: Hash32, nonce: nat)
    requires ReadsAs(message, header, nonce)
    ensures message == SeedInput(header, nonce)
  {
    BytesOfLittleEndian(message[32..]);
    assert message == message[..32] + message[32..];
  }

  lemma PowerEight()
    ensures Power256(8) == U64
  {
    assert Power256(4) == U32;
  }

  // ---------------------------------------------------------------- seeds

  /** The seed of epoch n: Keccak-256 applied n times to zero. */
  function Chain(n: nat): Hash32 {
    if n == 0 then seq(32, _ => 0) else Keccak256(Chain(n - 1))
  }

  function FirstEpoch(seedHash: Hash32, from: nat): Word32
    requires from <= MAX_EPOCH_SCAN
    decreases MAX_EPOCH_SCAN - from
  {
    if from == MAX_EPOCH_SCAN then UINT32_MAX
    else if Chain(from) == seedHash then from
    else FirstEpoch(seedHash, from + 1)
  }

  /** The epoch the program derives from a pool's seed hash. */
  function SeedEpoch(seedHash: Hash32): Word32 {
    FirstEpoch(seedHash, 0)
  }

  method EpochFromSeedHash(seedHash: Hash32) returns (epoch: Word32)
    ensures epoch == SeedEpoch(seedHash)
  {
    hide Keccak;
    var cur: Hash32 := seq(32, _ => 0);
    epoch := 0;
    while epoch < MAX_EPOCH_SCAN
      invariant epoch <= MAX_EPOCH_SCAN
      invariant cur == Chain(epoch) && FirstEpoch(seedHash, epoch) == SeedEpoch(seedHash)
    {
      if cur == seedHash {
        return epoch;
      }
      cur := HashBytes(cur, 32);
      epoch := epoch + 1;
    }
    epoch := UINT32_MAX;
  }

  /** The seed from which the cache of an epoch is built. */
  method CacheSeed(epoch: Word32) returns (seedHash: Hash32)
    ensures seedHash == Chain(epoch)
  {
    hide Keccak;
    seedHash := seq(32, _ => 0);
    var i: Word32 := 0;
    while i < epoch
      invariant 0 <= i <= epoch
      invariant seedHash == Chain(i)
    {
      seedHash := HashBytes(seedHash, 32);
      i := i + 1;
    }
  }

  lemma {:induction false} FirstEpochIsLeast(seedHash: Hash32, from: nat)
    requires from <= MAX_EPOCH_SCAN
    ensures var r := FirstEpoch(seedHash, from);
            if r == UINT32_MAX then forall k: nat | from <= k < MAX_EPOCH_SCAN :: Chain(k) != seedHash
            else from <= r < MAX_EPOCH_SCAN && Chain(r) == seedHash
                 && forall k: nat | from <= k < r :: Chain(k) != seedHash
    decreases MAX_EPOCH_SCAN - from
  {
    hide Chain;
    if from < MAX_EPOCH_SCAN && Chain(from) != seedHash {
      FirstEpochIsLeast(seedHash, from + 1);
    }
  }

  /** The derived epoch is the least one below 2000 whose seed is the given hash, and the sentinel
      exactly when there is none. */
  lemma SeedEpochIsLeast(seedHash: Hash32)
    ensures SeedEpoch(seedHash) < MAX_EPOCH_SCAN || SeedEpoch(seedHash) == UINT32_MAX
    ensures SeedEpoch(seedHash) == UINT32_MAX <==> forall k: nat | k < MAX_EPOCH_SCAN :: Chain(k) != seedHash
    ensures SeedEpoch(seedHash) < MAX_EPOCH_SCAN ==>
              && Chain(SeedEpoch(seedHash)) == seedHash
              && forall k: nat | k < SeedEpoch(seedHash) :: Chain(k) != seedHash
  {
    hide Chain;
    FirstEpochIsLeast(seedHash, 0);
  }

  /** A scanned epoch is recovered from its seed exactly when the chain has not met that seed
      before; otherwise an earlier epoch with the same seed is. */
  lemma EpochRecovered(epoch: nat)
    requires epoch < MAX_EPOCH_SCAN
    ensures SeedEpoch(Chain(epoch)) <= epoch && Chain(SeedEpoch(Chain(epoch))) == Chain(epoch)
    ensures SeedEpoch(Chain(epoch)) == epoch <==> forall k: nat | k < epoch :: Chain(k) != Chain(epoch)
  {
    hide Chain;
    SeedEpochIsLeast(Chain(epoch));
  }

  // ---------------------------------------------------------------- sizes

  function GetEpoch(blockNumber: nat): Word32 {
    blockNumber / EPOCH_LENGTH % U32
  }

  /** ECIP-1099: from epoch 390 on, sizes grow at half the rate. */
  function DagEpoch(epoch: Word32): Word32 {
    if epoch >= 390 then 195 + (epoch - 390) / 2 else epoch
  }

  function GetDatasetSize(epoch: Word32): nat {
    (0x4000_0000 + 0x80_0000 * DagEpoch(epoch)) / 128 * 128
  }

  function GetCacheSize(epoch: Word32): nat {
    (0x100_0000 + 0x2_0000 * DagEpoch(epoch)) / 64 * 64
  }

  /** Before the fork sizes follow the block's epoch of 30000 blocks, and from block 11700000 on the
      epoch of 60000 blocks, for every block whose epoch number fits in 32 bits. */
  lemma SizesFollowBlocks(blockNumber: nat)
    requires blockNumber < EPOCH_LENGTH * U32
    ensures DagEpoch(GetEpoch(blockNumber)) == if blockNumber < 11700000 then blockNumber / 30000 else blockNumber / 60000
  {
    var e := blockNumber / 30000;
    var d := blockNumber / 60000;
    assert e == 2 * d || e == 2 * d + 1;
  }

  /** The sizes are whole numbers of pairs and items, so rounding loses nothing; the dataset is
      sixty-four times the cache. */
  lemma SizesAreWhole(epoch: Word32)
    ensures GetDatasetSize(epoch) == 0x4000_0000 + 0x80_0000 * DagEpoch(epoch)
    ensures GetCacheSize(epoch) == 0x100_0000 + 0x2_0000 * DagEpoch(epoch)
    ensures GetDatasetSize(epoch) == 64 * GetCacheSize(epoch) && GetDatasetSize(epoch) % 128 == 0
  {
    var d: nat := DagEpoch(epoch);
    assert 0x4000_0000 + 0x80_0000 * d == 128 * (0x80_0000 + 0x1_0000 * d);
    assert 0x100_0000 + 0x2_0000 * d == 64 * (0x4_0000 + 0x800 * d);
  }

  /** Items of a dataset as the generator counts them, and pairs as the kernels do: 32-bit values. */
  function NumItems(dagSize: nat): Word32 {
    dagSize / 64 % U32
  }

  function DagPairs(dagSize: nat): Word32 {
    dagSize / 128 % U32
  }

  /** Where the kernels look for pair p, in 64-bit words: a 32-bit product. */
  function PairOffset(p: Word32): Word32 {
    p * 16 % U32
  }

  /** Which epochs keep each narrowed quantity exact: the size of the cache and the number of items
      below 65280, the number of pairs below 130816, the offsets of all pairs below 7938. */
  lemma EpochLimits(epoch: Word32)
    ensures GetCacheSize(epoch) < U32 <==> epoch < 65280
    ensures NumItems(GetDatasetSize(epoch)) == GetDatasetSize(epoch) / 64 <==> epoch < 65280
    ensures DagPairs(GetDatasetSize(epoch)) == GetDatasetSize(epoch) / 128 <==> epoch < 130816
    ensures (forall p: Word32 | p < GetDatasetSize(epoch) / 128 :: PairOffset(p) == p * 16) <==> epoch < 7938
  {
    SizesAreWhole(epoch);
    var pairs := GetDatasetSize(epoch) / 128;
    assert pairs == 0x80_0000 + 0x1_0000 * DagEpoch(epoch);
    if epoch < 7938 {
      assert pairs <= 0x1000_0000;
    } else {
      var p: Word32 := 0x1000_0000;
      assert p < pairs && PairOffset(p) == 0;
    }
  }

  /** The dataset of a job's epoch has whole pairs, no more than 2^28 of them. */
  lemma JobPairs(epoch: Word32)
    requires epoch < MAX_EPOCH_SCAN
    ensures GetDatasetSize(epoch) % 128 == 0 && 0 < GetDatasetSize(epoch) / 128 <= 0x1000_0000
  {
    SizesAreWhole(epoch);
    hide GetDatasetSize;
    var d: nat := DagEpoch(epoch);
    DivisionUnique(GetDatasetSize(epoch), 128, 0x80_0000 + 0x1_0000 * d, 0);
  }

  /** The epoch of a job: an unknown seed counts as epoch zero. */
  function JobEpoch(seedHash: Hash32): Word32 {
    if SeedEpoch(seedHash) == UINT32_MAX then 0 else SeedEpoch(seedHash)
  }

  /** The epoch a seed hash stands for: the first below 2000 with that seed, and zero if there is none. */
  ghost predicate IsSeedEpoch(seedHash: Hash32, epoch: nat) {
    if exists k: nat :: k < 2000 && Chain(k) == seedHash
    then Chain(epoch) == seedHash && forall k: nat | k < epoch :: Chain(k) != seedHash
    else epoch == 0
  }

  /** A job's epoch is that of its seed hash, unchanged. */
  lemma JobEpochIsSeeds(seedHash: Hash32)
    ensures IsSeedEpoch(seedHash, JobEpoch(seedHash))
  {
    hide Chain, SeedEpoch;
    SeedEpochIsLeast(seedHash);
    if SeedEpoch(seedHash) == UINT32_MAX {
      assert forall k: nat | k < 2000 :: Chain(k) != seedHash;
    } else {
      var epoch: nat := SeedEpoch(seedHash);
      assert epoch < 2000 && Chain(epoch) == seedHash;
    }
  }

  /** The chain starts at zero and goes on by one hash, so it can be entered anywhere. */
  lemma {:induction false} ChainGoesOn(m: nat, n: nat)
    ensures BigEndian(Chain(0)) == 0
    ensures Chain(m + n) == HashedTimes(Chain(m), n)
    decreases n
  {
    hide Keccak256;
    var zeros: seq<Octet> := seq(32, _ => 0);
    assert Chain(0) == zeros;
    ZerosAreZero(Chain(0));
    if n > 0 {
      ChainGoesOn(m, n - 1);
      assert Chain(m + n) == Keccak256(Chain(m + n - 1));
    }
  }

  function HashedTimes(h: Hash32, n: nat): Hash32 {
    if n == 0 then h else Keccak256(HashedTimes(h, n - 1))
  }

  lemma {:induction false} ZerosAreZero(b: seq<Octet>)
    requires forall i | 0 <= i < |b| :: b[i] == 0
    ensures BigEndian(b) == 0
    decreases |b|
  {
    if b != [] {
      ZerosAreZero(b[..|b| - 1]);
    }
  }

  /** For every job, whatever its seed hash, all numbers on the way to its dataset are exact, and
      every pair the kernels can pick lies inside it. */
  lemma JobSizesAreExact(seedHash: Hash32, p: Word32)
    requires p < DagPairs(GetDatasetSize(JobEpoch(seedHash)))
    ensures var size := GetDatasetSize(JobEpoch(seedHash));
            && JobEpoch(seedHash) < MAX_EPOCH_SCAN && GetCacheSize(JobEpoch(seedHash)) < U32
            && NumItems(size) == size / 64 && 0 < DagPairs(size) == size / 128
            && PairOffset(p) == 16 * p && 8 * (PairOffset(p) + 16) <= size
  {
    hide SeedEpoch, Chain;
    SeedEpochIsLeast(seedHash);
    EpochLimits(JobEpoch(seedHash));
    SizesAreWhole(JobEpoch(seedHash));
  }
}
