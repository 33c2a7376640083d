/** What one thread of the search kernels computes for one nonce, in the two versions of the code:
    the index arithmetic of the one-nonce kernel and of the batched kernel, and their two loops for
    comparing the result with the target. */
module KernelHash {
  import opened Arithmetic
  import opened Octets
  import opened Hashes
  import opened Ethash
  import SearchKernel
  import NonceSweep

  /** Thirty-two words of 32 bits, mixed by the accesses to the dataset. */
  type Mix = m: seq<Word32> | |m| == 32 witness seq(32, _ => 0)

  function SeedOf(header: Hash32, nonce: nat): (seed: seq<Octet>)
    ensures |seed| == 64
  {
    Keccak512(SeedInput(header, nonce))
  }

  function InitialMix(seed: seq<Octet>): Mix
    requires |seed| == 64
  {
    WordsOf(seed) + WordsOf(seed)
  }

  /** Both halves of the mix are the sixteen little-endian words of the seed. */
  lemma InitialMixAt(seed: seq<Octet>, w: nat)
    requires |seed| == 64 && w < 16
    ensures InitialMix(seed)[w] == InitialMix(seed)[w + 16] == LittleEndian(seed[4 * w..4 * w + 4])
  {
    WordIsLittleEndian(seed, w);
  }

  function PairIndex(mix: Mix, s0: Word32, i: Word32, pairs: Word32): (p: Word32)
    requires 0 < pairs
    ensures p < pairs
  {
    Fnv1a(Xor32(i, s0), mix[i % 32]) % pairs
  }

  /** Which mix word picks the pair of access i, and how: it acts alone when the access number meets
      the seed word, and otherwise together with the prime times their exclusive or. */
  lemma PairIndexValue(mix: Mix, s0: Word32, i: Word32, pairs: Word32)
    requires 0 < pairs
    ensures i == s0 ==> PairIndex(mix, s0, i, pairs) == mix[i % 32] % pairs
    ensures mix[i % 32] == 0 ==> PairIndex(mix, s0, i, pairs) == Xor32(i, s0) * 16777619 % U32 % pairs
  {
    hide Xor32, Fnv1a;
    XorLaws(0, s0);
    XorLaws(s0, 0);
    FnvValue(0, mix[i % 32]);
    FnvValue(Xor32(i, s0), 0);
  }

  /** The 128 bytes of dataset pair p are mixed into all words at once. */
  function MixPair(mix: Mix, dag: seq<Word32>, p: nat): Mix
    requires 32 * p + 32 <= |dag|
  {
    seq(32, w requires 0 <= w < 32 => Fnv1a(mix[w], dag[32 * p + w]))
  }

  /** Word w of the pair goes into word w of the mix: alone, the mix word is multiplied by the prime and
      the dataset word is taken over, and a change of either changes the result there. */
  lemma MixPairChanges(mix: Mix, dag: seq<Word32>, p: nat, mix': Mix, dag': seq<Word32>, w: nat)
    requires 32 * p + 32 <= |dag| == |dag'| && w < 32
    ensures var a, b, a', b' := mix[w], dag[32 * p + w], mix'[w], dag'[32 * p + w];
            && (b == 0 ==> MixPair(mix, dag, p)[w] == a * 16777619 % U32)
            && (a == 0 ==> MixPair(mix, dag, p)[w] == b)
            && (a == a' && b != b' ==> MixPair(mix, dag, p)[w] != MixPair(mix', dag', p)[w])
            && (a != a' && b == b' ==> MixPair(mix, dag, p)[w] != MixPair(mix', dag', p)[w])
  {
    hide Fnv1a;
    var a, b, a', b' := mix[w], dag[32 * p + w], mix'[w], dag'[32 * p + w];
    FnvValue(a, 0);
    FnvValue(0, b);
    FnvInjective(b, b', a);
    FnvInjective(a, a', b);
  }

  /** A dataset the kernels can address: its pairs, counted in 32 bits, are not zero. */
  predicate Addressable(dag: seq<Word32>) {
    |dag| % 2 == 0 && 0 < DagPairs(4 * |dag|)
  }

  /** The pair the 32-bit offset reaches; below 2^28 pairs it is the pair itself. */
  function Reached(p: Word32): nat {
    p % 0x1000_0000
  }

  lemma ReachedInside(dag: seq<Word32>, p: Word32)
    requires Addressable(dag) && p < DagPairs(4 * |dag|)
    ensures 32 * Reached(p) + 32 <= |dag|
    ensures PairOffset(p) == 16 * Reached(p)
  {
    var pairs: nat := DagPairs(4 * |dag|);
    assert p < pairs <= 4 * |dag| / 128;
    assert Reached(p) <= p;
  }

  /** Every pair is its own exactly up to 2^28 pairs; past that the kernels see only the first 2^28. */
  lemma AllPairsReached(dag: seq<Word32>)
    requires Addressable(dag) && 4 * |dag| / 128 < U32
    ensures (forall p: Word32 | p < DagPairs(4 * |dag|) :: Reached(p) == p) <==> 4 * |dag| / 128 <= 0x1000_0000
  {
    var p: Word32 := 0x1000_0000;
    assert Reached(p) == 0;
  }

  /** The dataset of every epoch a job can have is addressable, and all its pairs are in use. */
  lemma JobDatasetReached(epoch: Word32, dag: seq<Word32>)
    requires epoch < MAX_EPOCH_SCAN && 4 * |dag| == GetDatasetSize(epoch)
    ensures Addressable(dag) && DagPairs(4 * |dag|) == |dag| / 32
    ensures forall p: Word32 | p < DagPairs(4 * |dag|) :: Reached(p) == p
  {
    hide GetDatasetSize, Reached;
    JobPairs(epoch);
    WordsToPairs(|dag|);
    AllPairsReached(dag);
  }

  lemma WordsToPairs(n: nat)
    requires 4 * n % 128 == 0
    ensures n % 2 == 0 && 4 * n / 128 == n / 32
  {
    var q := 4 * n / 128;
    DivisionUnique(n, 32, q, 0);
    DivisionUnique(n, 2, 16 * q, 0);
  }

  /** The mix after the first n accesses. */
  function Accessed(header: Hash32, dag: seq<Word32>, nonce: nat, n: nat): Mix
    requires Addressable(dag) && n <= 64
  {
    var seed := SeedOf(header, nonce);
    if n == 0 then InitialMix(seed) else
      var mix := Accessed(header, dag, nonce, n - 1);
      var p := PairIndex(mix, WordsOf(seed)[0], n - 1, DagPairs(4 * |dag|));
      ReachedInside(dag, p);
      MixPair(mix, dag, Reached(p))
  }

  /** The mix starts as the words, twice, of Keccak-512 of the one message that consists of header and
      nonce. */
  lemma FirstMix(header: Hash32, dag: seq<Word32>, nonce: nat, message: seq<Octet>, w: nat)
    requires Addressable(dag) && w < 16 && ReadsAs(message, header, nonce)
    ensures Accessed(header, dag, nonce, 0)[w] == Accessed(header, dag, nonce, 0)[w + 16]
              == LittleEndian(Keccak512(message)[4 * w..4 * w + 4])
  {
    hide Keccak, InitialMix, LittleEndian;
    SeedInputUnique(message, header, nonce);
    InitialMixAt(Keccak512(message), w);
  }

  /** Access i mixes in the pair that the first word of that hash, i and the mix so far pick. */
  lemma NextMix(header: Hash32, dag: seq<Word32>, nonce: nat, message: seq<Octet>, i: Word32)
    requires Addressable(dag) && i < 64 && ReadsAs(message, header, nonce)
    ensures var mix := Accessed(header, dag, nonce, i);
            var s0 := WordAt(Keccak512(message), 0);
            var p := PairIndex(mix, s0, i, DagPairs(4 * |dag|)) % 0x1000_0000;
            s0 == LittleEndian(Keccak512(message)[..4]) && 32 * p + 32 <= |dag|
            && Accessed(header, dag, nonce, i + 1) == MixPair(mix, dag, p)
  {
    hide Keccak, MixPair, PairIndex, InitialMix, LittleEndian, WordAt;
    SeedInputUnique(message, header, nonce);
    WordIsLittleEndian(Keccak512(message), 0);
    var mix := Accessed(header, dag, nonce, i);
    ReachedInside(dag, PairIndex(mix, WordAt(Keccak512(message), 0), i, DagPairs(4 * |dag|)));
  }

  /** One word out of four. */
  function CompressAt(mix: Mix, i: nat): Word32
    requires i < 8
  {
    Fnv1a(Fnv1a(Fnv1a(mix[4 * i], mix[4 * i + 1]), mix[4 * i + 2]), mix[4 * i + 3])
  }

  function Compress(mix: Mix): (c: seq<Word32>)
    ensures |c| == 8
  {
    seq(8, i requires 0 <= i < 8 => CompressAt(mix, i))
  }

  /** A word multiplied n times by the prime. */
  function Scaled(v: Word32, n: nat): Word32 {
    if n == 0 then v else Scaled(v, n - 1) * 16777619 % U32
  }

  lemma ScaledFnv(v: Word32, n: nat)
    ensures Fnv1a(Scaled(v, n), 0) == Scaled(v, n + 1)
    ensures Fnv1a(0, v) == v
  {
    hide Fnv1a;
    FnvValue(Scaled(v, n), 0);
    FnvValue(0, v);
  }

  /** Digest word i folds words 4i to 4i + 3 in this order: alone, the first is multiplied three times
      by the prime, the second twice, the third once and the last not at all. */
  lemma CompressOrder(mix: Mix, i: nat)
    requires i < 8
    ensures var a, b, c, d := mix[4 * i], mix[4 * i + 1], mix[4 * i + 2], mix[4 * i + 3];
            && (b == c == d == 0 ==> Compress(mix)[i] == Scaled(a, 3))
            && (a == c == d == 0 ==> Compress(mix)[i] == Scaled(b, 2))
            && (a == b == d == 0 ==> Compress(mix)[i] == Scaled(c, 1))
            && (a == b == c == 0 ==> Compress(mix)[i] == d)
  {
    hide Fnv1a, Scaled;
    var a, b, c, d := mix[4 * i], mix[4 * i + 1], mix[4 * i + 2], mix[4 * i + 3];
    ScaledZero(a, b, c);
    ScaledFnv(0, 0);
    ScaledFnv(a, 0);
    ScaledFnv(a, 1);
    ScaledFnv(a, 2);
    ScaledFnv(b, 0);
    ScaledFnv(b, 1);
    ScaledFnv(c, 0);
    ScaledFnv(d, 0);
  }

  lemma ScaledZero(a: Word32, b: Word32, c: Word32)
    ensures Scaled(a, 0) == a && Scaled(b, 0) == b && Scaled(c, 0) == c && Scaled(0, 0) == 0
  {
  }

  /** Changing one of its four words changes a digest word. */
  lemma CompressChanges(mix: Mix, mix': Mix, i: nat)
    requires i < 8
    ensures var a, b, c, d := mix[4 * i], mix[4 * i + 1], mix[4 * i + 2], mix[4 * i + 3];
            var a', b', c', d' := mix'[4 * i], mix'[4 * i + 1], mix'[4 * i + 2], mix'[4 * i + 3];
            && (a != a' && b == b' && c == c' && d == d' ==> Compress(mix)[i] != Compress(mix')[i])
            && (a == a' && b != b' && c == c' && d == d' ==> Compress(mix)[i] != Compress(mix')[i])
            && (a == a' && b == b' && c != c' && d == d' ==> Compress(mix)[i] != Compress(mix')[i])
            && (a == a' && b == b' && c == c' && d != d' ==> Compress(mix)[i] != Compress(mix')[i])
  {
    hide Fnv1a;
    var a, b, c, d := mix[4 * i], mix[4 * i + 1], mix[4 * i + 2], mix[4 * i + 3];
    var a', b', c', d' := mix'[4 * i], mix'[4 * i + 1], mix'[4 * i + 2], mix'[4 * i + 3];
    FnvInjective(a, a', b);
    FnvInjective(b, b', a);
    FnvInjective(Fnv1a(a, b), Fnv1a(a', b'), c);
    FnvInjective(c, c', Fnv1a(a, b));
    FnvInjective(Fnv1a(Fnv1a(a, b), c), Fnv1a(Fnv1a(a', b'), c'), d);
    FnvInjective(d, d', Fnv1a(Fnv1a(a, b), c));
  }

  function MixDigest(header: Hash32, dag: seq<Word32>, nonce: nat): (c: seq<Word32>)
    requires Addressable(dag)
    ensures |c| == 8
  {
    Compress(Accessed(header, dag, nonce, 64))
  }

  /** The bytes hashed last. */
  function FinalInput(compressed: seq<Word32>, seedHash: Hash32): seq<Octet> {
    BytesOf(compressed) + seedHash
  }

  /** They are the words of the mix digest followed by the seed hash. */
  lemma FinalInputReads(compressed: seq<Word32>, seedHash: Hash32)
    requires |compressed| == 8
    ensures |FinalInput(compressed, seedHash)| == 64
    ensures WordsOf(FinalInput(compressed, seedHash)[..32]) == compressed
    ensures FinalInput(compressed, seedHash)[32..] == seedHash
  {
    hide BytesOf, WordsOf;
    WordsOfBytes(compressed);
    assert FinalInput(compressed, seedHash)[..32] == BytesOf(compressed);
  }

  /** The result of a nonce: Keccak-256 of the mix digest and the job's seed hash. */
  function Result(header: Hash32, seedHash: Hash32, dag: seq<Word32>, nonce: nat): (r: Hash32)
    requires Addressable(dag)
  {
    Keccak256(FinalInput(MixDigest(header, dag, nonce), seedHash))
  }

  /** It is the hash of the one message that consists of the 64 accesses' compressed mix and the seed
      hash. */
  lemma ResultOf(header: Hash32, seedHash: Hash32, dag: seq<Word32>, nonce: nat, message: seq<Octet>)
    requires Addressable(dag)
    requires |message| == 64 && message[32..] == seedHash
    requires forall k: nat | k < 8 ::
               LittleEndian(message[4 * k..4 * k + 4]) == Compress(Accessed(header, dag, nonce, 64))[k]
    ensures Result(header, seedHash, dag, nonce) == Keccak256(message)
  {
    hide Keccak, Accessed, Compress, BytesOf, LittleEndian;
    var digest := Compress(Accessed(header, dag, nonce, 64));
    forall k: nat | k < 8
      ensures message[..32][4 * k..4 * k + 4] == LowBytes(digest[k], 4)
    {
      assert message[..32][4 * k..4 * k + 4] == message[4 * k..4 * k + 4];
      BytesOfLittleEndian(message[4 * k..4 * k + 4]);
    }
    BytesUnique(digest, message[..32]);
    assert message == message[..32] + message[32..];
  }

  // ---------------------------------------------------------------- the mixing loop, two versions

  /** The inner loop shared by both: words w and w + 16 for w from 0 to 15, read from two places
      given in 64-bit words. */
  method MixItems(mix: array<Word32>, dag: seq<Word32>, item0: nat, item1: nat, ghost p: nat)
    requires mix.Length == 32 && 32 * p + 32 <= |dag|
    requires 2 * item0 == 32 * p && 2 * item1 == 32 * p + 16
    modifies mix
    ensures mix[..] == MixPair(old(mix[..]), dag, p)
  {
    hide Fnv1a;
    var w := 0;
    while w < 16
      invariant 0 <= w <= 16
      invariant forall k | 0 <= k < 32 && k % 16 < w :: mix[k] == Fnv1a(old(mix[k]), dag[32 * p + k])
      invariant forall k | 0 <= k < 32 && k % 16 >= w :: mix[k] == old(mix[k])
    {
      mix[w] := Fnv1a(mix[w], dag[2 * item0 + w]);
      mix[w + 16] := Fnv1a(mix[w + 16], dag[2 * item1 + w]);
      w := w + 1;
    }
  }

  /** The one-nonce kernel: both item indices are 32-bit products. */
  method BaseAccesses(header: Hash32, dag: seq<Word32>, nonce: nat, mix: array<Word32>)
    requires Addressable(dag) && mix.Length == 32
    requires mix[..] == InitialMix(SeedOf(header, nonce))
    modifies mix
    ensures mix[..] == Accessed(header, dag, nonce, 64)
  {
    hide SeedOf, InitialMix, MixPair, WordsOf, Fnv1a, Xor32;
    var dagPairs := DagPairs(4 * |dag|);
    var s0 := WordsOf(SeedOf(header, nonce))[0];
    var i: Word32 := 0;
    while i < 64
      invariant i <= 64
      invariant mix[..] == Accessed(header, dag, nonce, i)
    {
      var pairIndex: Word32 := Fnv1a(Xor32(i, s0), mix[i % 32]) % dagPairs;
      assert pairIndex == PairIndex(mix[..], s0, i, dagPairs);
      var item0: Word32 := pairIndex * 2 % U32 * 8 % U32;
      var item1: Word32 := (pairIndex * 2 % U32 + 1) % U32 * 8 % U32;
      BaseOffsets(pairIndex);
      ReachedInside(dag, pairIndex);
      MixItems(mix, dag, item0, item1, Reached(pairIndex));
      i := i + 1;
    }
  }

  lemma BaseOffsets(p: Word32)
    ensures p * 2 % U32 * 8 % U32 == PairOffset(p)
    ensures (p * 2 % U32 + 1) % U32 * 8 % U32 == PairOffset(p) + 8
  {
    var high, q := p / 0x8000_0000, p % 0x8000_0000;
    DivisionUnique(p * 2, U32, high, 2 * q);
    var middle, r := q / 0x1000_0000, q % 0x1000_0000;
    DivisionUnique(2 * q * 8, U32, middle, 16 * r);
    DivisionUnique((2 * q + 1) * 8, U32, middle, 16 * r + 8);
    DivisionUnique(p * 16, U32, 8 * high + middle, 16 * r);
  }

  /** The batched kernel: the second item lies eight words after the first, in 64 bits. */
  method BatchedAccesses(header: Hash32, dag: seq<Word32>, nonce: nat, mix: array<Word32>)
    requires Addressable(dag) && mix.Length == 32
    requires mix[..] == InitialMix(SeedOf(header, nonce))
    modifies mix
    ensures mix[..] == Accessed(header, dag, nonce, 64)
  {
    hide SeedOf, InitialMix, MixPair, WordsOf, Fnv1a, Xor32;
    var dagPairs := DagPairs(4 * |dag|);
    var s0 := WordsOf(SeedOf(header, nonce))[0];
    var i: Word32 := 0;
    while i < 64
      invariant i <= 64
      invariant mix[..] == Accessed(header, dag, nonce, i)
    {
      var pairIndex: Word32 := Fnv1a(Xor32(i, s0), mix[i % 32]) % dagPairs;
      assert pairIndex == PairIndex(mix[..], s0, i, dagPairs);
      var dagOffset: nat := pairIndex * 2 % U32 * 8 % U32;
      BaseOffsets(pairIndex);
      ReachedInside(dag, pairIndex);
      MixItems(mix, dag, dagOffset, dagOffset + 8, Reached(pairIndex));
      i := i + 1;
    }
  }

  // ---------------------------------------------------------------- the comparison, two versions

  /** The three-way order of two 256-bit numbers. */
  function Order(a: nat, b: nat): int {
    if a < b then -1 else if a > b then 1 else 0
  }

  lemma {:induction false} OrderPrefix(a: seq<Octet>, b: seq<Octet>, i: nat)
    requires |a| == |b| && i < |a| && a[..i] == b[..i] && a[i] != b[i]
    ensures Order(BigEndian(a), BigEndian(b)) == Order(a[i], b[i])
    decreases |a|
  {
    var n := |a| - 1;
    if i < n {
      assert a[..n][..i] == a[..i] && b[..n][..i] == b[..i];
      OrderPrefix(a[..n], b[..n], i);
    } else {
      assert a[..n] == a[..i] && b[..n] == b[..i];
    }
  }

  method CompareWithBreak(result: Hash32, targetBE: Hash32) returns (cmp: int)
    ensures cmp == Order(BigEndian(result), BigEndian(targetBE))
  {
    cmp := 0;
    var i := 0;
    while i < 32
      invariant 0 <= i <= 32 && result[..i] == targetBE[..i] && cmp == 0
    {
      var a, b := result[i], targetBE[i];
      if a != b {
        OrderPrefix(result, targetBE, i);
      }
      if a < b {
        cmp := -1;
        return;
      }
      if a > b {
        cmp := 1;
        return;
      }
      i := i + 1;
    }
    assert result == result[..i] && targetBE == targetBE[..i];
  }

  method CompareWithGuard(result: Hash32, targetBE: Hash32) returns (cmp: int)
    ensures cmp == Order(BigEndian(result), BigEndian(targetBE))
  {
    cmp := 0;
    var i := 0;
    while i < 32 && cmp == 0
      invariant 0 <= i <= 32
      invariant if cmp == 0 then result[..i] == targetBE[..i]
                else cmp == Order(BigEndian(result), BigEndian(targetBE))
    {
      if result[i] < targetBE[i] {
        OrderPrefix(result, targetBE, i);
        cmp := -1;
      } else if result[i] > targetBE[i] {
        OrderPrefix(result, targetBE, i);
        cmp := 1;
      }
      i := i + 1;
    }
    if cmp == 0 {
      assert result == result[..i] && targetBE == targetBE[..i];
    }
  }

  // ---------------------------------------------------------------- one nonce

  /** The compression loop. */
  method CompressMix(mix: array<Word32>) returns (compressed: seq<Word32>)
    requires mix.Length == 32
    ensures compressed == Compress(mix[..])
  {
    hide Fnv1a;
    compressed := [];
    var i := 0;
    while i < 8
      invariant 0 <= i <= 8 && compressed == Compress(mix[..])[..i]
    {
      var c := Fnv1a(mix[i * 4], mix[i * 4 + 1]);
      c := Fnv1a(c, mix[i * 4 + 2]);
      c := Fnv1a(c, mix[i * 4 + 3]);
      compressed := compressed + [c];
      i := i + 1;
    }
  }

  predicate Hit(header: Hash32, seedHash: Hash32, targetBE: Hash32, dag: seq<Word32>, nonce: nat)
    requires Addressable(dag)
  {
    BigEndian(Result(header, seedHash, dag, nonce)) <= BigEndian(targetBE)
  }

  method BaseNonce(header: Hash32, seedHash: Hash32, targetBE: Hash32, dag: seq<Word32>, nonce: nat)
    returns (hit: bool, compressed: seq<Word32>, result: Hash32)
    requires Addressable(dag)
    ensures compressed == MixDigest(header, dag, nonce) && result == Result(header, seedHash, dag, nonce)
    ensures hit <==> BigEndian(result) <= BigEndian(targetBE)
  {
    hide Accessed, WordsOf, Keccak, BytesOf, BigEndian, Compress;
    var seed := HashBytes(header + LowBytes(nonce, 8), 64);
    var mix := new Word32[32](i requires 0 <= i < 32 => WordsOf(seed)[i % 16]);
    assert mix[..] == InitialMix(seed);
    BaseAccesses(header, dag, nonce, mix);
    compressed := CompressMix(mix);
    result := HashBytes(BytesOf(compressed) + seedHash, 32);
    var cmp := CompareWithBreak(result, targetBE);
    hit := cmp <= 0;
  }

  method BatchedNonce(header: Hash32, seedHash: Hash32, targetBE: Hash32, dag: seq<Word32>, nonce: nat)
    returns (hit: bool, compressed: seq<Word32>, result: Hash32)
    requires Addressable(dag)
    ensures compressed == MixDigest(header, dag, nonce) && result == Result(header, seedHash, dag, nonce)
    ensures hit <==> BigEndian(result) <= BigEndian(targetBE)
  {
    hide Accessed, WordsOf, Keccak, BytesOf, BigEndian, Compress;
    var seed := HashBytes(header + LowBytes(nonce, 8), 64);
    var mix := new Word32[32](i requires 0 <= i < 32 => WordsOf(seed)[i % 16]);
    assert mix[..] == InitialMix(seed);
    BatchedAccesses(header, dag, nonce, mix);
    compressed := CompressMix(mix);
    result := HashBytes(BytesOf(compressed) + seedHash, 32);
    var cmp := CompareWithGuard(result, targetBE);
    hit := cmp <= 0;
  }

  // ---------------------------------------------------------------- whole launches

  /** The launch of either kernel for a job: thread t tests its nonces with the computation above. */
  function JobLaunch(start: nat, threads: nat, perThread: nat, max: nat, header: Hash32, seedHash: Hash32,
                     targetBE: Hash32, dag: seq<Word32>): SearchKernel.Launch
    requires Addressable(dag)
  {
    NonceSweep.Kernel(start, threads, perThread,
                      (n: nat) => (MixDigest(header, dag, n), Result(header, seedHash, dag, n)),
                      (n: nat) => Hit(header, seedHash, targetBE, dag, n), max)
  }

  /** A record is genuine: its digests are those of its nonce, and its result does not exceed the
      target. */
  ghost predicate Genuine(r: SearchKernel.Record, header: Hash32, seedHash: Hash32, targetBE: Hash32, dag: seq<Word32>)
    requires Addressable(dag)
  {
    && r.nonce < U64
    && r.mix == MixDigest(header, dag, r.nonce)
    && r.result == Result(header, seedHash, dag, r.nonce)
    && BigEndian(Result(header, seedHash, dag, r.nonce)) <= BigEndian(targetBE)
  }

  /** Whatever the interleaving, a finished launch has filled the slots below its count and its
      limit with genuine records, and when the count does not exceed the limit no winning nonce of
      the grid is missing. */
  lemma LaunchRecordsGenuine(start: nat, threads: nat, perThread: nat, max: nat, header: Hash32, seedHash: Hash32,
                             targetBE: Hash32, dag: seq<Word32>, init: seq<SearchKernel.Record>, schedule: seq<nat>)
    requires Addressable(dag)
    requires var l := JobLaunch(start, threads, perThread, max, header, seedHash, targetBE, dag);
             SearchKernel.Completes(l, init, schedule)
    ensures var l := JobLaunch(start, threads, perThread, max, header, seedHash, targetBE, dag);
            var s := SearchKernel.Run(l, SearchKernel.Initial(l, init), schedule);
            && (forall i: nat | i < s.count && i < max :: Genuine(s.slots[i], header, seedHash, targetBE, dag))
            && (s.count <= max ==>
                  forall k: SearchKernel.Ticket ::
                    (NonceSweep.InGrid(threads, perThread, k)
                     && BigEndian(Result(header, seedHash, dag, NonceSweep.NonceOf(start, perThread, k.0, k.1)))
                          <= BigEndian(targetBE))
                    ==> exists i: nat :: i < s.count
                                    && s.slots[i].nonce == NonceSweep.NonceOf(start, perThread, k.0, k.1))
  {
    hide SearchKernel.Run, Result, MixDigest, BigEndian, NonceSweep.NonceOf, SearchKernel.Hits;
    var l := JobLaunch(start, threads, perThread, max, header, seedHash, targetBE, dag);
    var s, log := SearchKernel.FinishedRun(l, init, schedule);
    forall i: nat | i < s.count && i < max
      ensures Genuine(s.slots[i], header, seedHash, targetBE, dag)
    {
      SearchKernel.HitsAt(l, log[i]);
    }
    if s.count <= max {
      forall k: SearchKernel.Ticket | NonceSweep.InGrid(threads, perThread, k)
          && BigEndian(Result(header, seedHash, dag, NonceSweep.NonceOf(start, perThread, k.0, k.1)))
               <= BigEndian(targetBE)
        ensures exists i: nat :: i < s.count && s.slots[i].nonce == NonceSweep.NonceOf(start, perThread, k.0, k.1)
      {
        SearchKernel.HitsAt(l, k);
        var i: nat :| i < |log| && log[i] == k;
        assert s.slots[i].nonce == NonceSweep.NonceOf(start, perThread, k.0, k.1);
      }
    }
  }
}
