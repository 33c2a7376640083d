/** The host's own search function and its check of a solution. */
module Hashimoto {
  import opened Arithmetic
  import opened Octets
  import opened Options
  import opened Hashes
  import opened Ethash

  type Mix = m: seq<Word32> | |m| == 16 witness seq(16, _ => 0)

  /** The dataset is a byte buffer; its items are counted in 32 bits. */
  function DagItems(dag: seq<Octet>): Word32 {
    |dag| / 64 % U32
  }

  /** All whole items are counted, as long as there are fewer than 2^32. */
  lemma DagItemsCount(dag: seq<Octet>)
    requires |dag| < 64 * U32
    ensures 64 * DagItems(dag) <= |dag| < 64 * DagItems(dag) + 64
  {
    DivisionUnique(|dag| / 64, U32, 0, |dag| / 64);
  }

  predicate Searchable(dag: seq<Octet>) {
    |dag| >= 64 && DagItems(dag) != 0
  }

  function ItemIndex(mix: Mix, nonce: nat, i: Word32, items: Word32): (idx: Word32)
    requires 0 < items
    ensures idx < items
  {
    Fnv1a(Xor32(nonce % U32, i), mix[i % 16]) % items
  }

  /** Which mix word picks the item of access i, and how: it acts alone when the access number meets the
      low half of the nonce, and otherwise together with the prime times their exclusive or. */
  lemma ItemIndexValue(mix: Mix, nonce: nat, i: Word32, items: Word32)
    requires 0 < items
    ensures nonce % U32 == i ==> ItemIndex(mix, nonce, i, items) == mix[i % 16] % items
    ensures mix[i % 16] == 0 ==> ItemIndex(mix, nonce, i, items) == Xor32(nonce % U32, i) * 16777619 % U32 % items
  {
    hide Xor32, Fnv1a;
    XorLaws(0, i);
    XorLaws(i, 0);
    FnvValue(0, mix[i % 16]);
    FnvValue(Xor32(nonce % U32, i), 0);
  }

  /** Where item idx is looked for, in words: its byte offset is a 32-bit product. */
  function ItemWord(idx: Word32): nat {
    idx * 64 % U32 / 4
  }

  /** The offset may wrap, but never leaves the buffer. */
  lemma ItemInside(dag: seq<Octet>, idx: Word32)
    requires Searchable(dag) && idx < DagItems(dag)
    ensures 4 * (ItemWord(idx) + 16) <= |dag|
    ensures ItemWord(idx) == 16 * (idx % 0x400_0000)
  {
    var items: nat := DagItems(dag);
    assert items <= |dag| / 64;
    DivisionUnique(idx * 64, U32, idx / 0x400_0000, 64 * (idx % 0x400_0000));
  }

  /** All offsets are exact exactly for datasets of at most 2^26 items, that is 4 GiB. */
  lemma ItemsExact(dag: seq<Octet>)
    requires Searchable(dag) && |dag| / 64 < U32
    ensures (forall idx: Word32 | idx < DagItems(dag) :: ItemWord(idx) == 16 * idx) <==> |dag| / 64 <= 0x400_0000
  {
    forall idx: Word32 | idx < DagItems(dag)
      ensures ItemWord(idx) == 16 * (idx % 0x400_0000)
    {
      ItemInside(dag, idx);
    }
    var first: Word32 := 0x400_0000;
    assert ItemWord(first) == 0;
  }

  function MixItem(mix: Mix, dag: seq<Octet>, word: nat): Mix
    requires 4 * (word + 16) <= |dag|
  {
    seq(16, w requires 0 <= w < 16 => Fnv1a(mix[w], WordAt(dag, word + w)))
  }

  /** Item word w goes into mix word w: alone, the mix word is multiplied by the prime and the item
      word is taken over, and a change of either changes the result there. */
  lemma MixItemChanges(mix: Mix, dag: seq<Octet>, word: nat, mix': Mix, dag': seq<Octet>, w: nat)
    requires 4 * (word + 16) <= |dag| == |dag'| && w < 16
    ensures var a, b, a', b' := mix[w], WordAt(dag, word + w), mix'[w], WordAt(dag', word + w);
            && (b == 0 ==> MixItem(mix, dag, word)[w] == a * 16777619 % U32)
            && (a == 0 ==> MixItem(mix, dag, word)[w] == b)
            && (a == a' && b != b' ==> MixItem(mix, dag, word)[w] != MixItem(mix', dag', word)[w])
            && (a != a' && b == b' ==> MixItem(mix, dag, word)[w] != MixItem(mix', dag', word)[w])
  {
    hide Fnv1a, WordAt;
    var a, b, a', b' := mix[w], WordAt(dag, word + w), mix'[w], WordAt(dag', word + w);
    FnvValue(a, 0);
    FnvValue(0, b);
    FnvInjective(b, b', a);
    FnvInjective(a, a', b);
  }

  function Accessed(header: Hash32, nonce: nat, dag: seq<Octet>, n: nat): Mix
    requires Searchable(dag) && n <= 64
  {
    if n == 0 then WordsOf(Keccak512(SeedInput(header, nonce))) else
      var mix := Accessed(header, nonce, dag, n - 1);
      var idx := ItemIndex(mix, nonce, n - 1, DagItems(dag));
      ItemInside(dag, idx);
      MixItem(mix, dag, ItemWord(idx))
  }

  /** The mix starts as the words of Keccak-512 of the one message that consists of header and nonce. */
  lemma FirstMix(header: Hash32, nonce: nat, dag: seq<Octet>, message: seq<Octet>, w: nat)
    requires Searchable(dag) && w < 16 && ReadsAs(message, header, nonce)
    ensures Accessed(header, nonce, dag, 0)[w] == LittleEndian(Keccak512(message)[4 * w..4 * w + 4])
  {
    hide Keccak, WordAt, LittleEndian;
    SeedInputUnique(message, header, nonce);
    WordIsLittleEndian(Keccak512(message), w);
  }

  /** Access i mixes in the item that the low half of the nonce, i and the mix so far pick. */
  lemma NextMix(header: Hash32, nonce: nat, dag: seq<Octet>, i: Word32)
    requires Searchable(dag) && i < 64
    ensures var mix := Accessed(header, nonce, dag, i);
            var word := 16 * (ItemIndex(mix, nonce, i, DagItems(dag)) % 0x400_0000);
            4 * (word + 16) <= |dag| && Accessed(header, nonce, dag, i + 1) == MixItem(mix, dag, word)
  {
    hide MixItem, ItemIndex;
    ItemInside(dag, ItemIndex(Accessed(header, nonce, dag, i), nonce, i, DagItems(dag)));
  }

  function Compress(mix: Mix): (c: seq<Word32>)
    ensures |c| == 8
  {
    seq(8, i requires 0 <= i < 8 => Fnv1a(mix[i], mix[i + 8]))
  }

  /** Digest word i is mix word i times the prime, then word i + 8: a change of either changes it. */
  lemma CompressValue(mix: Mix, mix': Mix, i: nat)
    requires i < 8
    ensures mix[i + 8] == 0 ==> Compress(mix)[i] == mix[i] * 16777619 % U32
    ensures mix[i] == 0 ==> Compress(mix)[i] == mix[i + 8]
    ensures mix[i] == mix'[i] && mix[i + 8] != mix'[i + 8] ==> Compress(mix)[i] != Compress(mix')[i]
    ensures mix[i] != mix'[i] && mix[i + 8] == mix'[i + 8] ==> Compress(mix)[i] != Compress(mix')[i]
  {
    hide Fnv1a;
    FnvValue(mix[i], 0);
    FnvValue(0, mix[i + 8]);
    FnvInjective(mix[i], mix'[i], mix[i + 8]);
    FnvInjective(mix[i + 8], mix'[i + 8], mix[i]);
  }

  function ZeroHash(): Hash32 {
    seq(32, _ => 0)
  }

  function FinalInput(header: Hash32, nonce: nat, mixHash: Hash32): seq<Octet> {
    SeedInput(header, nonce) + mixHash
  }

  /** The final hash is over the header, the nonce and the mix digest, in this order. */
  lemma FinalInputReads(header: Hash32, nonce: nat, mixHash: Hash32)
    requires nonce < U64
    ensures |FinalInput(header, nonce, mixHash)| == 72
    ensures FinalInput(header, nonce, mixHash)[..32] == header
    ensures LittleEndian(FinalInput(header, nonce, mixHash)[32..40]) == nonce
    ensures FinalInput(header, nonce, mixHash)[40..] == mixHash
  {
    SeedInputReads(header, nonce);
    var b := FinalInput(header, nonce, mixHash);
    assert b[..40] == SeedInput(header, nonce);
    assert b[..32] == b[..40][..32] && b[32..40] == b[..40][32..];
  }

  function FinalResult(header: Hash32, nonce: nat, mixHash: Hash32): Hash32 {
    Keccak256(FinalInput(header, nonce, mixHash))
  }

  /** The mix digest and the result; without a dataset both are zero. */
  function Compute(header: Hash32, nonce: nat, dag: Option<seq<Octet>>): (Hash32, Hash32)
    requires dag.Some? && |dag.value| >= 64 ==> Searchable(dag.value)
  {
    if dag.None? || |dag.value| < 64 then (ZeroHash(), ZeroHash()) else
      var mixHash := BytesOf(Compress(Accessed(header, nonce, dag.value, 64)));
      (mixHash, FinalResult(header, nonce, mixHash))
  }

  /** The mix digest is the 64 accesses' compressed mix, word by word; the result is Keccak-256 of the
      one message that consists of header, nonce and mix digest. */
  lemma ComputedOf(header: Hash32, nonce: nat, dag: seq<Octet>, message: seq<Octet>, i: nat)
    requires Searchable(dag) && i < 8
    requires |message| == 72 && ReadsAs(message[..40], header, nonce)
    requires message[40..] == Compute(header, nonce, Some(dag)).0
    ensures WordsOf(Compute(header, nonce, Some(dag)).0)[i] == Compress(Accessed(header, nonce, dag, 64))[i]
    ensures Compute(header, nonce, Some(dag)).1 == Keccak256(message)
  {
    hide Keccak, Accessed, Compress, WordsOf, BytesOf;
    WordsOfBytes(Compress(Accessed(header, nonce, dag, 64)));
    SeedInputUnique(message[..40], header, nonce);
    assert message == message[..40] + message[40..];
  }

  method MixIn(mixWords: array<Word32>, dag: seq<Octet>, word: nat)
    requires mixWords.Length == 16 && 4 * (word + 16) <= |dag|
    modifies mixWords
    ensures mixWords[..] == MixItem(old(mixWords[..]), dag, word)
  {
    hide Fnv1a, WordAt;
    var w := 0;
    while w < 16
      invariant 0 <= w <= 16
      invariant forall k | 0 <= k < w :: mixWords[k] == Fnv1a(old(mixWords[k]), WordAt(dag, word + k))
      invariant forall k | w <= k < 16 :: mixWords[k] == old(mixWords[k])
    {
      mixWords[w] := Fnv1a(mixWords[w], WordAt(dag, word + w));
      w := w + 1;
    }
  }

  method ComputeHashimoto(header: Hash32, nonce: nat, dag: Option<seq<Octet>>)
    returns (outMixHash: Hash32, outResult: Hash32)
    requires dag.Some? && |dag.value| >= 64 ==> Searchable(dag.value)
    ensures (outMixHash, outResult) == Compute(header, nonce, dag)
  {
    hide Keccak, WordsOf, BytesOf, Fnv1a, Xor32, MixItem, WordAt, ItemWord;
    if dag.None? || |dag.value| < 64 {
      return ZeroHash(), ZeroHash();
    }
    var dagItems := DagItems(dag.value);
    var seed := HashBytes(SeedInput(header, nonce), 64);
    var mixWords := new Word32[16](i requires 0 <= i < 16 => WordsOf(seed)[i]);
    assert mixWords[..] == WordsOf(seed);
    var i: Word32 := 0;
    while i < 64
      invariant i <= 64 && mixWords[..] == Accessed(header, nonce, dag.value, i)
    {
      var idx: Word32 := Fnv1a(Xor32(nonce % U32, i), mixWords[i % 16]) % dagItems;
      assert idx == ItemIndex(mixWords[..], nonce, i, dagItems);
      ItemInside(dag.value, idx);
      MixIn(mixWords, dag.value, ItemWord(idx));
      i := i + 1;
    }
    var cmix := CompressWords(mixWords);
    outMixHash := BytesOf(cmix);
    outResult := HashBytes(SeedInput(header, nonce) + outMixHash, 32);
  }

  method CompressWords(mixWords: array<Word32>) returns (cmix: seq<Word32>)
    requires mixWords.Length == 16
    ensures cmix == Compress(mixWords[..])
  {
    hide Fnv1a;
    cmix := [];
    var i := 0;
    while i < 8
      invariant 0 <= i <= 8 && cmix == Compress(mixWords[..])[..i]
    {
      cmix := cmix + [Fnv1a(mixWords[i], mixWords[i + 8])];
      i := i + 1;
    }
  }

  /** What the check reads from a result: its first eight bytes, the least significant one first. */
  function ResultValue(result: Hash32): nat {
    LittleEndian(result[..8])
  }

  predicate Passes(header: Hash32, nonce: nat, mixHash: Hash32, result: Hash32, target: nat) {
    ResultValue(result) < target && FinalResult(header, nonce, mixHash) == result
  }

  /** The value is a 64-bit number whose bytes, from the least significant one, are the first eight of
      the result. */
  lemma ResultValueReads(result: Hash32)
    ensures ResultValue(result) < U64 && LowBytes(ResultValue(result), 8) == result[..8]
  {
    PowerEight();
    BytesOfLittleEndian(result[..8]);
  }

  /** A byte shifted to the left by i bytes. */
  function Shifted(v: nat, i: nat): nat {
    if i == 0 then v else 256 * Shifted(v, i - 1)
  }

  lemma {:induction false} ShiftedSum(a: nat, b: nat, i: nat)
    ensures Shifted(a + 256 * b, i) == Shifted(a, i) + Shifted(b, i + 1)
  {
    if i > 0 {
      ShiftedSum(a, b, i - 1);
    }
  }

  lemma {:induction false} ShiftedZero(i: nat)
    ensures Shifted(0, i) == 0
  {
    if i > 0 {
      ShiftedZero(i - 1);
    }
  }

  /** The value loop: byte i is shifted to its place and added in. */
  method ReadValue(result: Hash32) returns (resultValue: nat)
    ensures resultValue == ResultValue(result)
  {
    hide LittleEndian, Shifted;
    var low: seq<Octet> := result[..8];
    resultValue := 0;
    var i := 0;
    WholeValue(low);
    while i < 8
      invariant 0 <= i <= 8
      invariant resultValue + Shifted(LittleEndian(low[i..]), i) == LittleEndian(low)
    {
      TailValue(low, i);
      ShiftedSum(low[i], LittleEndian(low[i + 1..]), i);
      resultValue := resultValue + Shifted(low[i], i);
      i := i + 1;
    }
    NothingLeft(low);
  }

  lemma WholeValue(b: seq<Octet>)
    ensures Shifted(LittleEndian(b[0..]), 0) == LittleEndian(b)
  {
    assert b[0..] == b;
  }

  lemma NothingLeft(b: seq<Octet>)
    ensures Shifted(LittleEndian(b[|b|..]), |b|) == 0
  {
    ShiftedZero(|b|);
  }

  method VerifySolution(header: Hash32, nonce: nat, mixHash: Hash32, result: Hash32, target: nat) returns (ok: bool)
    ensures ok == Passes(header, nonce, mixHash, result, target)
  {
    hide Keccak, LowBytes, ResultValue;
    var resultValue := ReadValue(result);
    if resultValue >= target {
      return false;
    }
    var calculatedResult := HashBytes(SeedInput(header, nonce) + mixHash, 32);
    ok := calculatedResult == result;
  }

  lemma TailValue(b: seq<Octet>, i: nat)
    requires i < |b|
    ensures LittleEndian(b[i..]) == b[i] + 256 * LittleEndian(b[i + 1..])
  {
    assert b[i..][1..] == b[i + 1..];
  }

  /** What the search computes over a dataset passes the check exactly when its value is below the
      target, and no other result for that mix digest passes. */
  lemma ComputedPasses(header: Hash32, nonce: nat, dag: seq<Octet>, target: nat, other: Hash32)
    requires Searchable(dag)
    ensures var (mixHash, result) := Compute(header, nonce, Some(dag));
            && (Passes(header, nonce, mixHash, result, target) <==> ResultValue(result) < target)
            && (Passes(header, nonce, mixHash, other, target) ==> other == result)
  {
    hide Accessed, FinalResult, ResultValue, BytesOf;
    var mixHash: Hash32 := BytesOf(Compress(Accessed(header, nonce, dag, 64)));
    assert Compute(header, nonce, Some(dag)) == (mixHash, FinalResult(header, nonce, mixHash));
  }

  lemma {:induction false} LittleEndianZero(n: nat)
    ensures LittleEndian(seq(n, _ => 0)) == 0
  {
    if n > 0 {
      LittleEndianZero(n - 1);
      assert seq(n, _ => 0)[1..] == seq(n - 1, _ => 0);
    }
  }

  /** Without a dataset the zero hashes pass only if the target is not zero and Keccak-256 of the
      header, the nonce and zeros is zero. */
  lemma NothingComputed(header: Hash32, nonce: nat, target: nat)
    ensures var (mixHash, result) := Compute(header, nonce, None);
            Passes(header, nonce, mixHash, result, target)
            <==> 0 < target && FinalResult(header, nonce, ZeroHash()) == ZeroHash()
  {
    hide FinalResult;
    LittleEndianZero(8);
    assert ZeroHash()[..8] == seq(8, _ => 0);
  }
}
