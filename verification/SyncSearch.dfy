/** The search of the mining loop: it launches a kernel, waits for it, and copies the solutions back. */
module SyncSearch {
  import opened Arithmetic
  import opened Octets
  import opened Ethash
  import SearchKernel
  import NonceSweep
  import KernelHash

  const MAX_SOLUTIONS: nat := 16

  const SEARCH_RANGE: nat := 10_000_000

  datatype Solution = Solution(nonce: nat, mixHash: Hash32, result: Hash32)

  /** The kernel the launcher chooses.  Without a texture it is one of these two. */
  datatype Variant = Base | Optimized(noncesPerThread: nat)

  /** What the launcher makes of its settings: between 1 and 256 nonces a thread. */
  predicate Configurable(v: Variant) {
    v.Optimized? ==> 0 < v.noncesPerThread <= 256
  }

  function PerThread(v: Variant): nat {
    if v.Base? then 1 else v.noncesPerThread
  }

  function Blocks(v: Variant): int
    requires Configurable(v)
  {
    if v.Base? then NonceSweep.BaseBlocks(SEARCH_RANGE)
    else NonceSweep.BatchedBlocks(SEARCH_RANGE, v.noncesPerThread)
  }

  function ThreadsPerBlock(v: Variant): nat {
    if v.Base? then 1024 else 512
  }

  lemma BatchedGrid(p: nat)
    requires 0 < p <= 256
    ensures var blocks := NonceSweep.BatchedBlocks(SEARCH_RANGE, p);
            0 < blocks && blocks * 512 * p < U32 && NonceSweep.Serves(0, blocks * 512, p, SEARCH_RANGE)
  {
    hide NonceSweep.Serves, NonceSweep.BatchedBlocks, NonceSweep.BatchTotal;
    var total := NonceSweep.BatchTotal(SEARCH_RANGE, p);
    NonceSweep.TotalBounds(SEARCH_RANGE, p);
    ProductAtLeast(total, p);
    NonceSweep.IntBounds(total);
    NonceSweep.BatchedGridSize(SEARCH_RANGE, p);
    NonceSweep.BatchedServes(0, SEARCH_RANGE, p);
  }

  lemma BaseGrid()
    ensures NonceSweep.BaseBlocks(SEARCH_RANGE) == 9766
    ensures NonceSweep.Serves(0, 9766 * 1024, 1, SEARCH_RANGE)
  {
    hide NonceSweep.Serves;
    NonceSweep.BaseServes(0, SEARCH_RANGE);
  }

  lemma SomeBlocks(v: Variant)
    requires Configurable(v)
    ensures 0 < Blocks(v)
  {
    hide NonceSweep.BatchedBlocks;
    match v
    case Base => BaseGrid();
    case Optimized(p) => BatchedGrid(p);
  }

  function Threads(v: Variant): nat
    requires Configurable(v)
  {
    SomeBlocks(v);
    Blocks(v) * ThreadsPerBlock(v)
  }

  /** Whatever the settings, the launch stays below 2^32 nonces and covers the searched range without
      repeats. */
  lemma LaunchServes(v: Variant)
    requires Configurable(v)
    ensures Threads(v) * PerThread(v) < U32
    ensures NonceSweep.Serves(0, Threads(v), PerThread(v), SEARCH_RANGE)
  {
    hide NonceSweep.Serves, NonceSweep.BatchedBlocks, NonceSweep.BaseBlocks;
    match v
    case Base => BaseGrid();
    case Optimized(p) => BatchedGrid(p);
  }

  /** What the program does not choose about a search: the kernel, the target, the memory handed to
      the launch, and how the device interleaves its threads. */
  datatype Sweep = Sweep(variant: Variant, targetBE: Hash32, init: seq<SearchKernel.Record>, schedule: seq<nat>)

  function LaunchOf(header: Hash32, seedHash: Hash32, dag: seq<Word32>, w: Sweep): SearchKernel.Launch
    requires KernelHash.Addressable(dag) && Configurable(w.variant)
  {
    KernelHash.JobLaunch(0, Threads(w.variant), PerThread(w.variant), MAX_SOLUTIONS, header, seedHash, w.targetBE, dag)
  }

  /** The launch gets its slots, and the host waits until every thread has finished. */
  ghost predicate Finishes(header: Hash32, seedHash: Hash32, dag: seq<Word32>, w: Sweep)
    requires KernelHash.Addressable(dag)
  {
    && Configurable(w.variant)
    && var l := LaunchOf(header, seedHash, dag, w);
       && SearchKernel.SlotsReady(l, w.init) && SearchKernel.Schedule(l, w.schedule)
       && forall t | 0 <= t < l.threads ::
            SearchKernel.Run(l, SearchKernel.Initial(l, w.init), w.schedule).threads[t].Finished?
  }

  /** The 32-bit hit counter cannot overflow, so nothing more is needed for a complete launch. */
  lemma FinishesCompletes(header: Hash32, seedHash: Hash32, dag: seq<Word32>, w: Sweep)
    requires KernelHash.Addressable(dag) && Finishes(header, seedHash, dag, w)
    ensures SearchKernel.Completes(LaunchOf(header, seedHash, dag, w), w.init, w.schedule)
  {
    hide SearchKernel.Run, SearchKernel.Hits, SearchKernel.Running;
    LaunchServes(w.variant);
    SearchKernel.GridFitsCounter(LaunchOf(header, seedHash, dag, w));
  }

  /** The device memory after the launch. */
  ghost function DeviceState(header: Hash32, seedHash: Hash32, dag: seq<Word32>, w: Sweep): (s: SearchKernel.State)
    requires KernelHash.Addressable(dag) && Finishes(header, seedHash, dag, w)
    ensures Copyable(s.slots)
  {
    var l := LaunchOf(header, seedHash, dag, w);
    SearchKernel.Run(l, SearchKernel.Initial(l, w.init), w.schedule)
  }

  // ---------------------------------------------------------------- collecting

  ghost predicate Copyable(slots: seq<SearchKernel.Record>) {
    MAX_SOLUTIONS <= |slots| && forall i | 0 <= i < |slots| :: slots[i].Shaped()
  }

  function Min(a: nat, b: nat): nat {
    if a <= b then a else b
  }

  /** The digest words of a record are copied as the bytes they are stored in. */
  function SolutionOf(r: SearchKernel.Record): Solution
    requires r.Shaped()
  {
    Solution(r.nonce, BytesOf(r.mix), r.result)
  }

  function Collected(count: nat, slots: seq<SearchKernel.Record>): (solutions: seq<Solution>)
    requires Copyable(slots)
    ensures |solutions| == Min(count, MAX_SOLUTIONS)
  {
    seq(Min(count, MAX_SOLUTIONS), i requires 0 <= i < Min(count, MAX_SOLUTIONS) => SolutionOf(slots[i]))
  }

  method CollectSolutions(count: nat, slots: seq<SearchKernel.Record>) returns (solutions: seq<Solution>)
    requires Copyable(slots)
    ensures solutions == Collected(count, slots)
  {
    hide BytesOf;
    solutions := [];
    if count > 0 {
      var numSolutions := Min(count, MAX_SOLUTIONS);
      var tmp := slots[..numSolutions];
      for i := 0 to numSolutions
        invariant |solutions| == i
        invariant forall k: nat | k < i :: solutions[k] == SolutionOf(slots[k])
      {
        solutions := solutions + [Solution(tmp[i].nonce, BytesOf(tmp[i].mix), tmp[i].result)];
      }
    }
  }

  ghost function SearchResult(header: Hash32, seedHash: Hash32, dag: seq<Word32>, w: Sweep): seq<Solution>
    requires KernelHash.Addressable(dag) && Finishes(header, seedHash, dag, w)
  {
    var s := DeviceState(header, seedHash, dag, w);
    Collected(s.count, s.slots)
  }

  /** The digests of a solution are those of its nonce. */
  ghost predicate FoundBy(header: Hash32, seedHash: Hash32, dag: seq<Word32>, solution: Solution)
    requires KernelHash.Addressable(dag)
  {
    && solution.nonce < U64
    && solution.mixHash == BytesOf(KernelHash.MixDigest(header, dag, solution.nonce))
    && solution.result == KernelHash.Result(header, seedHash, dag, solution.nonce)
  }

  lemma CollectedSlot(header: Hash32, seedHash: Hash32, dag: seq<Word32>, w: Sweep, i: nat)
    requires KernelHash.Addressable(dag) && Finishes(header, seedHash, dag, w)
    requires i < |SearchResult(header, seedHash, dag, w)|
    ensures var s := DeviceState(header, seedHash, dag, w);
            i < s.count && i < MAX_SOLUTIONS && SearchResult(header, seedHash, dag, w)[i] == SolutionOf(s.slots[i])
  {
    hide DeviceState, Finishes, SolutionOf;
  }

  lemma GenuineSlot(header: Hash32, seedHash: Hash32, dag: seq<Word32>, w: Sweep, i: nat)
    requires KernelHash.Addressable(dag) && Finishes(header, seedHash, dag, w)
    requires i < DeviceState(header, seedHash, dag, w).count && i < MAX_SOLUTIONS
    ensures KernelHash.Genuine(DeviceState(header, seedHash, dag, w).slots[i], header, seedHash, w.targetBE, dag)
  {
    hide SearchKernel.Run, SearchKernel.Initial, Finishes, KernelHash.Genuine, KernelHash.JobLaunch, Threads, PerThread;
    FinishesCompletes(header, seedHash, dag, w);
    FinishesConfigured(header, seedHash, dag, w);
    KernelHash.LaunchRecordsGenuine(0, Threads(w.variant), PerThread(w.variant), MAX_SOLUTIONS, header, seedHash,
                                    w.targetBE, dag, w.init, w.schedule);
    var l := LaunchOf(header, seedHash, dag, w);
    assert SearchKernel.Run(l, SearchKernel.Initial(l, w.init), w.schedule) == DeviceState(header, seedHash, dag, w);
  }

  /** Every solution the host collects was found by the kernel: its digests are those of its nonce and
      its result is at most the target. */
  lemma SearchIsGenuine(header: Hash32, seedHash: Hash32, dag: seq<Word32>, w: Sweep, i: nat)
    requires KernelHash.Addressable(dag) && Finishes(header, seedHash, dag, w)
    requires i < |SearchResult(header, seedHash, dag, w)|
    ensures var solution := SearchResult(header, seedHash, dag, w)[i];
            FoundBy(header, seedHash, dag, solution) && BigEndian(solution.result) <= BigEndian(w.targetBE)
  {
    hide DeviceState, Finishes, SearchResult, KernelHash.MixDigest, KernelHash.Result, BytesOf, BigEndian;
    CollectedSlot(header, seedHash, dag, w, i);
    GenuineSlot(header, seedHash, dag, w, i);
  }

  lemma FinishesConfigured(header: Hash32, seedHash: Hash32, dag: seq<Word32>, w: Sweep)
    requires KernelHash.Addressable(dag) && Finishes(header, seedHash, dag, w)
    ensures Configurable(w.variant)
  {
  }

  lemma NonceCovered(v: Variant, nonce: nat) returns (k: SearchKernel.Ticket)
    requires Configurable(v) && nonce < SEARCH_RANGE
    ensures NonceSweep.InGrid(Threads(v), PerThread(v), k)
    ensures NonceSweep.NonceOf(0, PerThread(v), k.0, k.1) == nonce
  {
    hide Threads, PerThread, NonceSweep.Serves, NonceSweep.InGrid, NonceSweep.NonceOf;
    LaunchServes(v);
    k := NonceSweep.ServedNonce(0, Threads(v), PerThread(v), SEARCH_RANGE, nonce);
  }

  lemma WinningSlot(header: Hash32, seedHash: Hash32, dag: seq<Word32>, w: Sweep, nonce: nat) returns (i: nat)
    requires KernelHash.Addressable(dag) && Finishes(header, seedHash, dag, w)
    requires DeviceState(header, seedHash, dag, w).count <= MAX_SOLUTIONS
    requires nonce < SEARCH_RANGE
    requires BigEndian(KernelHash.Result(header, seedHash, dag, nonce)) <= BigEndian(w.targetBE)
    ensures var s := DeviceState(header, seedHash, dag, w);
            i < s.count && i < |s.slots| && s.slots[i].nonce == nonce
  {
    hide SearchKernel.Run, Finishes, KernelHash.Result, BigEndian, Threads, NonceSweep.NonceOf,
         NonceSweep.InGrid;
    FinishesConfigured(header, seedHash, dag, w);
    FinishesCompletes(header, seedHash, dag, w);
    var k := NonceCovered(w.variant, nonce);
    KernelHash.LaunchRecordsGenuine(0, Threads(w.variant), PerThread(w.variant), MAX_SOLUTIONS, header, seedHash,
                                    w.targetBE, dag, w.init, w.schedule);
    var s := DeviceState(header, seedHash, dag, w);
    i :| i < s.count && s.slots[i].nonce == NonceSweep.NonceOf(0, PerThread(w.variant), k.0, k.1);
  }

  /** As long as no more than sixteen nonces win, the host collects a solution for each winning nonce
      of the ten million. */
  lemma SearchIsComplete(header: Hash32, seedHash: Hash32, dag: seq<Word32>, w: Sweep, nonce: nat)
    requires KernelHash.Addressable(dag) && Finishes(header, seedHash, dag, w)
    requires DeviceState(header, seedHash, dag, w).count <= MAX_SOLUTIONS
    requires nonce < SEARCH_RANGE
    requires BigEndian(KernelHash.Result(header, seedHash, dag, nonce)) <= BigEndian(w.targetBE)
    ensures exists i: nat :: i < |SearchResult(header, seedHash, dag, w)|
                             && SearchResult(header, seedHash, dag, w)[i].nonce == nonce
  {
    hide Finishes, KernelHash.Result, BigEndian, DeviceState, SolutionOf;
    var i := WinningSlot(header, seedHash, dag, w, nonce);
    SolutionNonce(DeviceState(header, seedHash, dag, w).slots[i]);
    assert SearchResult(header, seedHash, dag, w)[i].nonce == nonce;
  }

  lemma SolutionNonce(r: SearchKernel.Record)
    requires r.Shaped()
    ensures SolutionOf(r).nonce == r.nonce
  {
  }
}
