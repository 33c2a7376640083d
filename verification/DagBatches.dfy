/** Filling the dataset on the device, a million items a kernel launch. */
module DagBatches {
  import opened Arithmetic
  import opened Octets
  import opened Ethash

  const BATCH_SIZE: Word32 := 0x10_0000

  const THREADS_PER_BLOCK := 256

  /** How often t occurs in a log. */
  function Count(log: seq<nat>, t: nat): nat {
    if log == [] then 0 else (if log[|log| - 1] == t then 1 else 0) + Count(log[..|log| - 1], t)
  }

  lemma {:induction false} CountConcat(a: seq<nat>, b: seq<nat>, t: nat)
    ensures Count(a + b, t) == Count(a, t) + Count(b, t)
    decreases |b|
  {
    if b == [] {
      assert a + b == a;
    } else {
      assert (a + b)[..|a + b| - 1] == a + b[..|b| - 1];
      CountConcat(a, b[..|b| - 1], t);
    }
  }

  lemma CountOne(log: seq<nat>, u: nat, t: int)
    ensures t >= 0 ==> Count(log + [u], t) == (if u == t then 1 else 0) + Count(log, t)
  {
    assert (log + [u])[..|log|] == log;
  }

  lemma {:induction false} CountedOccurs(log: seq<nat>, t: nat)
    requires Count(log, t) > 0
    ensures t in log
    decreases |log|
  {
    if log[|log| - 1] != t {
      CountedOccurs(log[..|log| - 1], t);
    }
  }

  /** An order of n stores: each of them once. */
  ghost predicate IsOrder(order: seq<nat>, n: nat) {
    (forall i | 0 <= i < |order| :: order[i] < n) && forall t: nat | t < n :: Count(order, t) == 1
  }

  /** The words from..to are filled in, each with its own number; the rest is as before. */
  ghost predicate Filled(dag: seq<nat>, before: seq<nat>, from: nat, to: nat) {
    |dag| == |before| && forall k: nat | k < |dag| :: dag[k] == if from <= k < to then k else before[k]
  }

  /** The words of the batch whose stores have been made are filled in. */
  ghost predicate Partly(dag: seq<nat>, before: seq<nat>, from: nat, to: nat, made: set<nat>) {
    |dag| == |before|
    && forall k: nat | k < |dag| :: dag[k] == if from <= k < to && k - from in made then k else before[k]
  }

  lemma NoneMade(before: seq<nat>, from: nat, to: nat)
    ensures Partly(before, before, from, to, Made([]))
  {
  }

  lemma OneMore(dag: seq<nat>, next: seq<nat>, before: seq<nat>, from: nat, to: nat, made: set<nat>, s: nat)
    requires Partly(dag, before, from, to, made) && to <= |dag|
    requires next == if from + s < to then dag[from + s := from + s] else dag
    ensures Partly(next, before, from, to, made + {s})
  {
  }

  lemma AllMade(dag: seq<nat>, before: seq<nat>, from: nat, to: nat, made: set<nat>)
    requires Partly(dag, before, from, to, made)
    requires forall s: nat | from + s < to :: s in made
    ensures Filled(dag, before, from, to)
  {
    forall k: nat | k < |dag| && from <= k < to
      ensures dag[k] == k
    {
      var s: nat := k - from;
      assert from + s < to;
    }
  }

  /** Thread idx of the kernel at step i of its loop; the threads past the last item do nothing. */
  method StoreWord(dag: array<nat>, startIndex: Word32, idx: nat, i: nat, numItems: Word32)
    requires 8 * (startIndex + numItems) <= dag.Length && i < 8
    modifies dag
    ensures dag[..] == if idx < numItems
                       then old(dag[..])[8 * (startIndex + idx) + i := 8 * (startIndex + idx) + i]
                       else old(dag[..])
  {
    if idx >= numItems {
      return;
    }
    var dagIndex := startIndex + idx;
    dag[dagIndex * 8 + i] := dagIndex * 8 + i;
  }

  /** The stores that have been made, and the words they have written. */
  function Made(order: seq<nat>): set<nat> {
    set s | s in order
  }

  function Written(order: seq<nat>, from: nat, n: nat): seq<nat>
    decreases |order|
  {
    if order == [] then [] else
      var s := order[|order| - 1];
      Written(order[..|order| - 1], from, n) + (if s < n then [from + s] else [])
  }

  lemma {:induction false} TimesWritten(order: seq<nat>, from: nat, n: nat, k: nat)
    ensures Count(Written(order, from, n), k) == if from <= k < from + n then Count(order, k - from) else 0
    decreases |order|
  {
    if order != [] {
      var m := |order| - 1;
      var s, w := order[m], Written(order[..m], from, n);
      TimesWritten(order[..m], from, n, k);
      hide Count;
      CountOne(order[..m], s, k - from);
      assert order == order[..m] + [s];
      if s < n {
        CountOne(w, from + s, k);
      } else {
        assert w + [] == w;
      }
    }
  }

  lemma NextMade(order: seq<nat>, j: nat)
    requires j < |order|
    ensures Made(order[..j + 1]) == Made(order[..j]) + {order[j]}
  {
    assert order[..j + 1] == order[..j] + [order[j]];
  }

  lemma WholeOrder(order: seq<nat>, stores: nat, from: nat, n: nat)
    requires IsOrder(order, stores) && n <= stores
    ensures forall s: nat | s < n :: s in Made(order)
    ensures forall k: nat :: Count(Written(order, from, n), k) == if from <= k < from + n then 1 else 0
  {
    forall s: nat | s < n
      ensures s in Made(order)
    {
      assert Count(order, s) == 1;
      CountedOccurs(order, s);
    }
    forall k: nat
      ensures Count(Written(order, from, n), k) == if from <= k < from + n then 1 else 0
    {
      TimesWritten(order, from, n, k);
    }
  }

  /** A kernel launch: its threads' eight stores each are made in any order, interleaved in any way.
      `written` logs the words as they are written. */
  method LaunchKernel(dag: array<nat>, startIndex: Word32, numItems: Word32, blocks: nat, order: seq<nat>)
    returns (ghost written: seq<nat>)
    requires 8 * (startIndex + numItems) <= dag.Length
    requires numItems <= blocks * THREADS_PER_BLOCK && IsOrder(order, 8 * (blocks * THREADS_PER_BLOCK))
    modifies dag
    ensures Filled(dag[..], old(dag[..]), 8 * startIndex, 8 * (startIndex + numItems))
    ensures forall k: nat ::
              Count(written, k) == if 8 * startIndex <= k < 8 * (startIndex + numItems) then 1 else 0
  {
    hide Partly, Filled, Made, IsOrder;
    ghost var before, from, n := dag[..], 8 * startIndex, 8 * numItems;
    WholeOrder(order, 8 * (blocks * THREADS_PER_BLOCK), from, n);
    NoneMade(before, from, from + n);
    written := [];
    var j := 0;
    while j < |order|
      invariant 0 <= j <= |order| && dag.Length == |before|
      invariant Partly(dag[..], before, from, from + n, Made(order[..j]))
      invariant written == Written(order[..j], from, n)
    {
      assert order[..j + 1][..j] == order[..j];
      NextMade(order, j);
      ghost var previous := dag[..];
      StoreWord(dag, startIndex, order[j] / 8, order[j] % 8, numItems);
      OneMore(previous, dag[..], before, from, from + n, Made(order[..j]), order[j]);
      if order[j] < n {
        written := written + [from + order[j]];
      }
      j := j + 1;
    }
    assert order[..j] == order;
    AllMade(dag[..], before, from, from + n, Made(order));
  }

  lemma NothingWritten()
    ensures forall k: nat :: Count([], k) == 0
  {
  }

  /** Enough blocks are launched for a batch. */
  lemma EnoughBlocks(count: nat)
    ensures count <= (count + THREADS_PER_BLOCK - 1) / THREADS_PER_BLOCK * THREADS_PER_BLOCK
  {
  }

  /** Below the bound the counter does not wrap. */
  lemma NextStart(start: Word32, numDagItems: Word32)
    requires start < numDagItems <= U32 - BATCH_SIZE && start % BATCH_SIZE == 0
    ensures (start + BATCH_SIZE) % U32 == start + BATCH_SIZE && (start + BATCH_SIZE) % BATCH_SIZE == 0
  {
    DivisionUnique(start + BATCH_SIZE, U32, 0, start + BATCH_SIZE);
    DivisionUnique(start + BATCH_SIZE, BATCH_SIZE, start / BATCH_SIZE + 1, 0);
  }

  /** The batching loop.  It leaves word k of the dataset equal to k, writes each word once, and
      ends, since the last step of its 32-bit counter does not wrap. */
  method GenerateDagGpu(dag: array<nat>, numDagItems: Word32, orders: nat -> seq<nat>)
    returns (ghost written: seq<nat>)
    requires numDagItems <= U32 - BATCH_SIZE && dag.Length == 8 * numDagItems
    requires forall n: nat :: IsOrder(orders(n), n)
    modifies dag
    ensures forall k: nat | k < dag.Length :: dag[k] == k
    ensures forall k: nat :: Count(written, k) == if k < 8 * numDagItems then 1 else 0
  {
    hide Count, IsOrder;
    written := [];
    NothingWritten();
    var start: Word32 := 0;
    while start < numDagItems
      invariant start % BATCH_SIZE == 0
      invariant forall k: nat | k < dag.Length && k < 8 * start :: dag[k] == k
      invariant forall k: nat :: Count(written, k) == if k < 8 * start && k < 8 * numDagItems then 1 else 0
      decreases numDagItems - start
    {
      NextStart(start, numDagItems);
      var count := if BATCH_SIZE < numDagItems - start then BATCH_SIZE else numDagItems - start;
      var blocks := (count + THREADS_PER_BLOCK - 1) / THREADS_PER_BLOCK;
      EnoughBlocks(count);
      ghost var batch := LaunchKernel(dag, start, count, blocks, orders(8 * (blocks * THREADS_PER_BLOCK)));
      forall k: nat
        ensures Count(written + batch, k) == Count(written, k) + Count(batch, k)
      {
        CountConcat(written, batch, k);
      }
      written := written + batch;
      start := (start + BATCH_SIZE) % U32;
    }
  }

  /** Where the counter stands after n rounds. */
  function StartOf(n: nat): Word32 {
    n * BATCH_SIZE % U32
  }

  /** The loop ends exactly up to 2^32 - 2^20 items: past that, the counter wraps to zero before it
      reaches the number of items, and goes round for ever. */
  lemma BatchesEnd(numDagItems: Word32)
    ensures (exists n: nat :: StartOf(n) >= numDagItems) <==> numDagItems <= U32 - BATCH_SIZE
  {
    if numDagItems <= U32 - BATCH_SIZE {
      assert StartOf(4095) == U32 - BATCH_SIZE;
    } else {
      forall n: nat
        ensures StartOf(n) < numDagItems
      {
        StartIsMultiple(n);
      }
    }
  }

  /** The items of every job's dataset stay below the bound. */
  lemma JobDatasetsEnd(seedHash: Hash32)
    ensures NumItems(GetDatasetSize(JobEpoch(seedHash))) <= U32 - BATCH_SIZE
  {
    hide SeedEpoch, Chain;
    SeedEpochIsLeast(seedHash);
    SizesAreWhole(JobEpoch(seedHash));
    EpochLimits(JobEpoch(seedHash));
  }

  lemma StartIsMultiple(n: nat)
    ensures StartOf(n) == n % 4096 * BATCH_SIZE
  {
    var q, r := n / 4096, n % 4096;
    assert n == 4096 * q + r;
    DivisionUnique(n * BATCH_SIZE, U32, q, r * BATCH_SIZE);
  }
}
