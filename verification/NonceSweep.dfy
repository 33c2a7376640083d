/** How the two launchers cut a requested nonce range into threads and batches, with the 32-bit and
    64-bit arithmetic of the device. */
module NonceSweep {
  import opened Arithmetic
  import opened SearchKernel

  /** Conversion of an unsigned 64-bit value to a signed 32-bit one. */
  function ToInt(v: nat): int {
    if v % U32 < 0x8000_0000 then v % U32 else v % U32 - U32
  }

  /** The nonce of offset o of thread t: the thread number and its product with the batch size are
      32-bit, the two sums are 64-bit. */
  function NonceOf(start: nat, perThread: nat, t: nat, o: nat): (n: nat)
    ensures n < U64
  {
    (start + (t % U32) * perThread % U32 + o) % U64
  }

  function BaseBlocks(count: nat): int {
    ToInt((count + 1024 - 1) % U64 / 1024)
  }

  /** The number of threads the batched launcher asks for, before it becomes an int. */
  function BatchTotal(count: nat, perThread: nat): nat
    requires 0 < perThread
  {
    (count + perThread - 1) % U64 / perThread
  }

  function BatchedBlocks(count: nat, perThread: nat): int
    requires 0 < perThread
  {
    Truncated(ToInt(BatchTotal(count, perThread)) + 512 - 1, 512)
  }

  predicate InGrid(threads: nat, perThread: nat, k: Ticket) {
    k.0 < threads && k.1 < perThread
  }

  /** No two nonces of a launch coincide. */
  ghost predicate NoRepeats(start: nat, threads: nat, perThread: nat) {
    forall k: Ticket, m: Ticket | InGrid(threads, perThread, k) && InGrid(threads, perThread, m) ::
      NonceOf(start, perThread, k.0, k.1) == NonceOf(start, perThread, m.0, m.1) ==> k == m
  }

  /** The nonce at distance i from start is tested by some thread. */
  ghost predicate Tested(start: nat, threads: nat, perThread: nat, i: nat) {
    exists k: Ticket :: InGrid(threads, perThread, k) && NonceOf(start, perThread, k.0, k.1) == (start + i) % U64
  }

  /** How far from the start a nonce lies, when nothing wraps. */
  function Distance(perThread: nat, t: nat, o: nat): nat {
    t * perThread + o
  }

  /** As long as the last thread's product fits, no product wraps. */
  lemma NoWrap(start: nat, threads: nat, perThread: nat, t: nat, o: nat)
    requires t < threads && o < perThread
    requires (threads - 1) * perThread < U32
    ensures NonceOf(start, perThread, t, o) == (start + Distance(perThread, t, o)) % U64
    ensures Distance(perThread, t, o) < U32 + perThread
  {
    ProductMonotone(t, threads - 1, perThread);
    ProductAtLeast(t, perThread);
    SmallModulo(t);
    SmallModulo(t * perThread);
  }

  lemma SmallModulo(n: nat)
    requires n < U32
    ensures n % U32 == n
  {
  }

  lemma ModDistinct(start: nat, a: nat, b: nat)
    requires a < U64 && b < U64 && (start + a) % U64 == (start + b) % U64
    ensures a == b
  {
    var p, q := (start + a) / U64, (start + b) / U64;
    assert a - b == U64 * (p - q);
  }

  lemma DistancesDiffer(perThread: nat, t: nat, o: nat, u: nat, p: nat)
    requires o < perThread && p < perThread && Distance(perThread, t, o) == Distance(perThread, u, p)
    ensures t == u && o == p
  {
    NextMultiple(t, perThread);
    NextMultiple(u, perThread);
    if t < u {
      ProductMonotone(t + 1, u, perThread);
    } else if u < t {
      ProductMonotone(u + 1, t, perThread);
    }
  }

  lemma NoncesDiffer(start: nat, threads: nat, perThread: nat, k: Ticket, m: Ticket)
    requires InGrid(threads, perThread, k) && InGrid(threads, perThread, m)
    requires perThread <= 256 && (threads - 1) * perThread < U32
    requires NonceOf(start, perThread, k.0, k.1) == NonceOf(start, perThread, m.0, m.1)
    ensures k == m
  {
    hide NonceOf, Distance;
    NoWrap(start, threads, perThread, k.0, k.1);
    NoWrap(start, threads, perThread, m.0, m.1);
    ModDistinct(start, Distance(perThread, k.0, k.1), Distance(perThread, m.0, m.1));
    DistancesDiffer(perThread, k.0, k.1, m.0, m.1);
  }

  /** The batches are disjoint if the last thread's 32-bit product does not wrap. */
  lemma NoRepeatsIfFits(start: nat, threads: nat, perThread: nat)
    requires 0 < threads && 0 < perThread <= 256 && (threads - 1) * perThread < U32
    ensures NoRepeats(start, threads, perThread)
  {
    hide NonceOf, InGrid;
    forall k: Ticket, m: Ticket | InGrid(threads, perThread, k) && InGrid(threads, perThread, m)
        && NonceOf(start, perThread, k.0, k.1) == NonceOf(start, perThread, m.0, m.1)
      ensures k == m
    {
      NoncesDiffer(start, threads, perThread, k, m);
    }
  }

  /** The first thread whose product reaches 2^32. */
  function FirstWrapping(perThread: nat): nat
    requires 0 < perThread
  {
    (U32 + perThread - 1) / perThread
  }

  lemma FirstWrappingThread(threads: nat, perThread: nat)
    requires 0 < perThread <= 256 && (threads - 1) * perThread >= U32
    ensures FirstWrapping(perThread) < threads
    ensures 0 <= FirstWrapping(perThread) * perThread - U32 < perThread
    ensures perThread > 1 ==> FirstWrapping(perThread) < U32
  {
    var t := FirstWrapping(perThread);
    NextMultiple(t - 1, perThread);
    if t > threads - 1 {
      ProductMonotone(threads - 1, t - 1, perThread);
    }
    if perThread > 1 {
      ProductBound(t, perThread);
    }
  }

  lemma ProductBound(t: nat, p: nat)
    requires 1 < p
    ensures t * 2 <= t * p
  {
  }

  lemma WrappedProduct(t: nat, perThread: nat, w: nat)
    requires 0 < perThread && t * perThread == U32 + w && w < perThread <= 256
    requires perThread > 1 ==> t < U32
    ensures (t % U32) * perThread % U32 == w
  {
    if perThread > 1 {
      assert t % U32 == t;
      assert (U32 + w) % U32 == w;
    }
  }

  /** The first thread whose product reaches 2^32 tests a nonce of thread 0 again, so the bound is exact. */
  lemma RepeatsIfTooBig(start: nat, threads: nat, perThread: nat)
    requires 0 < threads && 0 < perThread <= 256 && (threads - 1) * perThread >= U32
    ensures !NoRepeats(start, threads, perThread)
  {
    FirstWrappingThread(threads, perThread);
    var t := FirstWrapping(perThread);
    var w: nat := t * perThread - U32;
    var k: Ticket, m: Ticket := (t, 0), (0, w);
    assert InGrid(threads, perThread, k) && InGrid(threads, perThread, m);
    WrappedProduct(t, perThread, w);
    assert NonceOf(start, perThread, t, 0) == NonceOf(start, perThread, 0, w);
  }

  /** The ticket whose nonce lies at distance i. */
  lemma TicketAt(threads: nat, perThread: nat, i: nat) returns (k: Ticket)
    requires 0 < perThread && i < threads * perThread
    ensures InGrid(threads, perThread, k) && Distance(perThread, k.0, k.1) == i
  {
    k := (i / perThread, i % perThread);
    QuotientBelow(i, threads, perThread);
  }

  lemma QuotientBelow(i: nat, n: nat, b: nat)
    requires 0 < b && i < n * b
    ensures i / b < n && i / b * b + i % b == i
  {
    if i / b >= n {
      ProductMonotone(n, i / b, b);
    }
  }

  lemma TestedInside(start: nat, threads: nat, perThread: nat, i: nat)
    requires 0 < threads && 0 < perThread <= 256 && (threads - 1) * perThread < U32
    requires i < threads * perThread
    ensures Tested(start, threads, perThread, i)
  {
    hide NonceOf, Distance;
    var k := TicketAt(threads, perThread, i);
    NoWrap(start, threads, perThread, k.0, k.1);
  }

  lemma DistanceBelow(threads: nat, perThread: nat, k: Ticket)
    requires InGrid(threads, perThread, k)
    ensures Distance(perThread, k.0, k.1) < threads * perThread
  {
    NextMultiple(k.0, perThread);
    ProductMonotone(k.0 + 1, threads, perThread);
  }

  lemma NotTestedOutside(start: nat, threads: nat, perThread: nat, i: nat, k: Ticket)
    requires 0 < threads && 0 < perThread <= 256 && (threads - 1) * perThread < U32
    requires threads * perThread <= i < U64 && InGrid(threads, perThread, k)
    ensures NonceOf(start, perThread, k.0, k.1) != (start + i) % U64
  {
    hide NonceOf, Distance;
    NoWrap(start, threads, perThread, k.0, k.1);
    DistanceBelow(threads, perThread, k);
    var d := Distance(perThread, k.0, k.1);
    if (start + d) % U64 == (start + i) % U64 {
      ModDistinct(start, d, i);
    }
  }

  /** Without wrap-around a launch tests one contiguous interval: every distance below
      threads*perThread, and no other. */
  lemma TestsInterval(start: nat, threads: nat, perThread: nat, i: nat)
    requires 0 < threads && 0 < perThread <= 256 && (threads - 1) * perThread < U32
    requires i < U64
    ensures Tested(start, threads, perThread, i) <==> i < threads * perThread
  {
    hide NonceOf;
    if i < threads * perThread {
      TestedInside(start, threads, perThread, i);
    } else {
      forall k: Ticket | InGrid(threads, perThread, k)
        ensures NonceOf(start, perThread, k.0, k.1) != (start + i) % U64
      {
        NotTestedOutside(start, threads, perThread, i, k);
      }
    }
  }

  /** A launch serves a request: it tests each nonce of the range once and no nonce twice. */
  ghost predicate Serves(start: nat, threads: nat, perThread: nat, count: nat) {
    NoRepeats(start, threads, perThread) && forall i: nat | i < count :: Tested(start, threads, perThread, i)
  }

  lemma ServedNonce(start: nat, threads: nat, perThread: nat, count: nat, i: nat) returns (k: Ticket)
    requires Serves(start, threads, perThread, count) && i < count
    ensures InGrid(threads, perThread, k) && NonceOf(start, perThread, k.0, k.1) == (start + i) % U64
  {
    hide NoRepeats, InGrid, NonceOf;
    assert Tested(start, threads, perThread, i);
    k :| InGrid(threads, perThread, k) && NonceOf(start, perThread, k.0, k.1) == (start + i) % U64;
  }

  /** The one-nonce launcher serves exactly the requests of at most 2^32 nonces; it then tests the
      range rounded up to a multiple of 1024. */
  lemma BaseServes(start: nat, count: nat)
    requires 0 < count < U64
    ensures count <= U32 <==> 0 < BaseBlocks(count) && Serves(start, BaseBlocks(count) * 1024, 1, count)
    ensures count <= U32 ==> count <= BaseBlocks(count) * 1024 < count + 1024
  {
    hide NoRepeats, Tested;
    var blocks := BaseBlocks(count);
    if count <= U32 {
      NoRepeatsIfFits(start, blocks * 1024, 1);
      forall i: nat | i < count
        ensures Tested(start, blocks * 1024, 1, i)
      {
        TestsInterval(start, blocks * 1024, 1, i);
      }
    } else if 0 < blocks {
      FarNonceMissed(start, blocks * 1024);
    }
  }

  /** The thread number is a 32-bit value, so the nonce 2^32 places on is never tested. */
  lemma FarNonceMissed(start: nat, threads: nat)
    ensures !Tested(start, threads, 1, U32)
  {
    forall k: Ticket | InGrid(threads, 1, k)
      ensures NonceOf(start, 1, k.0, k.1) != (start + U32) % U64
    {
      var d := k.0 % U32;
      assert NonceOf(start, 1, k.0, k.1) == (start + d) % U64;
      if (start + d) % U64 == (start + U32) % U64 {
        ModDistinct(start, d, U32);
      }
    }
  }

  /** Whole blocks leave no room between the two bounds. */
  lemma WholeBlocks(blocks: nat, perThread: nat)
    requires 0 < blocks && 0 < perThread <= 256
    ensures blocks * 512 * perThread <= U32 <==> (blocks * 512 - 1) * perThread < U32
  {
    var m := blocks * perThread;
    assert blocks * 512 * perThread == 512 * m;
    assert (blocks * 512 - 1) * perThread == 512 * m - perThread;
  }

  lemma TotalBounds(count: nat, perThread: nat)
    requires 0 < perThread && count + perThread - 1 < U64
    ensures count <= BatchTotal(count, perThread) * perThread < count + perThread
  {
    CeilingBounds(count, perThread);
  }

  lemma SumWraps(count: nat, perThread: nat)
    requires 0 < perThread <= 256 && count < U64 <= count + perThread - 1
    ensures BatchTotal(count, perThread) == 0
  {
    DivisionUnique(count + perThread - 1, U64, 1, count + perThread - 1 - U64);
    DivisionUnique(count + perThread - 1 - U64, perThread, 0, count + perThread - 1 - U64);
  }

  lemma IntBounds(total: nat)
    ensures -0x8000_0000 <= ToInt(total) < 0x8000_0000
    ensures total < 0x8000_0000 ==> ToInt(total) == total
    ensures (total - ToInt(total)) % U32 == 0
  {
    var q, e := total / U32, total % U32;
    if e < 0x8000_0000 {
      DivisionUnique(total - e, U32, q, 0);
    } else {
      DivisionUnique(total - (e - U32), U32, q + 1, 0);
    }
  }

  lemma BlocksBounds(n: int)
    requires -0x8000_0000 <= n <= 0x8000_0000 - 512
    ensures var blocks := Truncated(n + 512 - 1, 512);
            && (0 < blocks <==> 0 < n)
            && (0 < n ==> n <= blocks * 512 < n + 512)
  {
  }

  /** A thread count that was cut down to an int leaves nonces of the request out. */
  lemma CutTotalMisses(start: nat, count: nat, perThread: nat, threads: nat)
    requires 0 < perThread <= 256 && 0 < count && count + perThread - 1 < U64
    requires 0 < threads < 0x8000_0000 <= BatchTotal(count, perThread)
    ensures !Serves(start, threads, perThread, count)
  {
    hide NoRepeats, Tested, BatchTotal;
    var total := BatchTotal(count, perThread);
    TotalBounds(count, perThread);
    ProductMonotone(threads, total - 1, perThread);
    NextMultiple(total - 1, perThread);
    if (threads - 1) * perThread >= U32 {
      RepeatsIfTooBig(start, threads, perThread);
    } else {
      TestsInterval(start, threads, perThread, threads * perThread);
    }
  }

  /** The batched launcher, as long as its int addition does not overflow, serves exactly the requests
      whose 64-bit sum does not wrap, whose thread count survives the conversion to int, and whose
      range, rounded up to whole blocks, has at most 2^32 nonces. */
  lemma BatchedServes(start: nat, count: nat, perThread: nat)
    requires 0 < perThread <= 256 && 0 < count < U64
    requires ToInt(BatchTotal(count, perThread)) <= 0x8000_0000 - 512
    ensures count + perThread - 1 < U64 && BatchTotal(count, perThread) < 0x8000_0000
            && BatchedBlocks(count, perThread) * 512 * perThread <= U32
       <==> 0 < BatchedBlocks(count, perThread) && Serves(start, BatchedBlocks(count, perThread) * 512, perThread, count)
  {
    var total, blocks := BatchTotal(count, perThread), BatchedBlocks(count, perThread);
    IntBounds(total);
    BlocksBounds(ToInt(total));
    if count + perThread - 1 >= U64 {
      SumWraps(count, perThread);
      return;
    }
    TotalBounds(count, perThread);
    hide NoRepeats, Tested, BatchedBlocks, BatchTotal, ToInt;
    if 0x8000_0000 <= total {
      if 0 < blocks {
        CutTotalMisses(start, count, perThread, blocks * 512);
      }
    } else {
      assert 0 < total;
      ProductMonotone(total, blocks * 512, perThread);
      WholeBlocksServe(start, count, perThread, blocks);
    }
  }

  /** The grid of a request is less than one batch and one block larger than the request. */
  lemma BatchedGridSize(count: nat, perThread: nat)
    requires 0 < perThread && 0 < count && count + perThread - 1 < U64
    requires BatchTotal(count, perThread) <= 0x8000_0000 - 512
    ensures 0 < BatchedBlocks(count, perThread)
    ensures BatchedBlocks(count, perThread) * 512 * perThread < count + 512 * perThread
  {
    var total, blocks := BatchTotal(count, perThread), BatchedBlocks(count, perThread);
    IntBounds(total);
    BlocksBounds(total);
    TotalBounds(count, perThread);
    hide BatchedBlocks, BatchTotal, ToInt, Truncated;
    assert 0 < total;
    GridProduct(blocks * 512, total, count, perThread);
  }

  lemma GridProduct(threads: nat, total: nat, count: nat, perThread: nat)
    requires threads <= total + 511 && total * perThread < count + perThread
    ensures threads * perThread < count + 512 * perThread
  {
    ProductMonotone(threads, total + 511, perThread);
    SumTimes(total, 511, perThread);
  }

  lemma WholeBlocksServe(start: nat, count: nat, perThread: nat, blocks: nat)
    requires 0 < perThread <= 256 && 0 < blocks && count <= blocks * 512 * perThread
    ensures blocks * 512 * perThread <= U32 <==> Serves(start, blocks * 512, perThread, count)
  {
    hide NoRepeats, Tested;
    WholeBlocks(blocks, perThread);
    if blocks * 512 * perThread > U32 {
      RepeatsIfTooBig(start, blocks * 512, perThread);
    } else {
      NoRepeatsIfFits(start, blocks * 512, perThread);
      forall i: nat | i < count
        ensures Tested(start, blocks * 512, perThread, i)
      {
        TestsInterval(start, blocks * 512, perThread, i);
      }
    }
  }

  // ---------------------------------------------------------------- the two kernels find the same solutions

  /** A search kernel launched on a grid: the one-nonce kernel is the case perThread == 1. */
  function Kernel(start: nat, threads: nat, perThread: nat, digest: nat -> Digest, hit: nat -> bool, max: nat): Launch {
    Launch(threads, perThread, (t, o) => NonceOf(start, perThread, t, o), digest, hit, max)
  }

  /** The i-th nonce of a request. */
  function RequestedNonce(start: nat, i: nat): nat {
    (start + i) % U64
  }

  ghost predicate Requested(start: nat, count: nat, n: nat) {
    exists i: nat :: i < count && n == RequestedNonce(start, i)
  }

  /** Every requested hit of a served request is a hit of the launch. */
  lemma RequestedHitFound(start: nat, threads: nat, perThread: nat, count: nat,
                          digest: nat -> Digest, hit: nat -> bool, max: nat, n: nat) returns (k: Ticket)
    requires Serves(start, threads, perThread, count) && Requested(start, count, n) && hit(n)
    ensures var l := Kernel(start, threads, perThread, digest, hit, max);
            k in Hits(l) && l.nonceOf(k.0, k.1) == n
  {
    hide NonceOf, Serves, Hits;
    var i: nat :| i < count && n == RequestedNonce(start, i);
    k := ServedNonce(start, threads, perThread, count, i);
    HitsAt(Kernel(start, threads, perThread, digest, hit, max), k);
  }

  /** A record a finished launch leaves below its count is the record of one of its hits, and the
      other way round, when all hits fit in the slots. */
  lemma RecordsAreHits(l: Launch, init: seq<Record>, schedule: seq<nat>, r: Record)
    requires Completes(l, init, schedule) && |Hits(l)| <= l.maxSolutions
    ensures var s := Run(l, Initial(l, init), schedule);
            && s.count <= |s.slots|
            && (r in s.slots[..s.count] <==> exists k :: k in Hits(l) && r == Complete(l, k))
  {
    hide Run, Hits, Complete;
    var s, log := FinishedRun(l, init, schedule);
    if r in s.slots[..s.count] {
      var i: nat :| i < s.count && s.slots[i] == r;
      assert log[i] in log;
    }
    if k: Ticket :| k in Hits(l) && r == Complete(l, k) {
      assert k in log;
      var i: nat :| i < |log| && log[i] == k;
      assert s.slots[i] == r;
    }
  }

  /** Whatever the two interleavings, the one-nonce kernel and the batched kernel leave the same
      records for the requested nonces. */
  lemma KernelsAgree(start: nat, count: nat, threadsA: nat, threadsB: nat, perThread: nat,
                     digest: nat -> Digest, hit: nat -> bool, max: nat,
                     initA: seq<Record>, initB: seq<Record>, scheduleA: seq<nat>, scheduleB: seq<nat>, r: Record)
    requires Serves(start, threadsA, 1, count) && Serves(start, threadsB, perThread, count)
    requires var a := Kernel(start, threadsA, 1, digest, hit, max);
             Completes(a, initA, scheduleA) && |Hits(a)| <= max
    requires var b := Kernel(start, threadsB, perThread, digest, hit, max);
             Completes(b, initB, scheduleB) && |Hits(b)| <= max
    requires Requested(start, count, r.nonce)
    ensures var a := Kernel(start, threadsA, 1, digest, hit, max);
            var b := Kernel(start, threadsB, perThread, digest, hit, max);
            var s, t := Run(a, Initial(a, initA), scheduleA), Run(b, Initial(b, initB), scheduleB);
            && s.count <= |s.slots| && t.count <= |t.slots|
            && (r in s.slots[..s.count] <==> r in t.slots[..t.count])
  {
    hide Run, Serves, NonceOf, Hits;
    var a := Kernel(start, threadsA, 1, digest, hit, max);
    var b := Kernel(start, threadsB, perThread, digest, hit, max);
    RecordsAreHits(a, initA, scheduleA, r);
    RecordsAreHits(b, initB, scheduleB, r);
    if k: Ticket :| k in Hits(a) && r == Complete(a, k) {
      HitsAt(a, k);
      var m := RequestedHitFound(start, threadsB, perThread, count, digest, hit, max, r.nonce);
      assert r == Complete(b, m);
    }
    if k: Ticket :| k in Hits(b) && r == Complete(b, k) {
      HitsAt(b, k);
      var m := RequestedHitFound(start, threadsA, 1, count, digest, hit, max, r.nonce);
      assert r == Complete(a, m);
    }
  }
}
