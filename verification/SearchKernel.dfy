/** The search kernels as a concurrent program.  Every thread walks through its nonces; on a hit it
    takes a slot number from the shared counter with one atomic addition and, when the number is
    below the limit, stores its record into that slot one field at a time.  An interleaving is a
    schedule: the sequence of the threads that take the next step. */
module SearchKernel {
  import opened Arithmetic
  import opened Octets

  /** What a thread computes for one nonce: eight words of mix digest and a 32-byte result. */
  type Digest = d: (seq<Word32>, seq<Octet>) | |d.0| == 8 && |d.1| == 32
    witness (seq(8, _ => 0), seq(32, _ => 0))

  /** A solution slot in device memory. */
  datatype Record = Record(nonce: nat, mix: seq<Word32>, result: seq<Octet>) {
    predicate Shaped() {
      |mix| == 8 && |result| == 32
    }
  }

  datatype Launch = Launch(threads: nat, perThread: nat, nonceOf: (nat, nat) -> nat,
                           digest: nat -> Digest, hit: nat -> bool, maxSolutions: nat)

  /** One nonce of the launch: a thread and an offset into the thread's batch. */
  type Ticket = (nat, nat)

  /** A thread is about to test a nonce, about to take a slot number, about to store field f of its
      record, or finished. */
  datatype Thread = Testing(offset: nat) | Claiming(offset: nat) | Storing(offset: nat, slot: nat, field: nat) | Finished

  datatype State = State(count: nat, slots: seq<Record>, threads: seq<Thread>)

  const FIELDS: nat := 41

  /** The stores of one record: the nonce, the eight mix words, the 32 result bytes. */
  function Store(r: Record, f: nat, nonce: nat, d: Digest): Record
    requires f < FIELDS && r.Shaped()
    ensures Store(r, f, nonce, d).Shaped()
  {
    if f == 0 then r.(nonce := nonce)
    else if f < 9 then r.(mix := r.mix[f - 1 := d.0[f - 1]])
    else r.(result := r.result[f - 9 := d.1[f - 9]])
  }

  /** A slot after the first f stores of a record. */
  function Stored(r: Record, f: nat, nonce: nat, d: Digest): (s: Record)
    requires f <= FIELDS && r.Shaped()
    ensures s.Shaped()
  {
    if f == 0 then r else Store(Stored(r, f - 1, nonce, d), f - 1, nonce, d)
  }

  ghost predicate InRange(l: Launch, th: Thread) {
    match th
    case Testing(o) => o <= l.perThread
    case Claiming(o) => o < l.perThread
    case Storing(o, i, f) => o < l.perThread && i < l.maxSolutions && f < FIELDS
    case Finished => true
  }

  ghost predicate Running(l: Launch, s: State)
  {
    && |s.threads| == l.threads
    && |s.slots| >= l.maxSolutions
    && (forall i | 0 <= i < |s.slots| :: s.slots[i].Shaped())
    && (forall t | 0 <= t < l.threads :: InRange(l, s.threads[t]))
  }

  /** The memory handed to a launch: at least as many slots as the limit. */
  ghost predicate SlotsReady(l: Launch, slots: seq<Record>) {
    |slots| >= l.maxSolutions && forall i | 0 <= i < |slots| :: slots[i].Shaped()
  }

  function Initial(l: Launch, slots: seq<Record>): (s: State)
    requires SlotsReady(l, slots)
    ensures Running(l, s)
  {
    State(0, slots, seq(l.threads, _ => Testing(0)))
  }

  /** One step of thread t. */
  function Step(l: Launch, s: State, t: nat): State
    requires Running(l, s) && t < l.threads
    ensures Running(l, Step(l, s, t))
  {
    match s.threads[t]
    case Testing(o) =>
      if o == l.perThread then s.(threads := s.threads[t := Finished])
      else if l.hit(l.nonceOf(t, o)) then s.(threads := s.threads[t := Claiming(o)])
      else s.(threads := s.threads[t := Testing(o + 1)])
    case Claiming(o) =>
      var next := if s.count < l.maxSolutions then Storing(o, s.count, 0) else Testing(o + 1);
      State((s.count + 1) % U32, s.slots, s.threads[t := next])
    case Storing(o, i, f) =>
      var n := l.nonceOf(t, o);
      var next := if f + 1 < FIELDS then Storing(o, i, f + 1) else Testing(o + 1);
      State(s.count, s.slots[i := Store(s.slots[i], f, n, l.digest(n))], s.threads[t := next])
    case Finished => s
  }

  /** The state an interleaving reaches. */
  function Run(l: Launch, s: State, schedule: seq<nat>): State
    requires Running(l, s) && forall k | 0 <= k < |schedule| :: schedule[k] < l.threads
    ensures Running(l, Run(l, s, schedule))
  {
    if schedule == [] then s else
      var n := |schedule| - 1;
      Step(l, Run(l, s, schedule[..n]), schedule[n])
  }

  /** The nonces whose threads have taken a slot number, in the order they took it. */
  function Claims(l: Launch, s: State, schedule: seq<nat>): seq<Ticket>
    requires Running(l, s) && forall k | 0 <= k < |schedule| :: schedule[k] < l.threads
  {
    if schedule == [] then [] else
      var n := |schedule| - 1;
      var before := Run(l, s, schedule[..n]);
      var t := schedule[n];
      Claims(l, s, schedule[..n]) + match before.threads[t] case Claiming(o) => [(t, o)] case _ => []
  }

  /** The hits of a launch. */
  ghost predicate IsHit(l: Launch, k: Ticket) {
    k.0 < l.threads && k.1 < l.perThread && l.hit(l.nonceOf(k.0, k.1))
  }

  function Hits(l: Launch): set<Ticket> {
    set t, o | 0 <= t < l.threads && 0 <= o < l.perThread && l.hit(l.nonceOf(t, o)) :: (t, o)
  }

  // ---------------------------------------------------------------- the invariant of every interleaving

  /** A thread has taken a slot number for its offset o, if that nonce was a hit. */
  ghost predicate Passed(th: Thread, o: nat) {
    match th
    case Testing(p) => o < p
    case Claiming(p) => o < p
    case Storing(p, _, _) => o <= p
    case Finished => true
  }

  /** How many stores into slot i its owner has made. */
  function Progress(th: Thread, i: nat): nat {
    match th
    case Storing(_, j, f) => if i == j then f else FIELDS
    case _ => FIELDS
  }

  ghost predicate Distinct(log: seq<Ticket>) {
    forall i, j | 0 <= i < j < |log| :: log[i] != log[j]
  }

  ghost predicate LogSound(l: Launch, log: seq<Ticket>) {
    Distinct(log) && forall i | 0 <= i < |log| :: IsHit(l, log[i])
  }

  ghost predicate LogComplete(l: Launch, s: State, log: seq<Ticket>)
    requires |s.threads| == l.threads
  {
    forall t: nat, o: nat | IsHit(l, (t, o)) :: (t, o) in log <==> Passed(s.threads[t], o)
  }

  ghost predicate ThreadMatches(l: Launch, t: nat, th: Thread, log: seq<Ticket>) {
    match th
    case Claiming(o) => IsHit(l, (t, o))
    case Storing(o, i, _) => i < |log| && log[i] == (t, o)
    case _ => true
  }

  ghost predicate ThreadsMatch(l: Launch, s: State, log: seq<Ticket>)
    requires |s.threads| == l.threads
  {
    forall t | 0 <= t < l.threads :: ThreadMatches(l, t, s.threads[t], log)
  }

  /** What slot i holds: its old contents overwritten by the stores its owner has made so far. */
  function Expected(l: Launch, init: seq<Record>, s: State, log: seq<Ticket>, i: nat): Record
    requires i < |init| && init[i].Shaped()
    requires |s.threads| == l.threads
    requires forall k | 0 <= k < |log| :: log[k].0 < l.threads
  {
    if i < |log| && i < l.maxSolutions then
      var (t, o) := log[i];
      var f := Progress(s.threads[t], i);
      Stored(init[i], if f <= FIELDS then f else FIELDS, l.nonceOf(t, o), l.digest(l.nonceOf(t, o)))
    else
      init[i]
  }

  ghost predicate Inv(l: Launch, init: seq<Record>, s: State, log: seq<Ticket>)
    requires forall i | 0 <= i < |init| :: init[i].Shaped()
  {
    && Running(l, s)
    && |s.slots| == |init|
    && s.count == |log|
    && LogSound(l, log)
    && LogComplete(l, s, log)
    && ThreadsMatch(l, s, log)
    && (forall i | 0 <= i < |init| :: s.slots[i] == Expected(l, init, s, log, i))
  }

  lemma HitsAt(l: Launch, k: Ticket)
    ensures k in Hits(l) <==> IsHit(l, k)
  {
  }

  lemma {:induction false} DistinctCount(log: seq<Ticket>, s: set<Ticket>)
    requires Distinct(log) && forall i | 0 <= i < |log| :: log[i] in s
    ensures |log| <= |s|
    ensures (forall k | k in s :: k in log) ==> |log| == |s|
    decreases |log|
  {
    if log != [] {
      var n := |log| - 1;
      var rest := s - {log[n]};
      assert forall k | k in s && k in log :: k == log[n] || k in log[..n];
      DistinctCount(log[..n], rest);
    }
  }

  /** There is room in the 32-bit counter for one more hit. */
  lemma RoomForHit(l: Launch, log: seq<Ticket>, k: Ticket)
    requires LogSound(l, log) && IsHit(l, k) && k !in log
    ensures |log| + 1 <= |Hits(l)|
    ensures LogSound(l, log + [k])
  {
    var more := log + [k];
    forall i | 0 <= i < |more|
      ensures more[i] in Hits(l)
    {
      HitsAt(l, more[i]);
    }
    DistinctCount(more, Hits(l));
  }

  lemma InvInitial(l: Launch, init: seq<Record>)
    requires SlotsReady(l, init)
    ensures Inv(l, init, Initial(l, init), [])
  {
  }

  lemma InvTesting(l: Launch, init: seq<Record>, s: State, log: seq<Ticket>, t: nat)
    requires forall i | 0 <= i < |init| :: init[i].Shaped()
    requires Inv(l, init, s, log) && t < l.threads && s.threads[t].Testing?
    ensures Inv(l, init, Step(l, s, t), log)
  {
    hide Stored;
  }

  lemma InvClaiming(l: Launch, init: seq<Record>, s: State, log: seq<Ticket>, t: nat)
    requires forall i | 0 <= i < |init| :: init[i].Shaped()
    requires Inv(l, init, s, log) && t < l.threads && s.threads[t].Claiming?
    requires |Hits(l)| < U32
    ensures Inv(l, init, Step(l, s, t), log + [(t, s.threads[t].offset)])
  {
    RoomForHit(l, log, (t, s.threads[t].offset));
  }

  lemma InvStoring(l: Launch, init: seq<Record>, s: State, log: seq<Ticket>, t: nat)
    requires forall i | 0 <= i < |init| :: init[i].Shaped()
    requires Inv(l, init, s, log) && t < l.threads && s.threads[t].Storing?
    ensures Inv(l, init, Step(l, s, t), log)
  {
  }

  ghost predicate Schedule(l: Launch, schedule: seq<nat>) {
    forall k | 0 <= k < |schedule| :: schedule[k] < l.threads
  }

  ghost predicate Launchable(l: Launch, init: seq<Record>) {
    SlotsReady(l, init) && |Hits(l)| < U32
  }

  /** The tickets of one thread, and of all threads below n. */
  function Row(t: nat, m: nat): set<Ticket> {
    if m == 0 then {} else Row(t, m - 1) + {(t, m - 1)}
  }

  function Grid(n: nat, m: nat): set<Ticket> {
    if n == 0 then {} else Grid(n - 1, m) + Row(n - 1, m)
  }

  lemma {:induction false} RowHolds(t: nat, m: nat, k: Ticket)
    ensures k in Row(t, m) <==> k.0 == t && k.1 < m
  {
    if m > 0 {
      RowHolds(t, m - 1, k);
    }
  }

  lemma {:induction false} RowSize(t: nat, m: nat)
    ensures |Row(t, m)| <= m
  {
    if m > 0 {
      RowSize(t, m - 1);
    }
  }

  lemma {:induction false} GridHolds(n: nat, m: nat, k: Ticket)
    ensures k in Grid(n, m) <==> k.0 < n && k.1 < m
  {
    if n > 0 {
      GridHolds(n - 1, m, k);
      RowHolds(n - 1, m, k);
    }
  }

  lemma {:induction false} GridSize(n: nat, m: nat)
    ensures |Grid(n, m)| <= n * m
  {
    if n > 0 {
      GridSize(n - 1, m);
      RowSize(n - 1, m);
      NextMultiple(n - 1, m);
    }
  }

  lemma {:induction false} SubsetSize(a: set<Ticket>, b: set<Ticket>)
    requires a <= b
    ensures |a| <= |b|
    decreases a
  {
    if k: Ticket :| k in a {
      SubsetSize(a - {k}, b - {k});
    }
  }

  /** A launch on fewer than 2^32 nonces can have no more hits than its counter can hold. */
  lemma GridFitsCounter(l: Launch)
    requires l.threads * l.perThread < U32
    ensures |Hits(l)| < U32
  {
    hide Hits, Grid;
    GridSize(l.threads, l.perThread);
    forall k: Ticket | k in Hits(l)
      ensures k in Grid(l.threads, l.perThread)
    {
      HitsAt(l, k);
      GridHolds(l.threads, l.perThread, k);
    }
    SubsetSize(Hits(l), Grid(l.threads, l.perThread));
  }

  lemma InvStep(l: Launch, init: seq<Record>, s: State, log: seq<Ticket>, t: nat)
    requires Launchable(l, init) && Inv(l, init, s, log) && t < l.threads
    ensures Inv(l, init, Step(l, s, t), log + match s.threads[t] case Claiming(o) => [(t, o)] case _ => [])
  {
    hide Expected, Hits;
    assert log + [] == log;
    match s.threads[t]
    case Testing(_) => InvTesting(l, init, s, log, t);
    case Claiming(_) => InvClaiming(l, init, s, log, t);
    case Storing(_, _, _) => InvStoring(l, init, s, log, t);
    case Finished =>
  }

  /** The invariant holds after every interleaving, with the log of the slot numbers taken. */
  lemma {:induction false} InvRun(l: Launch, init: seq<Record>, schedule: seq<nat>)
    requires Launchable(l, init) && Schedule(l, schedule)
    ensures Inv(l, init, Run(l, Initial(l, init), schedule), Claims(l, Initial(l, init), schedule))
    decreases |schedule|
  {
    var s := Initial(l, init);
    InvInitial(l, init);
    if schedule != [] {
      hide Inv, Step, Initial, Hits;
      var n := |schedule| - 1;
      InvRun(l, init, schedule[..n]);
      InvStep(l, init, Run(l, s, schedule[..n]), Claims(l, s, schedule[..n]), schedule[n]);
    }
  }

  /** An interleaving of a whole launch, at whose end every thread has finished. */
  ghost predicate Completes(l: Launch, init: seq<Record>, schedule: seq<nat>) {
    && Launchable(l, init) && Schedule(l, schedule)
    && forall t | 0 <= t < l.threads :: Run(l, Initial(l, init), schedule).threads[t].Finished?
  }

  lemma {:induction false} AllFieldsStored(r: Record, f: nat, nonce: nat, d: Digest)
    requires f <= FIELDS && r.Shaped()
    ensures var s := Stored(r, f, nonce, d);
            && s.nonce == (if 0 < f then nonce else r.nonce)
            && (forall k | 0 <= k < 8 :: s.mix[k] == if k + 1 < f then d.0[k] else r.mix[k])
            && (forall k | 0 <= k < 32 :: s.result[k] == if k + 9 < f then d.1[k] else r.result[k])
  {
    if f > 0 {
      AllFieldsStored(r, f - 1, nonce, d);
    }
  }

  /** The record a finished store sequence leaves, whatever the slot held before. */
  function Complete(l: Launch, k: Ticket): Record {
    var n := l.nonceOf(k.0, k.1);
    Record(n, l.digest(n).0, l.digest(n).1)
  }

  /** When all threads have finished, the log is complete: it lists exactly the hits. */
  lemma LogIsHits(l: Launch, s: State, log: seq<Ticket>)
    requires |s.threads| == l.threads && LogSound(l, log) && LogComplete(l, s, log)
    requires forall t | 0 <= t < l.threads :: s.threads[t].Finished?
    ensures forall k :: k in log <==> k in Hits(l)
    ensures |log| == |Hits(l)|
  {
    hide Hits;
    forall k: Ticket
      ensures k in log <==> k in Hits(l)
    {
      HitsAt(l, k);
      if IsHit(l, k) {
        assert k == (k.0, k.1);
        assert Passed(s.threads[k.0], k.1);
      }
    }
    DistinctCount(log, Hits(l));
  }

  /** And every slot below count and limit is complete. */
  lemma SlotIsComplete(l: Launch, init: seq<Record>, s: State, log: seq<Ticket>, i: nat)
    requires |s.threads| == l.threads && LogSound(l, log) && i < |init| && init[i].Shaped()
    requires forall t | 0 <= t < l.threads :: s.threads[t].Finished?
    ensures Expected(l, init, s, log, i) == if i < |log| && i < l.maxSolutions then Complete(l, log[i]) else init[i]
  {
    hide Stored, Distinct;
    if i < |log| && i < l.maxSolutions {
      var n := l.nonceOf(log[i].0, log[i].1);
      AllFieldsStored(init[i], FIELDS, n, l.digest(n));
    }
  }

  /** When every thread has finished, under any interleaving: the counter is the number of hits, the
      log lists every hit exactly once, slot i below the count and the limit holds the complete
      record of the i-th logged hit, and every other slot is as it was. */
  lemma FinishedRun(l: Launch, init: seq<Record>, schedule: seq<nat>)
    returns (s: State, log: seq<Ticket>)
    requires Completes(l, init, schedule)
    ensures s == Run(l, Initial(l, init), schedule)
    ensures s.count == |log| == |Hits(l)|
    ensures Distinct(log) && forall k :: k in log <==> k in Hits(l)
    ensures |s.slots| == |init|
    ensures forall i | 0 <= i < |init| ::
              s.slots[i] == if i < |log| && i < l.maxSolutions then Complete(l, log[i]) else init[i]
  {
    hide Run, Claims, Hits, Expected, LogComplete, ThreadsMatch;
    s := Run(l, Initial(l, init), schedule);
    log := Claims(l, Initial(l, init), schedule);
    InvRun(l, init, schedule);
    LogIsHits(l, s, log);
    forall i | 0 <= i < |init|
      ensures s.slots[i] == if i < |log| && i < l.maxSolutions then Complete(l, log[i]) else init[i]
    {
      SlotIsComplete(l, init, s, log, i);
    }
  }

  /** At every moment of every interleaving the slots at or above the limit are untouched. */
  lemma LimitRespected(l: Launch, init: seq<Record>, schedule: seq<nat>, i: nat)
    requires Launchable(l, init) && Schedule(l, schedule)
    requires l.maxSolutions <= i < |init|
    ensures i < |Run(l, Initial(l, init), schedule).slots|
    ensures Run(l, Initial(l, init), schedule).slots[i] == init[i]
  {
    hide Run, Claims, Running;
    InvRun(l, init, schedule);
  }

  lemma {:induction false} ClaimsGrow(l: Launch, s: State, first: seq<nat>, more: seq<nat>)
    requires Running(l, s) && Schedule(l, first) && Schedule(l, first + more)
    ensures Claims(l, s, first) <= Claims(l, s, first + more)
    decreases |more|
  {
    if more == [] {
      assert first + more == first;
    } else {
      var n := |more| - 1;
      assert (first + more)[..|first + more| - 1] == first + more[..n];
      ClaimsGrow(l, s, first, more[..n]);
    }
  }

  /** No slot is written by two threads: two stores into one slot, at any two moments of one
      interleaving, belong to the same thread and the same nonce. */
  lemma OneWriterPerSlot(l: Launch, init: seq<Record>, first: seq<nat>, more: seq<nat>, t: nat, u: nat)
    requires Launchable(l, init)
    requires Schedule(l, first) && Schedule(l, first + more) && t < l.threads && u < l.threads
    requires var a := Run(l, Initial(l, init), first).threads[t];
             var b := Run(l, Initial(l, init), first + more).threads[u];
             a.Storing? && b.Storing? && a.slot == b.slot
    ensures t == u
    ensures Run(l, Initial(l, init), first).threads[t].offset == Run(l, Initial(l, init), first + more).threads[u].offset
  {
    hide Run, Claims, Expected, Initial, LogComplete, LogSound;
    InvRun(l, init, first);
    InvRun(l, init, first + more);
    ClaimsGrow(l, Initial(l, init), first, more);
    var a, b := Run(l, Initial(l, init), first), Run(l, Initial(l, init), first + more);
    assert ThreadMatches(l, t, a.threads[t], Claims(l, Initial(l, init), first));
    assert ThreadMatches(l, u, b.threads[u], Claims(l, Initial(l, init), first + more));
  }
}
