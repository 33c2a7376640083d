/** The N-stream search pipeline.  The host calls one tick after another; between and during ticks
    the device executes the commands queued on each stream, in order, whenever it likes.  Copies read
    their host buffer when they execute, not when they are queued. */
module Pipeline {
  import opened Arithmetic
  import SearchKernel

  type Buffer = seq<nat>

  /** A solution record as it lies in a slot. */
  type Record = SearchKernel.Record

  /** What a kernel launch computes on; the tag tells apart launches on equal inputs, whose threads
      may be interleaved differently. */
  datatype Job = Job(header: Buffer, seed: Buffer, target: Buffer, startNonce: nat, count: nat, tag: nat)

  datatype Work = Work(header: Buffer, seed: Buffer, target: Buffer, startNonce: nat, count: nat, dagLoaded: bool)

  /** The hits of a kernel run, which its 32-bit counter can hold, and the records of those that find
      a slot when the counter starts at zero, in the order of their slot numbers. */
  datatype Outcome = Outcome(hits: nat, records: seq<Record>)

  /** The device: what each launch finds, for a limit of max solutions. */
  datatype Device = Device(search: Job -> Outcome, max: nat) {
    ghost predicate Valid() {
      0 < max <= 16 && forall j: Job :: search(j).hits < U32 && |search(j).records| == Min(search(j).hits, max)
    }
  }

  datatype Mark = Start | Stop | Done

  datatype Command =
    | UploadHeader | UploadSeed | UploadTarget | ClearCount
    | Search(startNonce: nat, count: nat, tag: nat)
    | Event(mark: Mark)
    | DownloadCount | DownloadSlots

  datatype Stream = Stream(
    hHeader: Buffer, hSeed: Buffer, hTarget: Buffer, hCount: nat, hSlots: seq<Record>,
    dHeader: Buffer, dSeed: Buffer, dTarget: Buffer, dCount: nat, dSlots: seq<Record>,
    queue: seq<Command>)

  function Min(a: nat, b: nat): nat {
    if a <= b then a else b
  }

  /** The slots after records have been stored from slot `from` on, as far as the limit allows. */
  function StoreFrom(slots: seq<Record>, from: nat, records: seq<Record>, max: nat): (r: seq<Record>)
    requires max <= |slots|
    ensures |r| == |slots|
  {
    if max <= from then slots else
      var k := Min(|records|, max - from);
      slots[..from] + records[..k] + slots[from + k..]
  }

  ghost predicate StreamShape(dev: Device, st: Stream) {
    dev.Valid() && |st.hSlots| == 16 && |st.dSlots| == 16
  }

  /** The device executes the first queued command. */
  function Execute(dev: Device, st: Stream): (r: Stream)
    requires StreamShape(dev, st) && st.queue != []
    ensures StreamShape(dev, r) && r.queue == st.queue[1..]
  {
    var rest := st.queue[1..];
    match st.queue[0]
    case UploadHeader => st.(dHeader := st.hHeader, queue := rest)
    case UploadSeed => st.(dSeed := st.hSeed, queue := rest)
    case UploadTarget => st.(dTarget := st.hTarget, queue := rest)
    case ClearCount => st.(dCount := 0, queue := rest)
    case Search(s, c, t) =>
      var o := dev.search(Job(st.dHeader, st.dSeed, st.dTarget, s, c, t));
      st.(dCount := (st.dCount + o.hits) % U32, dSlots := StoreFrom(st.dSlots, st.dCount, o.records, dev.max),
          queue := rest)
    case Event(_) => st.(queue := rest)
    case DownloadCount => st.(hCount := st.dCount, queue := rest)
    case DownloadSlots => st.(hSlots := st.dSlots[..dev.max] + st.hSlots[dev.max..], queue := rest)
  }

  /** Waiting for a stream: everything queued is executed. */
  function Synchronize(dev: Device, st: Stream): (r: Stream)
    requires StreamShape(dev, st)
    ensures StreamShape(dev, r) && r.queue == []
    decreases |st.queue|
  {
    if st.queue == [] then st else Synchronize(dev, Execute(dev, st))
  }

  /** The completion event has not been recorded, or its record has been executed. */
  predicate Ready(st: Stream) {
    Event(Done) !in st.queue
  }

  function Collect(dev: Device, st: Stream): (r: Stream)
    requires StreamShape(dev, st)
    ensures StreamShape(dev, r)
  {
    Synchronize(dev, st.(queue := st.queue + [DownloadCount, DownloadSlots]))
  }

  function Stage(st: Stream, w: Work): Stream {
    st.(hHeader := w.header, hSeed := w.seed, hTarget := w.target, hCount := 0,
        queue := st.queue + [UploadHeader, UploadSeed, UploadTarget, ClearCount])
  }

  function Launch(st: Stream, w: Work, tag: nat): Stream {
    var search := if w.dagLoaded then [Search(w.startNonce, w.count, tag)] else [];
    st.(queue := st.queue + [Event(Start)] + search + [Event(Stop), Event(Done)])
  }

  /** The pipeline and the executor's accounting.  The number of launches so far tags the next one. */
  datatype State = State(streams: seq<Stream>, idx: nat, pending: seq<nat>, totalHashes: nat, launches: nat)

  ghost predicate Shape(dev: Device, p: State) {
    && 2 <= |p.streams| <= 8
    && p.idx < |p.streams|
    && (forall i | 0 <= i < |p.streams| :: StreamShape(dev, p.streams[i]))
  }

  /** The counts per stream, cleared when their number is not the number of streams. */
  function Counts(p: State): (c: seq<nat>)
    ensures |c| == |p.streams|
  {
    if |p.pending| == |p.streams| then p.pending else seq(|p.streams|, _ => 0)
  }

  function Advance(p: State): State
    requires |p.streams| > 0
  {
    p.(idx := (p.idx + 1) % |p.streams|)
  }

  /** One tick: poll the current stream; when its batch has completed, collect and credit it, then
      stage and launch the new work on it; in either case go on to the next stream. */
  function Tick(dev: Device, p: State, w: Work): (r: (State, seq<Record>))
    requires Shape(dev, p)
    ensures Shape(dev, r.0)
  {
    var i := p.idx;
    var counts := Counts(p);
    if !Ready(p.streams[i]) then
      (Advance(p.(pending := counts)), [])
    else
      var st := Collect(dev, p.streams[i]);
      var launched := Launch(Stage(st, w), w, p.launches);
      (Advance(State(p.streams[i := launched], i, counts[i := w.count],
                     (p.totalHashes + counts[i]) % U64, p.launches + 1)),
       st.hSlots[..Min(st.hCount, dev.max)])
  }

  lemma BusyTick(dev: Device, p: State, w: Work)
    requires Shape(dev, p) && !Ready(p.streams[p.idx])
    ensures Tick(dev, p, w) == (Advance(p.(pending := Counts(p))), [])
  {
  }

  lemma ReadyTick(dev: Device, p: State, w: Work)
    requires Shape(dev, p) && Ready(p.streams[p.idx])
    ensures var i, st := p.idx, Collect(dev, p.streams[p.idx]);
            Tick(dev, p, w)
            == (Advance(State(p.streams[i := Launch(Stage(st, w), w, p.launches)], i, Counts(p)[i := w.count],
                              (p.totalHashes + Counts(p)[i]) % U64, p.launches + 1)),
                st.hSlots[..Min(st.hCount, dev.max)])
  {
    hide Collect, Stage, Launch, Ready, Counts;
  }

  /** The device executes one command of stream i, if there is one. */
  function DeviceStep(dev: Device, p: State, i: nat): (r: State)
    requires Shape(dev, p)
    ensures Shape(dev, r)
  {
    if i < |p.streams| && p.streams[i].queue != [] then
      p.(streams := p.streams[i := Execute(dev, p.streams[i])])
    else p
  }

  // ---------------------------------------------------------------- runs, and what they have done

  datatype Action = HostTick(work: Work) | DeviceRuns(stream: nat)

  /** A launched batch. */
  datatype Batch = Batch(job: Job, loaded: bool)

  /** The records a batch finds; a launch without a DAG runs no kernel. */
  function Found(dev: Device, b: Batch): seq<Record> {
    if b.loaded then dev.search(b.job).records else []
  }

  function BatchOf(w: Work, tag: nat): Batch {
    Batch(Job(w.header, w.seed, w.target, w.startNonce, w.count, tag), w.dagLoaded)
  }

  /** A state with its past: the batches launched on each stream, what each launching tick returned,
      and the sum of all counts launched. */
  datatype Trace = Trace(state: State, batches: seq<seq<Batch>>, returned: seq<seq<seq<Record>>>, total: nat)

  ghost predicate TraceShape(dev: Device, t: Trace) {
    Shape(dev, t.state) && |t.batches| == |t.returned| == |t.state.streams|
  }

  function Act(dev: Device, t: Trace, a: Action): (r: Trace)
    requires TraceShape(dev, t)
    ensures TraceShape(dev, r)
  {
    match a
    case DeviceRuns(i) => t.(state := DeviceStep(dev, t.state, i))
    case HostTick(w) =>
      var i := t.state.idx;
      var (p, out) := Tick(dev, t.state, w);
      if Ready(t.state.streams[i]) then
        Trace(p, t.batches[i := t.batches[i] + [BatchOf(w, t.state.launches)]],
              t.returned[i := t.returned[i] + [out]], t.total + w.count)
      else
        t.(state := p)
  }

  function Run(dev: Device, t: Trace, actions: seq<Action>): (r: Trace)
    requires TraceShape(dev, t)
    ensures TraceShape(dev, r)
  {
    if actions == [] then t else Act(dev, Run(dev, t, actions[..|actions| - 1]), actions[|actions| - 1])
  }

  /** A freshly initialised pipeline: nothing queued, no counts recorded; the buffers hold anything. */
  ghost predicate Fresh(dev: Device, t: Trace) {
    && TraceShape(dev, t)
    && t.state.idx == 0 && t.state.pending == [] && t.total == 0
    && (forall i | 0 <= i < |t.batches| :: t.batches[i] == [] && t.returned[i] == [] && t.state.streams[i].queue == [])
  }

  /** The commands a tick queues for a batch. */
  function Program(b: Batch): seq<Command> {
    [UploadHeader, UploadSeed, UploadTarget, ClearCount, Event(Start)]
    + (if b.loaded then [Search(b.job.startNonce, b.job.count, b.job.tag)] else [])
    + [Event(Stop), Event(Done)]
  }

  /** The stream is executing batch b and has executed the first n commands of its program: the host
      buffers hold the batch's inputs, and so do the device buffers already uploaded to. */
  ghost predicate Executing(dev: Device, st: Stream, b: Batch, n: nat) {
    && n <= |Program(b)| && st.queue == Program(b)[n..]
    && st.hHeader == b.job.header && st.hSeed == b.job.seed && st.hTarget == b.job.target
    && (1 <= n ==> st.dHeader == b.job.header)
    && (2 <= n ==> st.dSeed == b.job.seed)
    && (3 <= n ==> st.dTarget == b.job.target)
    && (4 <= n && (n < 6 || !b.loaded) ==> st.dCount == 0)
    && (6 <= n && b.loaded ==>
          var o := dev.search(b.job);
          st.dCount == o.hits && |o.records| <= |st.dSlots| && st.dSlots[..|o.records|] == o.records)
  }

  function Last(bs: seq<Batch>): Batch
    requires bs != []
  {
    bs[|bs| - 1]
  }

  ghost predicate StreamInv(dev: Device, st: Stream, bs: seq<Batch>) {
    && StreamShape(dev, st)
    && (bs == [] ==> st.queue == [])
    && (bs != [] ==> exists n: nat :: Executing(dev, st, Last(bs), n))
  }

  lemma ExecuteKeeps(dev: Device, st: Stream, b: Batch, n: nat)
    requires StreamShape(dev, st) && Executing(dev, st, b, n) && st.queue != []
    ensures Executing(dev, Execute(dev, st), b, n + 1)
  {
    assert st.queue[0] == Program(b)[n];
    assert Execute(dev, st).queue == Program(b)[n + 1..];
  }

  lemma CompletionComesLast(dev: Device, st: Stream, b: Batch, n: nat)
    requires Executing(dev, st, b, n)
    ensures st.queue != [] ==> !Ready(st)
  {
    if st.queue != [] {
      assert st.queue[|st.queue| - 1] == Event(Done);
    }
  }

  /** A stream whose event is ready has nothing left to execute. */
  lemma ReadyIsIdle(dev: Device, st: Stream, bs: seq<Batch>)
    requires StreamInv(dev, st, bs) && Ready(st)
    ensures st.queue == []
  {
    if bs != [] {
      var n: nat :| Executing(dev, st, Last(bs), n);
      CompletionComesLast(dev, st, Last(bs), n);
    }
  }

  /** What collecting from an idle stream reads. */
  lemma CollectIdle(dev: Device, st: Stream)
    requires StreamShape(dev, st) && st.queue == []
    ensures var c := Collect(dev, st);
            && c == st.(hCount := st.dCount, hSlots := st.dSlots[..dev.max] + st.hSlots[dev.max..])
  {
    var s0 := st.(queue := [DownloadCount, DownloadSlots]);
    assert st.queue + [DownloadCount, DownloadSlots] == s0.queue;
    var s1 := Execute(dev, s0);
    assert s1.queue == [DownloadSlots];
    var s2 := Execute(dev, s1);
    assert s2.queue == [];
    assert Synchronize(dev, s1) == Synchronize(dev, s2) == s2;
  }

  /** A completed batch is read back as exactly the records it found. */
  lemma CollectedRecords(dev: Device, st: Stream, bs: seq<Batch>)
    requires StreamInv(dev, st, bs) && Ready(st) && bs != []
    ensures var c := Collect(dev, st);
            c.hSlots[..Min(c.hCount, dev.max)] == Found(dev, Last(bs))
  {
    ReadyIsIdle(dev, st, bs);
    CollectIdle(dev, st);
    var b := Last(bs);
    var n: nat :| Executing(dev, st, b, n);
    assert n == |Program(b)|;
  }

  lemma LaunchedStream(dev: Device, st: Stream, w: Work, tag: nat, bs: seq<Batch>)
    requires StreamShape(dev, st) && st.queue == []
    ensures StreamInv(dev, Launch(Stage(st, w), w, tag), bs + [BatchOf(w, tag)])
  {
    var l := Launch(Stage(st, w), w, tag);
    assert l.queue == Program(BatchOf(w, tag));
    assert Executing(dev, l, BatchOf(w, tag), 0);
    assert Last(bs + [BatchOf(w, tag)]) == BatchOf(w, tag);
  }

  // ---------------------------------------------------------------- what every run keeps

  function Sum(c: seq<nat>): nat {
    if c == [] then 0 else Sum(c[..|c| - 1]) + c[|c| - 1]
  }

  lemma {:induction false} SumUpdate(c: seq<nat>, i: nat, v: nat)
    requires i < |c|
    ensures Sum(c[i := v]) == Sum(c) - c[i] + v
    decreases |c|
  {
    var n := |c| - 1;
    if i == n {
      assert c[i := v][..n] == c[..n];
    } else {
      assert c[i := v][..n] == c[..n][i := v];
      SumUpdate(c[..n], i, v);
    }
  }

  lemma {:induction false} SumZeros(n: nat)
    ensures Sum(seq(n, _ => 0)) == 0
  {
    if n > 0 {
      var c: seq<nat> := seq(n, _ => 0);
      assert c[..n - 1] == seq(n - 1, _ => 0);
      SumZeros(n - 1);
    }
  }

  /** The count a stream still has to be credited for. */
  ghost predicate PendingMatches(t: Trace) {
    && (|t.state.pending| == 0 || |t.state.pending| == |t.batches|)
    && (|t.state.pending| == 0 ==> forall i | 0 <= i < |t.batches| :: t.batches[i] == [])
    && (forall i | 0 <= i < |t.state.pending| && i < |t.batches| ::
          t.state.pending[i] == if t.batches[i] == [] then 0 else Last(t.batches[i]).job.count)
  }

  /** Every launching tick but a stream's first returns the records of the batch launched before. */
  ghost predicate ReturnsMatch(dev: Device, bs: seq<Batch>, outs: seq<seq<Record>>) {
    |outs| == |bs| && forall k | 1 <= k < |bs| :: outs[k] == Found(dev, bs[k - 1])
  }

  ghost predicate Inv(dev: Device, t: Trace, initial: nat) {
    && TraceShape(dev, t)
    && PendingMatches(t)
    && (forall i | 0 <= i < |t.batches| :: StreamInv(dev, t.state.streams[i], t.batches[i]))
    && (forall i | 0 <= i < |t.batches| :: ReturnsMatch(dev, t.batches[i], t.returned[i]))
    && (t.state.totalHashes + Sum(t.state.pending)) % U64 == (initial + t.total) % U64
  }

  lemma InvDevice(dev: Device, t: Trace, initial: nat, i: nat)
    requires Inv(dev, t, initial)
    ensures Inv(dev, Act(dev, t, DeviceRuns(i)), initial)
  {
    hide Execute, Ready, Sum, Found;
    if i < |t.batches| && t.state.streams[i].queue != [] {
      var n: nat :| Executing(dev, t.state.streams[i], Last(t.batches[i]), n);
      ExecuteKeeps(dev, t.state.streams[i], Last(t.batches[i]), n);
    }
  }

  lemma CountsMatch(t: Trace, dev: Device)
    requires TraceShape(dev, t) && PendingMatches(t)
    ensures Sum(Counts(t.state)) == Sum(t.state.pending)
    ensures forall i | 0 <= i < |t.batches| ::
              Counts(t.state)[i] == if t.batches[i] == [] then 0 else Last(t.batches[i]).job.count
  {
    SumZeros(|t.batches|);
  }

  lemma Recredit(total: nat, rest: int, credit: nat, initial: nat, launched: nat, count: nat)
    requires (total + rest) % U64 == (initial + launched) % U64
    ensures ((total + credit) % U64 + (rest - credit + count)) % U64 == (initial + (launched + count)) % U64
  {
    AddModulo(total + rest, initial + launched, count, U64);
    ReduceModulo(total + credit, rest - credit + count, U64);
  }

  lemma InvBusyTick(dev: Device, t: Trace, initial: nat, w: Work)
    requires Inv(dev, t, initial) && !Ready(t.state.streams[t.state.idx])
    ensures Inv(dev, Act(dev, t, HostTick(w)), initial)
  {
    hide Ready, Sum, Found, StreamInv, Counts;
    CountsMatch(t, dev);
  }

  /** The hash total and the pending counts after a launching tick. */
  lemma ReadyTickCounts(dev: Device, t: Trace, initial: nat, w: Work)
    requires Inv(dev, t, initial) && Ready(t.state.streams[t.state.idx])
    ensures var r := Act(dev, t, HostTick(w));
            && PendingMatches(r)
            && (r.state.totalHashes + Sum(r.state.pending)) % U64 == (initial + r.total) % U64
  {
    hide Ready, Sum, Found, StreamInv, Counts, Stage, Launch, Collect, ReturnsMatch;
    var i := t.state.idx;
    CountsMatch(t, dev);
    SumUpdate(Counts(t.state), i, w.count);
    Recredit(t.state.totalHashes, Sum(Counts(t.state)), Counts(t.state)[i], initial, t.total, w.count);
    assert Last(t.batches[i] + [BatchOf(w, t.state.launches)]) == BatchOf(w, t.state.launches);
  }

  /** The stream and the log of what it returned after a launching tick. */
  lemma ReadyTickStream(dev: Device, t: Trace, initial: nat, w: Work)
    requires Inv(dev, t, initial) && Ready(t.state.streams[t.state.idx])
    ensures var r, i := Act(dev, t, HostTick(w)), t.state.idx;
            StreamInv(dev, r.state.streams[i], r.batches[i]) && ReturnsMatch(dev, r.batches[i], r.returned[i])
  {
    hide Ready, Sum, Found, StreamInv, Counts, Stage, Launch, Collect, PendingMatches;
    var i := t.state.idx;
    var st, bs := t.state.streams[i], t.batches[i];
    ReadyIsIdle(dev, st, bs);
    CollectIdle(dev, st);
    LaunchedStream(dev, Collect(dev, st), w, t.state.launches, bs);
    if bs != [] {
      CollectedRecords(dev, st, bs);
    }
  }

  lemma InvReadyTick(dev: Device, t: Trace, initial: nat, w: Work)
    requires Inv(dev, t, initial) && Ready(t.state.streams[t.state.idx])
    ensures Inv(dev, Act(dev, t, HostTick(w)), initial)
  {
    hide Sum, Found, StreamInv, Counts, Stage, Launch, Collect, ReturnsMatch, PendingMatches, Ready;
    ReadyTickCounts(dev, t, initial, w);
    ReadyTickStream(dev, t, initial, w);
  }

  lemma InvTick(dev: Device, t: Trace, initial: nat, w: Work)
    requires Inv(dev, t, initial)
    ensures Inv(dev, Act(dev, t, HostTick(w)), initial)
  {
    hide Act, PendingMatches, StreamInv, Sum;
    if Ready(t.state.streams[t.state.idx]) {
      InvReadyTick(dev, t, initial, w);
    } else {
      InvBusyTick(dev, t, initial, w);
    }
  }

  lemma {:induction false} InvRun(dev: Device, t: Trace, actions: seq<Action>)
    requires Fresh(dev, t)
    ensures Inv(dev, Run(dev, t, actions), t.state.totalHashes)
    decreases |actions|
  {
    if actions == [] {
    } else {
      hide Inv, Act, Fresh;
      var n := |actions| - 1;
      InvRun(dev, t, actions[..n]);
      var r := Run(dev, t, actions[..n]);
      assert Inv(dev, Act(dev, r, actions[n]), t.state.totalHashes) by {
        match actions[n]
        case DeviceRuns(i) => InvDevice(dev, r, t.state.totalHashes, i);
        case HostTick(w) => InvTick(dev, r, t.state.totalHashes, w);
      }
    }
  }

  /** In every run the hashes credited so far and the counts still pending add up, modulo the
      counter's width, to everything launched. */
  lemma HashesConserved(dev: Device, t: Trace, actions: seq<Action>)
    requires Fresh(dev, t)
    ensures var r := Run(dev, t, actions);
            (r.state.totalHashes + Sum(r.state.pending)) % U64 == (t.state.totalHashes + r.total) % U64
  {
    hide Run, Sum;
    InvRun(dev, t, actions);
  }

  /** Exactly-once collection: the launching ticks of a stream return, one after another and each
      once, the records of the batches launched on it; only the batch launched last is still out, and
      it is the stream's pending count. */
  lemma CollectedOnce(dev: Device, t: Trace, actions: seq<Action>, i: nat)
    requires Fresh(dev, t) && i < |t.batches|
    ensures var r := Run(dev, t, actions);
            && i < |r.batches| == |r.returned|
            && |r.returned[i]| == |r.batches[i]|
            && (forall k | 1 <= k < |r.batches[i]| :: r.returned[i][k] == Found(dev, r.batches[i][k - 1]))
            && (i < |r.state.pending| ==>
                  r.state.pending[i] == if r.batches[i] == [] then 0 else Last(r.batches[i]).job.count)
  {
    hide Act, Sum, Found, StreamInv;
    InvRun(dev, t, actions);
    SameStreams(dev, t, actions);
  }

  lemma {:induction false} SameStreams(dev: Device, t: Trace, actions: seq<Action>)
    requires TraceShape(dev, t)
    ensures |Run(dev, t, actions).batches| == |t.batches|
    decreases |actions|
  {
    if actions != [] {
      SameStreams(dev, t, actions[..|actions| - 1]);
    }
  }

  /** Exclusivity: a tick leaves every stream alone that still has commands to execute, so its host
      and device buffers are not restaged while its batch runs. */
  lemma BusyStreamUntouched(dev: Device, t: Trace, actions: seq<Action>, w: Work, i: nat)
    requires Fresh(dev, t)
    requires var r := Run(dev, t, actions); i < |r.state.streams| && r.state.streams[i].queue != []
    ensures var r := Run(dev, t, actions);
            && i < |Act(dev, r, HostTick(w)).state.streams|
            && Act(dev, r, HostTick(w)).state.streams[i] == r.state.streams[i]
  {
    hide Run, Sum, Found, Ready, Collect, Stage, Launch;
    InvRun(dev, t, actions);
    var r := Run(dev, t, actions);
    if Ready(r.state.streams[i]) {
      ReadyIsIdle(dev, r.state.streams[i], r.batches[i]);
    }
  }

  lemma SearchComesSixth(b: Batch, n: nat)
    requires n < |Program(b)| && Program(b)[n].Search?
    ensures n == 5 && b.loaded && Program(b)[n] == Search(b.job.startNonce, b.job.count, b.job.tag)
  {
  }

  /** When a kernel runs, the device buffers hold exactly the inputs staged for its batch. */
  lemma KernelReadsItsInputs(dev: Device, t: Trace, actions: seq<Action>, i: nat)
    requires Fresh(dev, t)
    requires var r := Run(dev, t, actions);
             i < |r.state.streams| && r.state.streams[i].queue != [] && r.state.streams[i].queue[0].Search?
    ensures var r := Run(dev, t, actions);
            && i < |r.batches| && r.batches[i] != []
            && var st, j := r.state.streams[i], Last(r.batches[i]).job;
               st.dHeader == j.header && st.dSeed == j.seed && st.dTarget == j.target && st.dCount == 0
               && st.queue[0] == Search(j.startNonce, j.count, j.tag)
  {
    hide Run, Sum, Found;
    InvRun(dev, t, actions);
    var r := Run(dev, t, actions);
    var n: nat :| Executing(dev, r.state.streams[i], Last(r.batches[i]), n);
    assert Program(Last(r.batches[i]))[n].Search?;
    SearchComesSixth(Last(r.batches[i]), n);
  }

  /** What a tick that finds its stream idle launches: a batch with the inputs, the nonces and the count
      it was given, on that stream and no other. */
  lemma TickLaunches(dev: Device, t: Trace, w: Work)
    requires TraceShape(dev, t) && Ready(t.state.streams[t.state.idx])
    ensures var r, i := Act(dev, t, HostTick(w)), t.state.idx;
            && r.total == t.total + w.count
            && |r.batches| == |t.batches| && |r.batches[i]| == |t.batches[i]| + 1
            && (var b := Last(r.batches[i]);
                b.job.header == w.header && b.job.seed == w.seed && b.job.target == w.target
                && b.job.startNonce == w.startNonce && b.job.count == w.count && b.job.tag == t.state.launches
                && b.loaded == w.dagLoaded)
            && forall j | 0 <= j < |t.batches| && j != i ::
                 r.batches[j] == t.batches[j] && r.state.streams[j] == t.state.streams[j]
  {
    hide Collect, Stage, Launch, Ready, Counts;
  }

  /** A tick that finds its stream's batch completed returns exactly that batch's records. */
  lemma TickReturnsBatch(dev: Device, t: Trace, actions: seq<Action>, w: Work)
    requires Fresh(dev, t)
    requires var p := Run(dev, t, actions).state;
             p.idx < |p.pending| && p.pending[p.idx] > 0 && Ready(p.streams[p.idx])
    ensures var r := Run(dev, t, actions);
            && r.batches[r.state.idx] != []
            && var b := Last(r.batches[r.state.idx]);
               Tick(dev, r.state, w).1 == Found(dev, b) == if b.loaded then dev.search(b.job).records else []
  {
    hide Run, Sum, Ready;
    InvRun(dev, t, actions);
    var r := Run(dev, t, actions);
    CollectedRecords(dev, r.state.streams[r.state.idx], r.batches[r.state.idx]);
  }

  // ---------------------------------------------------------------- fairness

  function Ticks(actions: seq<Action>): nat {
    if actions == [] then 0 else
      Ticks(actions[..|actions| - 1]) + if actions[|actions| - 1].HostTick? then 1 else 0
  }

  /** The stream k places after stream i, for k up to the number of streams. */
  function Turn(i: nat, k: nat, n: nat): nat
    requires i < n && k <= n
  {
    if i + k < n then i + k else i + k - n
  }

  lemma TickAdvances(dev: Device, p: State, w: Work)
    requires Shape(dev, p)
    ensures Tick(dev, p, w).0.idx == Turn(p.idx, 1, |p.streams|)
    ensures |Tick(dev, p, w).0.streams| == |p.streams|
  {
    var n := |p.streams|;
    assert (p.idx + 1) % n == Turn(p.idx, 1, n) by {
      if p.idx + 1 == n {
        assert n % n == 0;
      }
    }
  }

  /** Whatever the device does in between, k ticks move the poll k streams on, for k up to the number
      of streams; so N consecutive ticks poll each of the N streams exactly once. */
  lemma {:induction false} RoundRobin(dev: Device, t: Trace, actions: seq<Action>)
    requires TraceShape(dev, t) && Ticks(actions) <= |t.state.streams|
    ensures |Run(dev, t, actions).state.streams| == |t.state.streams|
    ensures Run(dev, t, actions).state.idx == Turn(t.state.idx, Ticks(actions), |t.state.streams|)
    decreases |actions|
  {
    if actions != [] {
      hide Tick;
      var n := |actions| - 1;
      RoundRobin(dev, t, actions[..n]);
      var r := Run(dev, t, actions[..n]);
      if actions[n].HostTick? {
        TickAdvances(dev, r.state, actions[n].work);
      }
    }
  }

  lemma DeviceKeepsReady(dev: Device, t: Trace, i: nat, j: nat)
    requires TraceShape(dev, t) && j < |t.batches| && Ready(t.state.streams[j])
    ensures Ready(Act(dev, t, DeviceRuns(i)).state.streams[j])
  {
    if i == j && t.state.streams[i].queue != [] {
      assert Execute(dev, t.state.streams[i]).queue == t.state.streams[i].queue[1..];
    }
  }

  lemma OtherStreamsWait(dev: Device, t: Trace, w: Work, j: nat)
    requires TraceShape(dev, t) && j < |t.batches| && t.state.idx != j
    ensures var r := Act(dev, t, HostTick(w));
            r.state.streams[j] == t.state.streams[j] && r.batches[j] == t.batches[j] && r.returned[j] == t.returned[j]
  {
    hide Collect, Stage, Launch, Ready, Counts;
  }

  lemma ReadyStreamServed(dev: Device, t: Trace, w: Work)
    requires TraceShape(dev, t) && Ready(t.state.streams[t.state.idx])
    ensures var j, r := t.state.idx, Act(dev, t, HostTick(w));
            r.batches[j] == t.batches[j] + [BatchOf(w, t.state.launches)] && |r.returned[j]| == |t.returned[j]| + 1
  {
    hide Collect, Stage, Launch, Ready, Counts;
  }

  /** A finished batch waits at most for its stream's turn: the tick that polls the stream collects
      it, and this happens once in any N consecutive ticks. */
  lemma {:induction false} CollectedWithinOneRound(dev: Device, t: Trace, actions: seq<Action>, j: nat)
    requires TraceShape(dev, t) && j < |t.batches| && Ready(t.state.streams[j])
    requires Ticks(actions) <= |t.state.streams|
    ensures var r := Run(dev, t, actions);
            var distance := if t.state.idx <= j then j - t.state.idx else j + |t.state.streams| - t.state.idx;
            && |r.batches| == |t.batches|
            && (Ticks(actions) <= distance ==> r.returned[j] == t.returned[j] && Ready(r.state.streams[j]))
            && (distance < Ticks(actions) ==> |r.returned[j]| == |t.returned[j]| + 1)
    decreases |actions|
  {
    if actions != [] {
      hide Act, Ready;
      var n := |actions| - 1;
      CollectedWithinOneRound(dev, t, actions[..n], j);
      RoundRobin(dev, t, actions[..n]);
      var r := Run(dev, t, actions[..n]);
      match actions[n]
      case DeviceRuns(i) =>
        DeviceKeepsLogs(dev, r, i);
        if Ready(r.state.streams[j]) {
          DeviceKeepsReady(dev, r, i, j);
        }
      case HostTick(w) =>
        if r.state.idx == j {
          if Ready(r.state.streams[j]) {
            ReadyStreamServed(dev, r, w);
          }
        } else {
          OtherStreamsWait(dev, r, w, j);
        }
    }
  }

  lemma DeviceKeepsLogs(dev: Device, t: Trace, i: nat)
    requires TraceShape(dev, t)
    ensures Act(dev, t, DeviceRuns(i)).batches == t.batches && Act(dev, t, DeviceRuns(i)).returned == t.returned
  {
  }
}
