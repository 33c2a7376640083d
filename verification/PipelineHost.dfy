/** The pipeline manager and the search executor as the host runs them: objects whose methods update
    their fields, each proved against the state machine of module Pipeline. */
module PipelineHost {
  import opened Arithmetic
  import opened Pipeline

  datatype Override = Unset | Set(value: int)

  const MIN_STREAMS: int := 2

  const MAX_STREAMS: int := 8

  function Clamp(n: int): (r: int)
    ensures 2 <= r <= 8
    ensures 2 <= n <= 8 ==> r == n
    ensures (n < 2 ==> r == 2) && (n > 8 ==> r == 8)
  {
    var low := if n < MAX_STREAMS then n else MAX_STREAMS;
    if MIN_STREAMS < low then low else MIN_STREAMS
  }

  /** Whatever the free memory and the override, the pipeline has between two and eight streams, and
      an override in that range is taken as it is.  Without one, 5689 free bytes, and up to a
      terabyte, give eight. */
  method ChooseStreamCount(freeMem: nat, env: Override) returns (n: nat)
    ensures 2 <= n <= 8
    ensures env.Set? && 2 <= env.value <= 8 ==> n == env.value
    ensures env.Set? && env.value < 2 ==> n == 2
    ensures env.Set? && env.value > 8 ==> n == 8
    ensures env.Unset? && 5689 <= freeMem <= 0x100_0000_0000 ==> n == 8
  {
    var fitting := freeMem * 90 % U64 / 100 / 640;
    var asInt := if fitting % U32 < 0x8000_0000 then fitting % U32 else fitting % U32 - U32;
    var optimal := if MIN_STREAMS < asInt then asInt else MIN_STREAMS;
    optimal := if optimal < MAX_STREAMS then optimal else MAX_STREAMS;
    var chosen := if env.Set? then env.value else optimal;
    n := Clamp(chosen);
  }

  class PipelineManager {
    const device: Device
    var streams: seq<Stream>
    var streamIdx: nat

    constructor (device: Device, streams: seq<Stream>)
      ensures this.device == device && this.streams == streams && streamIdx == 0
    {
      this.device := device;
      this.streams := streams;
      streamIdx := 0;
    }

    ghost predicate Valid()
      reads this
    {
      2 <= |streams| <= 8 && streamIdx < |streams| && forall i | 0 <= i < |streams| :: StreamShape(device, streams[i])
    }

    method AdvanceStream()
      requires Valid()
      modifies this`streamIdx
      ensures Valid() && streamIdx == (old(streamIdx) + 1) % |streams|
    {
      streamIdx := (streamIdx + 1) % |streams|;
    }

    method StageWork(idx: nat, w: Work)
      requires Valid() && idx < |streams|
      modifies this`streams
      ensures Valid() && streams == old(streams)[idx := Stage(old(streams[idx]), w)]
    {
      var st := streams[idx];
      st := st.(hHeader := w.header, hSeed := w.seed, hTarget := w.target, hCount := 0);
      st := st.(queue := st.queue + [UploadHeader]);
      st := st.(queue := st.queue + [UploadSeed]);
      st := st.(queue := st.queue + [UploadTarget]);
      st := st.(queue := st.queue + [ClearCount]);
      assert st.queue == streams[idx].queue + [UploadHeader, UploadSeed, UploadTarget, ClearCount];
      streams := streams[idx := st];
    }

    /** Records the start event, launches the kernel unless there is no DAG, and records the stop and
        the completion events. */
    method LaunchBatch(idx: nat, w: Work, tag: nat)
      requires Valid() && idx < |streams|
      modifies this`streams
      ensures Valid() && streams == old(streams)[idx := Launch(old(streams[idx]), w, tag)]
    {
      var st := streams[idx];
      st := st.(queue := st.queue + [Event(Start)]);
      if w.dagLoaded {
        st := st.(queue := st.queue + [Search(w.startNonce, w.count, tag)]);
      }
      st := st.(queue := st.queue + [Event(Stop)]);
      st := st.(queue := st.queue + [Event(Done)]);
      assert st.queue == Launch(streams[idx], w, tag).queue;
      streams := streams[idx := st];
    }

    /** Queues the two downloads and waits for the stream, which executes its commands one by one. */
    method CollectResults(idx: nat) returns (count: nat)
      requires Valid() && idx < |streams|
      modifies this`streams
      ensures Valid() && streams == old(streams)[idx := Collect(device, old(streams[idx]))]
      ensures count == streams[idx].hCount
    {
      ghost var goal := Collect(device, streams[idx]);
      var st := streams[idx];
      st := st.(queue := st.queue + [DownloadCount]);
      st := st.(queue := st.queue + [DownloadSlots]);
      assert st.queue == streams[idx].queue + [DownloadCount, DownloadSlots];
      while st.queue != []
        invariant StreamShape(device, st) && Synchronize(device, st) == goal
        decreases |st.queue|
      {
        st := Execute(device, st);
      }
      streams := streams[idx := st];
      count := st.hCount;
    }
  }

  /** A solution as the caller gets it, with the job label of the collecting tick. */
  datatype Labelled = Labelled(record: Record, jobId: string)

  method CopySolutions(slots: seq<Record>, found: nat, jobId: string) returns (solutions: seq<Labelled>)
    requires found <= |slots|
    ensures |solutions| == found
    ensures forall i | 0 <= i < found :: solutions[i].record == slots[i] && solutions[i].jobId == jobId
  {
    solutions := [];
    for s := 0 to found
      invariant |solutions| == s
      invariant forall k | 0 <= k < s :: solutions[k].record == slots[k] && solutions[k].jobId == jobId
    {
      solutions := solutions + [Labelled(slots[s], jobId)];
    }
  }

  class SearchExecutor {
    const pipeline: PipelineManager
    var pendingCounts: seq<nat>

    constructor (pipeline: PipelineManager)
      ensures this.pipeline == pipeline && pendingCounts == []
    {
      this.pipeline := pipeline;
      pendingCounts := [];
    }

    /** The state machine's view of the two objects and of the caller's counters. */
    function View(totalHashes: nat, launches: nat): State
      reads this, pipeline
    {
      State(pipeline.streams, pipeline.streamIdx, pendingCounts, totalHashes, launches)
    }

    /** Reads the finished batch of stream i back and credits it. */
    method CollectBatch(i: nat, currentJobId: string, totalHashes: nat)
      returns (outSolutions: seq<Labelled>, total: nat)
      requires pipeline.Valid() && pipeline.device.Valid() && totalHashes < U64
      requires i < |pipeline.streams| == |pendingCounts|
      modifies this`pendingCounts, pipeline`streams
      ensures pipeline.Valid()
      ensures pipeline.streams == old(pipeline.streams)[i := Collect(pipeline.device, old(pipeline.streams[i]))]
      ensures var st := pipeline.streams[i];
              && |outSolutions| == Min(st.hCount, pipeline.device.max) <= |st.hSlots|
              && forall k | 0 <= k < |outSolutions| ::
                   outSolutions[k].record == st.hSlots[k] && outSolutions[k].jobId == currentJobId
      ensures total == (totalHashes + old(pendingCounts[i])) % U64
      ensures pendingCounts == old(pendingCounts)[i := 0]
    {
      hide Collect;
      total := totalHashes;
      var found := pipeline.CollectResults(i);
      outSolutions := [];
      if found > 0 {
        found := Min(found, pipeline.device.max);
        outSolutions := CopySolutions(pipeline.streams[i].hSlots, found, currentJobId);
      }
      if pendingCounts[i] > 0 {
        total := (totalHashes + pendingCounts[i]) % U64;
        pendingCounts := pendingCounts[i := 0];
      }
    }

    /** One tick.  The caller's solutions are replaced only when a batch is collected. */
    method RunAsyncTick(w: Work, solutions: seq<Labelled>, currentJobId: string, totalHashes: nat, launches: nat)
      returns (found: nat, outSolutions: seq<Labelled>, total: nat, launched: nat)
      requires pipeline.Valid() && pipeline.device.Valid() && totalHashes < U64
      modifies this, pipeline
      ensures pipeline.Valid()
      ensures var r := Tick(pipeline.device, old(View(totalHashes, launches)), w);
              && View(total, launched) == r.0
              && found == |r.1|
              && (!old(Ready(pipeline.streams[pipeline.streamIdx])) ==> outSolutions == solutions)
              && (old(Ready(pipeline.streams[pipeline.streamIdx])) ==>
                    && |outSolutions| == |r.1|
                    && forall k | 0 <= k < |r.1| ::
                         outSolutions[k].record == r.1[k] && outSolutions[k].jobId == currentJobId)
    {
      ghost var before := View(totalHashes, launches);
      hide Collect, Stage, Ready, Launch, Counts, Tick, Min;
      outSolutions, total, launched := solutions, totalHashes, launches;
      if |pendingCounts| != |pipeline.streams| {
        pendingCounts := seq(|pipeline.streams|, _ => 0);
      }
      CountsAre(before, pendingCounts);
      var i := pipeline.streamIdx;
      if !Ready(pipeline.streams[i]) {
        BusyTick(pipeline.device, before, w);
        pipeline.AdvanceStream();
        found := 0;
        return;
      }
      ReadyTick(pipeline.device, before, w);
      outSolutions, total := CollectBatch(i, currentJobId, totalHashes);
      found := |outSolutions|;
      pipeline.StageWork(i, w);
      pipeline.LaunchBatch(i, w, launches);
      launched := launches + 1;
      pendingCounts := pendingCounts[i := w.count];
      pipeline.AdvanceStream();
      assert pendingCounts == Counts(before)[i := w.count];
    }
  }

  lemma CountsAre(p: State, counts: seq<nat>)
    requires counts == if |p.pending| != |p.streams| then seq(|p.streams|, _ => 0) else p.pending
    ensures counts == Counts(p)
  {
  }

  /** What the caller of a tick gets, in any run of the pipeline: if the polled stream has a batch to be
      credited and it has completed, the solutions are that batch's records, each once and in order,
      under the label the caller gave. */
  lemma CallerGetsBatch(dev: Device, t: Trace, actions: seq<Action>, w: Work, out: seq<Labelled>, jobId: string)
    requires Fresh(dev, t)
    requires var p := Run(dev, t, actions).state;
             p.idx < |p.pending| && p.pending[p.idx] > 0 && Ready(p.streams[p.idx])
    requires var r := Tick(dev, Run(dev, t, actions).state, w);
             |out| == |r.1| && forall k | 0 <= k < |r.1| :: out[k].record == r.1[k] && out[k].jobId == jobId
    ensures var r := Run(dev, t, actions);
            && r.batches[r.state.idx] != []
            && var b := Last(r.batches[r.state.idx]);
               var found := if b.loaded then dev.search(b.job).records else [];
               && |out| == |found|
               && forall k | 0 <= k < |found| :: out[k].record == found[k] && out[k].jobId == jobId
  {
    hide Run, Found, Tick, Ready;
    TickReturnsBatch(dev, t, actions, w);
  }
}
