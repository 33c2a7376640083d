/** The mining loop as a state machine: pool messages, datasets, searches and shares.  Everything the
    program cannot decide itself (the text of messages, failures of the GPU, what the pool answers)
    is part of the events. */
module JobFlow {
  import opened Arithmetic
  import opened Octets
  import opened Options
  import opened Ethash
  import HexUtils
  import KernelHash
  import opened SyncSearch

  datatype Job = Job(jobId: string, seedHash: Hash32, headerHash: Hash32, target: nat, blockNumber: nat, epoch: Word32)

  /** A dataset in GPU memory, with the epoch it was generated for. */
  datatype GpuDag = GpuDag(epoch: Word32, words: seq<Word32>)

  // ---------------------------------------------------------------- messages

  /** The elements of a "params" array. */
  datatype Param = Text(s: string) | Flag(b: bool) | Integer(n: int) | Float(rounded: nat) | Other

  /** What the socket delivers.  The job of a notification is filled in field by field, so a hash that
      does not parse keeps what its memory held before. */
  datatype Message =
    | Notify(params: seq<Param>, headerBefore: Hash32, seedBefore: Hash32)
    | SetDifficulty(params: seq<Param>)
    | Ignored
    | HangUp

  function ReadHash32(text: string, before: Hash32): Hash32 {
    HexUtils.ReadHash(text, before)
  }

  /** The job of a notification, unless a missing or ill-typed parameter throws on the way. */
  function DecodeJob(m: Message, difficulty: nat): Option<Job> {
    if !m.Notify? || |m.params| < 3 then None
    else if !m.params[0].Text? || !m.params[1].Text? || !m.params[2].Text? then None
    else if |m.params| > 3 && !m.params[3].Flag? then None
    else
      var seedHash := ReadHash32(m.params[1].s, m.seedBefore);
      var epoch := JobEpoch(seedHash);
      Some(Job(m.params[0].s, seedHash, ReadHash32(m.params[2].s, m.headerBefore), difficulty,
               epoch * 30000 % U32, epoch))
  }

  function DecodeDifficulty(m: Message): Option<nat> {
    if !m.SetDifficulty? || |m.params| < 1 then None
    else match m.params[0]
      case Integer(n) => Some(n % U64)
      case Float(rounded) => Some(rounded)
      case _ => Some(1)
  }

  /** Exactly these notifications are read: at least three texts, and a flag if there is a fourth
      parameter. */
  predicate Readable(m: Message) {
    && m.Notify? && |m.params| >= 3
    && m.params[0].Text? && m.params[1].Text? && m.params[2].Text?
    && (|m.params| > 3 ==> m.params[3].Flag?)
  }

  /** What a job takes from the message: its ID is the first text, its seed hash the second and its
      header hash the third, as far as these parse; a hash text that is too long leaves what was there; and
      the block number is the first of the epoch. */
  lemma JobFromTexts(m: Message, difficulty: nat)
    ensures DecodeJob(m, difficulty).Some? <==> Readable(m)
    ensures Readable(m) ==>
              var job := DecodeJob(m, difficulty).value;
              var seed, header := HexUtils.ParseHash(m.params[1].s, 32), HexUtils.ParseHash(m.params[2].s, 32);
              && job.jobId == m.params[0].s
              && (seed.Some? ==> job.seedHash == seed.value)
              && (header.Some? ==> job.headerHash == header.value)
              && (|HexUtils.StripPrefix(m.params[1].s)| > 64 ==> job.seedHash == m.seedBefore)
              && (|HexUtils.StripPrefix(m.params[2].s)| > 64 ==> job.headerHash == m.headerBefore)
              && IsSeedEpoch(job.seedHash, job.epoch) && job.epoch < MAX_EPOCH_SCAN
              && job.target == difficulty && job.blockNumber == 30000 * job.epoch
  {
    hide JobEpoch, HexUtils.ParseHash, HexUtils.ReadHash, HexUtils.StripPrefix, IsSeedEpoch;
    if Readable(m) {
      HexUtils.ReadHashAccepted(m.params[1].s, m.seedBefore);
      HexUtils.ReadHashAccepted(m.params[2].s, m.headerBefore);
      HexUtils.ReadHashTooLong(m.params[1].s, m.seedBefore);
      HexUtils.ReadHashTooLong(m.params[2].s, m.headerBefore);
      JobEpochIsSeeds(DecodeJob(m, difficulty).value.seedHash);
      JobEpochIsSmall(DecodeJob(m, difficulty).value.seedHash);
    }
  }

  /** A pool that prints an ID, a seed hash and a header hash gets a job with exactly these. */
  lemma PrintedJobDecodes(jobId: string, seedHash: Hash32, headerHash: Hash32, prefix: bool, more: seq<Param>,
                          headerBefore: Hash32, seedBefore: Hash32, difficulty: nat)
    requires more == [] || more[0].Flag?
    ensures var params := [Text(jobId), Text(HexUtils.PrintHash(seedHash, prefix)),
                           Text(HexUtils.PrintHash(headerHash, prefix))] + more;
            var job := DecodeJob(Notify(params, headerBefore, seedBefore), difficulty);
            && job.Some? && job.value.jobId == jobId && job.value.seedHash == seedHash
            && job.value.headerHash == headerHash
  {
    hide JobEpoch, HexUtils.ParseHash, HexUtils.PrintHash, IsSeedEpoch;
    var params := [Text(jobId), Text(HexUtils.PrintHash(seedHash, prefix)),
                   Text(HexUtils.PrintHash(headerHash, prefix))] + more;
    HexUtils.HashRoundTrip(seedHash, prefix);
    HexUtils.HashRoundTrip(headerHash, prefix);
    JobFromTexts(Notify(params, headerBefore, seedBefore), difficulty);
  }

  /** A difficulty is read from an integer as a 64-bit value, from a rounded number as it is, and counts
      as one if it is neither. */
  lemma DifficultyFromParams(m: Message)
    ensures DecodeDifficulty(m).Some? <==> m.SetDifficulty? && |m.params| >= 1
    ensures DecodeDifficulty(m).Some? ==>
              var p, d := m.params[0], DecodeDifficulty(m).value;
              && (p.Integer? && 0 <= p.n < U64 ==> d == p.n)
              && (p.Integer? && -U64 <= p.n < 0 ==> d == p.n + U64)
              && (p.Float? ==> d == p.rounded)
              && (!p.Integer? && !p.Float? ==> d == 1)
  {
    if DecodeDifficulty(m).Some? && m.params[0].Integer? {
      var n := m.params[0].n;
      if 0 <= n < U64 {
        DivisionUnique(n, U64, 0, n);
      } else if -U64 <= n < 0 {
        DivisionUnique(n, U64, -1, n + U64);
      }
    }
  }

  lemma JobEpochIsSmall(seedHash: Hash32)
    ensures JobEpoch(seedHash) < MAX_EPOCH_SCAN
  {
    hide SeedEpoch, Chain;
    SeedEpochIsLeast(seedHash);
  }

  // ---------------------------------------------------------------- state

  datatype Client = Client(connected: bool, messageId: nat, currentDifficulty: nat, currentJob: Job, sent: seq<Share>)

  datatype Engine = Engine(hasJob: bool, currentJob: Job, lastDifficulty: nat, currentDagEpoch: Word32,
                           acceptedShares: nat, rejectedShares: nat)

  datatype Generator = Generator(currentEpoch: Word32, dagData: bool, dagSize: nat, gpuDag: Option<GpuDag>)

  datatype Device = Device(dag: Option<GpuDag>, dagSize: nat)

  /** `callbacks` says that the engine has registered with the client, `ended` that an exception has
      left the mining loop. */
  datatype State = State(client: Client, engine: Engine, generator: Generator, device: Device, callbacks: bool,
                         ended: bool)

  /** A share as it goes to the pool. */
  datatype Share = Share(id: nat, jobId: string, nonce: string, header: string, mix: string)

  // ---------------------------------------------------------------- datasets

  /** How a generation goes. */
  datatype Generation =
    | CacheAllocationFails
    | DagAllocationFails
    | CopyFails
    | ThreadFails
    | QueryThrows
    | Built(words: seq<Word32>, placeholder: bool)

  /** How the device takes over a dataset: its first call may throw, or a later one. */
  datatype Setup = Ready | SelectThrows | SetupThrows

  datatype Luck = Luck(generation: Generation, setup: Setup)

  /** A built dataset fills its buffer. */
  predicate Fits(epoch: Word32, g: Generation) {
    g.Built? ==> 4 * |g.words| == GetDatasetSize(epoch)
  }

  predicate Present(g: Generator, epoch: Word32) {
    g.currentEpoch == epoch && g.dagData
  }

  function Generate(g: Generator, epoch: Word32, useGpu: bool, how: Generation): Generator {
    if Present(g, epoch) then g
    else if !useGpu || !how.Built? then g.(dagSize := GetDatasetSize(epoch), dagData := false)
    else Generator(epoch, how.placeholder, GetDatasetSize(epoch), Some(GpuDag(epoch, how.words)))
  }

  /** A generation that fails keeps the dataset there was and the epoch it is for; one that succeeds
      replaces both; and one that is not needed changes nothing. */
  lemma GenerationKeeps(g: Generator, epoch: Word32, useGpu: bool, how: Generation)
    ensures var r := Generate(g, epoch, useGpu, how);
            && (g.dagData && g.currentEpoch == epoch ==> r == g)
            && (!(g.dagData && g.currentEpoch == epoch) && (!useGpu || !how.Built?) ==>
                  r.gpuDag == g.gpuDag && r.currentEpoch == g.currentEpoch && !r.dagData)
            && (!(g.dagData && g.currentEpoch == epoch) && useGpu && how.Built? ==>
                  r.gpuDag == Some(GpuDag(epoch, how.words)) && r.currentEpoch == epoch && r.dagData == how.placeholder)
  {
  }

  predicate GenerateThrows(g: Generator, epoch: Word32, useGpu: bool, how: Generation) {
    !Present(g, epoch) && useGpu && how.QueryThrows?
  }

  /** The epoch's dataset is generated and handed to the device; a failure keeps the old one there. */
  function InitializeDag(s: State, epoch: Word32, luck: Luck): (r: (State, bool)) {
    var g := Generate(s.generator, epoch, true, luck.generation);
    var s' := s.(generator := g);
    if GenerateThrows(s.generator, epoch, true, luck.generation) then (s'.(ended := true), false)
    else if !g.dagData || g.dagSize == 0 || g.gpuDag.None? then (s', false)
    else
      var d := if luck.setup.SelectThrows? then s' else s'.(device := Device(g.gpuDag, g.dagSize));
      if !luck.setup.Ready? then (d.(ended := true), false)
      else (d.(generator := g.(dagData := false), engine := d.engine.(currentDagEpoch := epoch)), true)
  }

  function OnJobReceived(s: State, job: Job, luck: Luck): State {
    var s' := s.(engine := s.engine.(currentJob := job, hasJob := true));
    if job.epoch == s.engine.currentDagEpoch then s' else
      var (t, ok) := InitializeDag(s', job.epoch, luck);
      if ok || t.ended then t else t.(engine := t.engine.(hasJob := false))
  }

  // ---------------------------------------------------------------- messages, continued

  function TargetOf(difficulty: nat): nat {
    if difficulty > 0 then (U64 - 1) / difficulty else U64 - 1
  }

  function ClientReceives(c: Client, m: Message): Client {
    match m
    case Notify(_, _, _) =>
      var job := DecodeJob(m, c.currentDifficulty);
      if job.None? then c else c.(currentJob := job.value)
    case SetDifficulty(_) =>
      var d := DecodeDifficulty(m);
      if d.None? then c
      else c.(currentDifficulty := d.value, currentJob := c.currentJob.(target := TargetOf(d.value)))
    case Ignored => c
    case HangUp => c.(connected := false)
  }

  function Receive(s: State, m: Message, luck: Luck): State {
    var s' := s.(client := ClientReceives(s.client, m));
    if !s.client.connected then s
    else if !s.callbacks then s'
    else
      var job, d := DecodeJob(m, s.client.currentDifficulty), DecodeDifficulty(m);
      if job.Some? then OnJobReceived(s', job.value, luck)
      else if d.Some? then s'.(engine := s'.engine.(lastDifficulty := d.value))
      else s'
  }

  // ---------------------------------------------------------------- searching and submitting

  datatype Answer = SendFails | NoAnswer | Closed | Reply(accepted: bool)

  function ShareOf(c: Client, jobId: string, solution: Solution): Share {
    Share(c.messageId, if jobId == "" then c.currentJob.jobId else jobId, HexUtils.PrintNonce(solution.nonce),
          HexUtils.PrintHash(c.currentJob.headerHash, true), HexUtils.PrintHash(solution.mixHash, true))
  }

  function Submit(c: Client, jobId: string, solution: Solution, answer: Answer): Client {
    if !c.connected then c else
      var c' := c.(messageId := (c.messageId + 1) % U64);
      if answer.SendFails? then c'
      else c'.(sent := c.sent + [ShareOf(c, jobId, solution)], connected := !answer.Closed?)
  }

  predicate Accepted(c: Client, answer: Answer) {
    c.connected && answer.Reply? && answer.accepted
  }

  /** One share is submitted and counted as accepted or rejected. */
  function CountAnswer(s: State, jobId: string, solution: Solution, answer: Answer): State {
    var ok := Accepted(s.client, answer);
    s.(client := Submit(s.client, jobId, solution, answer),
       engine := if ok then s.engine.(acceptedShares := (s.engine.acceptedShares + 1) % U32)
                 else s.engine.(rejectedShares := (s.engine.rejectedShares + 1) % U32))
  }

  /** The solutions are submitted one after another, each counted as accepted or rejected. */
  function ProcessSolutions(s: State, jobId: string, solutions: seq<Solution>, answers: seq<Answer>): State
    requires |answers| == |solutions|
    decreases |solutions|
  {
    if solutions == [] then s else
      var n := |solutions| - 1;
      var t := ProcessSolutions(s, jobId, solutions[..n], answers[..n]);
      CountAnswer(t, jobId, solutions[n], answers[n])
  }

  /** One pass of the loop after the messages: it waits for a job and a difficulty, and otherwise
      searches with the current job and submits what it finds. */
  function Mine(s: State, solutions: seq<Solution>, answers: seq<Answer>): State
    requires |answers| == |solutions|
  {
    if !s.engine.hasJob || s.engine.lastDifficulty == 0 then s
    else ProcessSolutions(s, s.engine.currentJob.jobId, solutions, answers)
  }

  // ---------------------------------------------------------------- runs

  datatype Event =
    | Register
    | Received(message: Message, luck: Luck)
    | Mined(solutions: seq<Solution>, answers: seq<Answer>)

  ghost predicate FoundBy(dag: seq<Word32>, job: Job, solution: Solution)
    requires KernelHash.Addressable(dag)
  {
    SyncSearch.FoundBy(job.headerHash, job.seedHash, dag, solution)
  }

  /** The solutions are what the host collects from some finished launch of the search kernel, on the
      device's dataset and with the engine's job, or there was nothing to collect. */
  ghost predicate SearchReturns(s: State, solutions: seq<Solution>) {
    solutions == [] ||
    (&& s.device.dag.Some? && KernelHash.Addressable(s.device.dag.value.words)
     && var job, dag := s.engine.currentJob, s.device.dag.value.words;
        exists w: Sweep :: SyncSearch.Finishes(job.headerHash, job.seedHash, dag, w)
                           && solutions == SyncSearch.SearchResult(job.headerHash, job.seedHash, dag, w))
  }

  lemma SearchFinds(s: State, solutions: seq<Solution>, i: nat)
    requires SearchReturns(s, solutions) && i < |solutions|
    ensures s.device.dag.Some? && KernelHash.Addressable(s.device.dag.value.words)
    ensures FoundBy(s.device.dag.value.words, s.engine.currentJob, solutions[i])
  {
    var job, dag := s.engine.currentJob, s.device.dag.value.words;
    hide SyncSearch.Finishes, SyncSearch.SearchResult, SyncSearch.FoundBy, KernelHash.Addressable;
    var w: Sweep :| SyncSearch.Finishes(job.headerHash, job.seedHash, dag, w)
                    && solutions == SyncSearch.SearchResult(job.headerHash, job.seedHash, dag, w);
    SyncSearch.SearchIsGenuine(job.headerHash, job.seedHash, dag, w, i);
  }

  /** What the outside world may do in a state. */
  ghost predicate Possible(s: State, e: Event) {
    match e
    case Register => true
    case Received(m, luck) => forall epoch: Word32 :: Requested(s, m, epoch) ==> Fits(epoch, luck.generation)
    case Mined(solutions, answers) => |answers| == |solutions| && SearchReturns(s, solutions)
  }

  /** Collecting from a finished launch on the device's dataset is something that can happen. */
  lemma SearchIsPossible(s: State, w: Sweep, answers: seq<Answer>)
    requires s.device.dag.Some? && KernelHash.Addressable(s.device.dag.value.words)
    requires var job := s.engine.currentJob;
             SyncSearch.Finishes(job.headerHash, job.seedHash, s.device.dag.value.words, w)
             && |answers| == |SyncSearch.SearchResult(job.headerHash, job.seedHash, s.device.dag.value.words, w)|
    ensures var job := s.engine.currentJob;
            var solutions := SyncSearch.SearchResult(job.headerHash, job.seedHash, s.device.dag.value.words, w);
            Possible(s, Mined(solutions, answers))
  {
    hide SyncSearch.Finishes, SyncSearch.SearchResult;
  }

  /** The message asks for the dataset of this epoch. */
  ghost predicate Requested(s: State, m: Message, epoch: Word32) {
    var job := DecodeJob(m, s.client.currentDifficulty);
    job.Some? && job.value.epoch == epoch
  }

  ghost function Step(s: State, e: Event): State
    requires Possible(s, e)
  {
    if s.ended then s else
      match e
      case Register => s.(callbacks := true)
      case Received(m, luck) => Receive(s, m, luck)
      case Mined(solutions, answers) => Mine(s, solutions, answers)
  }

  /** The events are possible one after another. */
  ghost predicate Valid(s: State, events: seq<Event>)
    decreases |events|, 0
  {
    events == [] ||
    (var n := |events| - 1;
     Valid(s, events[..n]) && Possible(Run(s, events[..n]), events[n]))
  }

  ghost function Run(s: State, events: seq<Event>): State
    requires Valid(s, events)
    decreases |events|, 1
  {
    if events == [] then s else
      var n := |events| - 1;
      Step(Run(s, events[..n]), events[n])
  }

  /** A freshly built engine: no job, no difficulty, no dataset anywhere. */
  predicate Fresh(s: State) {
    && !s.engine.hasJob && s.engine.lastDifficulty == 0 && s.engine.currentDagEpoch == UINT32_MAX
    && s.engine.acceptedShares == 0 && s.engine.rejectedShares == 0
    && s.generator == Generator(0, false, 0, None) && s.device == Device(None, 0)
    && s.client.sent == [] && !s.callbacks && !s.ended
  }

  // ---------------------------------------------------------------- the dataset fits the job

  ghost predicate Loaded(dag: Option<GpuDag>, dagSize: nat, epoch: Word32) {
    dag.Some? && dag.value.epoch == epoch && 4 * |dag.value.words| == dagSize == GetDatasetSize(epoch)
  }

  ghost predicate DagInv(s: State) {
    && !s.generator.dagData
    && (s.engine.currentDagEpoch != UINT32_MAX ==> Loaded(s.device.dag, s.device.dagSize, s.engine.currentDagEpoch))
    && (s.engine.hasJob ==> s.engine.currentJob.epoch == s.engine.currentDagEpoch < MAX_EPOCH_SCAN)
    && (s.engine.hasJob ==> IsSeedEpoch(s.engine.currentJob.seedHash, s.engine.currentJob.epoch))
  }

  lemma DagInvJob(s: State, job: Job, luck: Luck)
    requires DagInv(s) && job.epoch < MAX_EPOCH_SCAN && Fits(job.epoch, luck.generation)
    requires IsSeedEpoch(job.seedHash, job.epoch)
    ensures OnJobReceived(s, job, luck).ended || DagInv(OnJobReceived(s, job, luck))
  {
    hide GetDatasetSize, IsSeedEpoch;
    SizesAreWhole(job.epoch);
  }

  lemma {:induction false} SolutionsKeepDag(s: State, jobId: string, solutions: seq<Solution>, answers: seq<Answer>)
    requires |answers| == |solutions|
    ensures var t := ProcessSolutions(s, jobId, solutions, answers);
            && t.generator == s.generator && t.device == s.device && t.callbacks == s.callbacks && t.ended == s.ended
            && t.client.currentJob == s.client.currentJob && t.client.currentDifficulty == s.client.currentDifficulty
            && t.engine.hasJob == s.engine.hasJob && t.engine.currentJob == s.engine.currentJob
            && t.engine.currentDagEpoch == s.engine.currentDagEpoch
            && t.engine.lastDifficulty == s.engine.lastDifficulty
    decreases |solutions|
  {
    if solutions != [] {
      var n := |solutions| - 1;
      SolutionsKeepDag(s, jobId, solutions[..n], answers[..n]);
    }
  }

  lemma DagInvStep(s: State, e: Event)
    requires DagInv(s) && Possible(s, e)
    ensures Step(s, e).ended || DagInv(Step(s, e))
  {
    hide GetDatasetSize, JobEpoch, DagInv;
    assert s.ended || !e.Received? || DagInv(Step(s, e)) || Step(s, e).ended by {
      if e.Received? && !s.ended {
        DagInvReceive(s, e.message, e.luck);
      }
    }
    if e.Mined? {
      SolutionsKeepDag(s, s.engine.currentJob.jobId, e.solutions, e.answers);
      DagInvDepends(s, Step(s, e));
    } else if e.Register? {
      DagInvDepends(s, Step(s, e));
    }
  }

  lemma DagInvDepends(s: State, t: State)
    requires DagInv(s) && t.generator == s.generator && t.device == s.device
    requires t.engine.hasJob == s.engine.hasJob && t.engine.currentJob == s.engine.currentJob
    requires t.engine.currentDagEpoch == s.engine.currentDagEpoch
    ensures DagInv(t)
  {
  }

  lemma DagInvReceive(s: State, m: Message, luck: Luck)
    requires DagInv(s) && Possible(s, Received(m, luck))
    ensures Receive(s, m, luck).ended || DagInv(Receive(s, m, luck))
  {
    hide GetDatasetSize, DecodeJob, OnJobReceived, DagInv, Fits, ClientReceives, IsSeedEpoch, Readable;
    var s' := s.(client := ClientReceives(s.client, m));
    DagInvDepends(s, s');
    var job := DecodeJob(m, s.client.currentDifficulty);
    if job.Some? {
      assert Requested(s, m, job.value.epoch);
      JobFromTexts(m, s.client.currentDifficulty);
      DagInvJob(s', job.value, luck);
    } else if DecodeDifficulty(m).Some? {
      DagInvDepends(s, s'.(engine := s'.engine.(lastDifficulty := DecodeDifficulty(m).value)));
    }
  }

  lemma {:induction false} DagInvRun(s: State, events: seq<Event>)
    requires Fresh(s) && Valid(s, events)
    ensures Run(s, events).ended || DagInv(Run(s, events))
    decreases |events|
  {
    if events != [] {
      var n := |events| - 1;
      DagInvRun(s, events[..n]);
      hide Step, Possible, DagInv;
      if Run(s, events[..n]).ended {
        EndedStays(Run(s, events[..n]), events[n]);
      } else {
        DagInvStep(Run(s, events[..n]), events[n]);
      }
    }
  }

  lemma EndedStays(s: State, e: Event)
    requires s.ended && Possible(s, e)
    ensures Step(s, e) == s
  {
  }

  /** What a readable notification does: the engine goes on with its job exactly if the dataset is
      already there, or is generated, gets its host placeholder and is taken over by the device; and the
      loop ends exactly if a query or the device throws. */
  lemma JobTaken(s: State, m: Message, luck: Luck)
    requires DagInv(s) && !s.ended && s.client.connected && s.callbacks && Readable(m)
    ensures DecodeJob(m, s.client.currentDifficulty).Some?
    ensures var job, t := DecodeJob(m, s.client.currentDifficulty).value, Receive(s, m, luck);
            var there := job.epoch == s.engine.currentDagEpoch;
            var built := luck.generation.Built? && luck.generation.placeholder;
            && (t.ended <==> !there && (luck.generation.QueryThrows? || (built && !luck.setup.Ready?)))
            && (!t.ended ==> (t.engine.hasJob <==> there || (built && luck.setup.Ready?)))
            && t.client.currentJob == job && t.engine.currentJob == job
  {
    hide GetDatasetSize, JobEpoch, ReadHash32, Loaded, IsSeedEpoch;
    var job := DecodeJob(m, s.client.currentDifficulty).value;
    SizesAreWhole(job.epoch);
  }

  /** A notification that cannot be read changes nothing at all, and neither does one on a closed
      connection. */
  lemma UnreadableIgnored(s: State, m: Message, luck: Luck)
    requires m.Notify? && (!Readable(m) || !s.client.connected)
    ensures Receive(s, m, luck) == s
  {
    hide JobEpoch, ReadHash32, OnJobReceived;
  }

  /** A difficulty is kept for later jobs, makes the target of the current one, and reaches the engine once
      it is registered; nothing else changes. */
  lemma DifficultyTaken(s: State, m: Message, luck: Luck)
    requires m.SetDifficulty? && |m.params| >= 1 && s.client.connected
    ensures var d, t := DecodeDifficulty(m), Receive(s, m, luck);
            && d.Some? && t.client.currentDifficulty == d.value
            && SameJob(t.client.currentJob, s.client.currentJob)
            && (d.value == 0 ==> t.client.currentJob.target == U64 - 1)
            && (d.value > 0 ==> t.client.currentJob.target == (U64 - 1) / d.value)
            && t.engine == (if s.callbacks then s.engine.(lastDifficulty := d.value) else s.engine)
            && t.generator == s.generator && t.device == s.device && t.ended == s.ended && t.client.sent == s.client.sent
  {
  }

  /** In every reachable state with a job, the device holds the whole dataset that was generated for
      the job's epoch, which is the epoch of the job's seed hash, and the kernels can address all of it. */
  lemma DatasetFitsJob(s: State, events: seq<Event>)
    requires Fresh(s) && Valid(s, events)
    requires !Run(s, events).ended && Run(s, events).engine.hasJob
    ensures var t := Run(s, events);
            && t.device.dag.Some? && Loaded(t.device.dag, t.device.dagSize, t.engine.currentJob.epoch)
            && IsSeedEpoch(t.engine.currentJob.seedHash, t.device.dag.value.epoch)
            && KernelHash.Addressable(t.device.dag.value.words)
            && forall p: Word32 | p < DagPairs(t.device.dagSize) :: KernelHash.Reached(p) == p
  {
    hide Run, GetDatasetSize, IsSeedEpoch;
    DagInvRun(s, events);
    var t := Run(s, events);
    KernelHash.JobDatasetReached(t.engine.currentJob.epoch, t.device.dag.value.words);
  }

  // ---------------------------------------------------------------- shares come from one notification

  /** The newest notification that was read without an exception. */
  ghost function LastNotify(s: State, events: seq<Event>): Option<Message>
    requires Valid(s, events)
    decreases |events|
  {
    if events == [] then None else
      var n := |events| - 1;
      var before := Run(s, events[..n]);
      if !before.ended && before.client.connected && events[n].Received? && Readable(events[n].message)
      then Some(events[n].message) else LastNotify(s, events[..n])
  }

  lemma {:induction false} LastNotifyReadable(s: State, events: seq<Event>)
    requires Valid(s, events)
    ensures LastNotify(s, events).Some? ==> Readable(LastNotify(s, events).value)
    decreases |events|
  {
    hide Readable, Possible, Step;
    if events != [] {
      LastNotifyReadable(s, events[..|events| - 1]);
    }
  }

  function JobOf(m: Option<Message>): Option<Job> {
    if m.None? then None else DecodeJob(m.value, 0)
  }

  /** Two jobs that differ at most in their target. */
  predicate SameJob(a: Job, b: Job) {
    a.(target := 0) == b.(target := 0)
  }

  lemma DecodeAnyTarget(m: Message, difficulty: nat)
    ensures DecodeJob(m, difficulty).Some? <==> Readable(m)
    ensures DecodeJob(m, 0).Some? <==> Readable(m)
    ensures Readable(m) ==> SameJob(DecodeJob(m, difficulty).value, DecodeJob(m, 0).value)
  {
    hide JobEpoch, ReadHash32;
  }

  ghost predicate LinkInv(s: State, last: Option<Job>) {
    && (last.Some? ==> SameJob(s.client.currentJob, last.value))
    && (s.engine.hasJob ==> s.callbacks && last.Some? && SameJob(s.engine.currentJob, last.value))
  }

  lemma LinkInvJob(s: State, job: Job, luck: Luck)
    requires s.callbacks && SameJob(s.client.currentJob, job)
    ensures LinkInv(OnJobReceived(s, job, luck), Some(job))
  {
    hide GetDatasetSize;
  }

  lemma LinkInvReceive(s: State, last: Option<Job>, m: Message, luck: Luck)
    requires LinkInv(s, last) && s.client.connected
    ensures var job := DecodeJob(m, s.client.currentDifficulty);
            LinkInv(Receive(s, m, luck), if job.Some? then job else last)
  {
    hide OnJobReceived, JobEpoch;
    var s' := s.(client := ClientReceives(s.client, m));
    var job := DecodeJob(m, s.client.currentDifficulty);
    if job.Some? && s.callbacks {
      LinkInvJob(s', job.value, luck);
    }
  }

  lemma LinkInvStep(s: State, last: Option<Job>, e: Event)
    requires LinkInv(s, last) && Possible(s, e)
    ensures LinkInv(Step(s, e), if !s.ended && s.client.connected && e.Received? && Readable(e.message)
                                then DecodeJob(e.message, 0) else last)
  {
    hide DecodeJob, Readable, OnJobReceived, ClientReceives, ProcessSolutions, Possible;
    if !s.ended && e.Received? && s.client.connected {
      LinkInvReceive(s, last, e.message, e.luck);
      DecodeAnyTarget(e.message, s.client.currentDifficulty);
    } else if e.Mined? {
      assert |e.answers| == |e.solutions| by { PossibleAnswers(s, e); }
      SolutionsKeepDag(s, s.engine.currentJob.jobId, e.solutions, e.answers);
    }
  }

  lemma PossibleAnswers(s: State, e: Event)
    requires e.Mined? && Possible(s, e)
    ensures |e.answers| == |e.solutions| && SearchReturns(s, e.solutions)
  {
  }

  /** At every moment the client's job, and the engine's while it has one, are the job of the newest
      readable notification, except for the target. */
  lemma {:induction false} LinkInvRun(s: State, events: seq<Event>)
    requires Fresh(s) && Valid(s, events)
    ensures LinkInv(Run(s, events), JobOf(LastNotify(s, events)))
    decreases |events|
  {
    if events != [] {
      var n := |events| - 1;
      LinkInvRun(s, events[..n]);
      hide Step, Possible, LinkInv, DecodeJob, Readable;
      LinkInvStep(Run(s, events[..n]), JobOf(LastNotify(s, events[..n])), events[n]);
    }
  }

  /** What a pool finds when it reads a share and recomputes it: the job's ID and header hash, and the
      mix digest of the share's own nonce over the dataset. */
  ghost predicate Verifies(share: Share, job: Job, dag: seq<Word32>)
    requires KernelHash.Addressable(dag)
  {
    var nonce := HexUtils.ParseUint64(share.nonce);
    var header: seq<Octet> := job.headerHash;
    && share.jobId == job.jobId
    && HexUtils.ParseHash(share.header, 32) == Some(header)
    && nonce.Some? && nonce.value < U64
    && HexUtils.ParseHash(share.mix, 32) == Some(BytesOf(KernelHash.MixDigest(job.headerHash, dag, nonce.value)))
  }

  lemma ShareVerifies(c: Client, job: Job, dag: seq<Word32>, solution: Solution)
    requires SameJob(c.currentJob, job) && KernelHash.Addressable(dag) && FoundBy(dag, job, solution)
    ensures Verifies(ShareOf(c, job.jobId, solution), job, dag)
  {
    hide KernelHash.MixDigest, KernelHash.Result, BytesOf, HexUtils.PrintNonce, HexUtils.PrintHash,
         HexUtils.ParseUint64, HexUtils.ParseHash;
    HexUtils.NonceRoundTrip(solution.nonce);
    HexUtils.HashRoundTrip(c.currentJob.headerHash, true);
    HexUtils.HashRoundTrip(solution.mixHash, true);
  }

  /** All shares from place m on verify. */
  ghost predicate VerifyFrom(sent: seq<Share>, m: nat, job: Job, dag: seq<Word32>)
    requires KernelHash.Addressable(dag)
  {
    forall k | m <= k < |sent| :: Verifies(sent[k], job, dag)
  }

  lemma SubmitVerifies(c: Client, m: nat, job: Job, dag: seq<Word32>, solution: Solution, answer: Answer)
    requires SameJob(c.currentJob, job) && KernelHash.Addressable(dag) && FoundBy(dag, job, solution)
    requires m <= |c.sent| && VerifyFrom(c.sent, m, job, dag)
    ensures c.sent <= Submit(c, job.jobId, solution, answer).sent
    ensures VerifyFrom(Submit(c, job.jobId, solution, answer).sent, m, job, dag)
  {
    hide Verifies, FoundBy, ShareOf, KernelHash.Addressable, SameJob;
    ShareVerifies(c, job, dag, solution);
  }

  /** Submitting appends verifying shares and nothing else. */
  lemma {:induction false} SubmittedVerify(s: State, job: Job, dag: seq<Word32>, solutions: seq<Solution>,
                                           answers: seq<Answer>)
    requires |answers| == |solutions| && SameJob(s.client.currentJob, job) && KernelHash.Addressable(dag)
    requires forall i | 0 <= i < |solutions| :: FoundBy(dag, job, solutions[i])
    ensures var t := ProcessSolutions(s, job.jobId, solutions, answers);
            s.client.sent <= t.client.sent && VerifyFrom(t.client.sent, |s.client.sent|, job, dag)
    decreases |solutions|
  {
    hide FoundBy, Submit, KernelHash.Addressable;
    if solutions != [] {
      var n := |solutions| - 1;
      SubmittedVerify(s, job, dag, solutions[..n], answers[..n]);
      SolutionsKeepDag(s, job.jobId, solutions[..n], answers[..n]);
      hide VerifyFrom;
      var t := ProcessSolutions(s, job.jobId, solutions[..n], answers[..n]);
      SubmitVerifies(t.client, |s.client.sent|, job, dag, solutions[n], answers[n]);
    }
  }

  /** Where a share comes from, in terms of texts: its job ID is the first text of the message and its
      header the hash of the third; its digest is that of its own header and nonce over the dataset;
      and this dataset is the one of the epoch whose seed hash is the second text. */
  ghost predicate ShareOrigin(share: Share, m: Option<Message>, dag: Option<GpuDag>) {
    && m.Some? && Readable(m.value)
    && dag.Some? && KernelHash.Addressable(dag.value.words)
    && var seed, header := HexUtils.ParseHash(m.value.params[1].s, 32), HexUtils.ParseHash(m.value.params[2].s, 32);
       && share.jobId == m.value.params[0].s
       && (header.Some? ==> HexUtils.ParseHash(share.header, 32) == header)
       && (seed.Some? ==> IsSeedEpoch(seed.value, dag.value.epoch))
       && DigestFits(share, dag.value.words)
  }

  ghost predicate DigestFits(share: Share, dag: seq<Word32>)
    requires KernelHash.Addressable(dag)
  {
    var header, nonce := HexUtils.ParseHash(share.header, 32), HexUtils.ParseUint64(share.nonce);
    && header.Some? && nonce.Some? && nonce.value < U64
    && HexUtils.ParseHash(share.mix, 32) == Some(BytesOf(KernelHash.MixDigest(header.value, dag, nonce.value)))
  }

  lemma OriginInTexts(share: Share, m: Message, dag: GpuDag)
    requires Readable(m) && DecodeJob(m, 0).Some?
    requires KernelHash.Addressable(dag.words) && Verifies(share, DecodeJob(m, 0).value, dag.words)
    requires IsSeedEpoch(DecodeJob(m, 0).value.seedHash, dag.epoch)
    ensures ShareOrigin(share, Some(m), Some(dag))
  {
    hide DecodeJob, HexUtils.ParseHash, HexUtils.ParseUint64, KernelHash.MixDigest, KernelHash.Addressable, IsSeedEpoch,
         BytesOf;
    JobFromTexts(m, 0);
  }

  /** Every share of a search carries the job ID and the header hash of the newest readable
      notification, and its digest is that of its nonce over the dataset of that notification's
      seed hash. */
  lemma SharesOfSearch(s: State, events: seq<Event>, e: Event)
    requires Fresh(s) && Valid(s, events) && e.Mined? && Possible(Run(s, events), e)
    ensures var t, u := Run(s, events), Step(Run(s, events), e);
            && t.client.sent <= u.client.sent
            && forall k | |t.client.sent| <= k < |u.client.sent| ::
                 ShareOrigin(u.client.sent[k], LastNotify(s, events), t.device.dag)
  {
    hide Run, LastNotify, Possible, ProcessSolutions, IsSeedEpoch, DecodeJob, Readable;
    var t := Run(s, events);
    PossibleAnswers(t, e);
    if !t.ended && t.engine.hasJob {
      LinkInvRun(s, events);
      LastNotifyReadable(s, events);
      DatasetFitsJob(s, events);
      var m := LastNotify(s, events).value;
      var job := JobOf(LastNotify(s, events)).value;
      hide Verifies, KernelHash.Addressable, Loaded, ShareOrigin;
      LoadedDag(t.device.dag, t.device.dagSize, t.engine.currentJob.epoch);
      var dag := t.device.dag.value;
      forall i: nat | i < |e.solutions|
        ensures FoundBy(dag.words, job, e.solutions[i])
      {
        SearchFinds(t, e.solutions, i);
      }
      SubmittedVerify(t, job, dag.words, e.solutions, e.answers);
      var sent := Step(t, e).client.sent;
      forall k | |t.client.sent| <= k < |sent|
        ensures ShareOrigin(sent[k], LastNotify(s, events), t.device.dag)
      {
        OriginInTexts(sent[k], m, dag);
      }
    }
  }

  lemma LoadedDag(dag: Option<GpuDag>, dagSize: nat, epoch: Word32)
    requires Loaded(dag, dagSize, epoch)
    ensures dag.Some? && dag.value.epoch == epoch
  {
  }

  lemma JobSendsNothing(s: State, job: Job, luck: Luck)
    ensures var t := OnJobReceived(s, job, luck);
            && t.client.sent == s.client.sent && t.engine.acceptedShares == s.engine.acceptedShares
            && t.engine.rejectedShares == s.engine.rejectedShares
  {
    hide Generate, GenerateThrows;
  }

  lemma ReceiveSendsNothing(s: State, m: Message, luck: Luck)
    ensures Receive(s, m, luck).client.sent == s.client.sent
    ensures Receive(s, m, luck).engine.acceptedShares == s.engine.acceptedShares
    ensures Receive(s, m, luck).engine.rejectedShares == s.engine.rejectedShares
  {
    hide OnJobReceived, DecodeJob, DecodeDifficulty, ClientReceives;
    var job := DecodeJob(m, s.client.currentDifficulty);
    ClientSendsNothing(s.client, m);
    if job.Some? {
      JobSendsNothing(s.(client := ClientReceives(s.client, m)), job.value, luck);
    }
  }

  lemma ClientSendsNothing(c: Client, m: Message)
    ensures ClientReceives(c, m).sent == c.sent
  {
    hide DecodeJob, DecodeDifficulty;
  }

  /** Only a search adds shares to what has been sent. */
  lemma SentGrows(s: State, events: seq<Event>, m: nat)
    requires Fresh(s) && Valid(s, events) && |events| == m + 1
    ensures Valid(s, events[..m]) && Possible(Run(s, events[..m]), events[m])
    ensures Run(s, events) == Step(Run(s, events[..m]), events[m])
    ensures Run(s, events[..m]).client.sent <= Run(s, events).client.sent
    ensures events[m].Mined? || Run(s, events[..m]).client.sent == Run(s, events).client.sent
  {
    var before := Run(s, events[..m]);
    hide Fresh, Possible, Mine, Receive;
    if events[m].Mined? {
      SharesOfSearch(s, events[..m], events[m]);
    } else if events[m].Received? {
      ReceiveSendsNothing(before, events[m].message, events[m].luck);
    }
  }

  lemma NewShare(s: State, events: seq<Event>, m: nat, k: nat)
    requires Fresh(s) && Valid(s, events) && |events| == m + 1 && Valid(s, events[..m])
    requires |Run(s, events[..m]).client.sent| <= k < |Run(s, events).client.sent|
    ensures events[m].Mined?
    ensures ShareOrigin(Run(s, events).client.sent[k], LastNotify(s, events[..m]), Run(s, events[..m]).device.dag)
  {
    hide *;
    SentGrows(s, events, m);
    SharesOfSearch(s, events[..m], events[m]);
  }

  lemma NothingSentAtFirst(s: State, events: seq<Event>)
    requires Fresh(s) && Valid(s, events) && Run(s, events).client.sent != []
    ensures events != []
  {
  }

  /** Every share of a run goes back to one search: all it carries comes from the notification that
      was the newest readable one at that moment, and from the dataset of its epoch. */
  lemma {:induction false} ShareTraced(s: State, events: seq<Event>, k: nat) returns (n: nat)
    requires Fresh(s) && Valid(s, events) && k < |Run(s, events).client.sent|
    ensures n < |events| && events[n].Mined? && Valid(s, events[..n])
    ensures ShareOrigin(Run(s, events).client.sent[k], LastNotify(s, events[..n]), Run(s, events[..n]).device.dag)
    decreases |events|
  {
    hide *;
    NothingSentAtFirst(s, events);
    n := |events| - 1;
    SentGrows(s, events, n);
    if k < |Run(s, events[..n]).client.sent| {
      var m := n;
      n := ShareTraced(s, events[..m], k);
      assert events[..m][..n] == events[..n];
    } else {
      NewShare(s, events, n, k);
    }
  }
}
