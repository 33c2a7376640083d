/** The objects of the mining loop, whose methods change them in place: the pool client, the engine,
    the dataset generator and the device manager. */
module JobFlowHost {
  import opened Arithmetic
  import opened Octets
  import opened Options
  import opened Ethash
  import opened JobFlow
  import opened SyncSearch
  import HexUtils

  class DagGenerator {
    var currentEpoch: Word32
    var dagData: bool
    var dagSize: nat
    var gpuDag: Option<GpuDag>

    constructor ()
      ensures View() == Generator(0, false, 0, None)
    {
      currentEpoch, dagData, dagSize, gpuDag := 0, false, 0, None;
    }

    function View(): Generator
      reads this
    {
      Generator(currentEpoch, dagData, dagSize, gpuDag)
    }

    /** Returns whether the caller gets a non-null pointer. */
    method Generate(epoch: Word32, useGpu: bool, how: Generation) returns (data: bool, thrown: bool)
      modifies this
      ensures View() == JobFlow.Generate(old(View()), epoch, useGpu, how)
      ensures thrown == GenerateThrows(old(View()), epoch, useGpu, how)
      ensures !thrown && useGpu ==> data == dagData
      ensures data ==> dagData
    {
      if currentEpoch == epoch && dagData {
        return true, false;
      }
      dagSize := GetDatasetSize(epoch);
      if dagData {
        dagData := false;
      }
      if !useGpu {
        return false, false;
      }
      match how
      case QueryThrows =>
        return false, true;
      case Built(words, placeholder) =>
        dagData := placeholder;
        gpuDag := Some(GpuDag(epoch, words));
        currentEpoch := epoch;
        return dagData, false;
      case _ =>
        return false, false;
    }

    method FreeHostMemory()
      modifies this
      ensures View() == old(View()).(dagData := false)
    {
      if dagData {
        dagData := false;
      }
    }
  }

  class DeviceManager {
    var dag: Option<GpuDag>
    var dagSize: nat
    var pipelineInitialized: bool

    constructor ()
      ensures View() == Device(None, 0) && !pipelineInitialized
    {
      dag, dagSize, pipelineInitialized := None, 0, false;
    }

    function View(): Device
      reads this
    {
      Device(dag, dagSize)
    }

    /** The first call may throw before, the later ones after pointer and size are kept. */
    method InitDeviceZeroCopy(gpuDag: Option<GpuDag>, size: nat, how: Setup) returns (ok: bool, thrown: bool)
      modifies this
      ensures View() == if how.SelectThrows? then old(View()) else Device(gpuDag, size)
      ensures ok == how.Ready? && thrown == !how.Ready?
      ensures pipelineInitialized == (ok || old(pipelineInitialized))
    {
      if how.SelectThrows? {
        return false, true;
      }
      dagSize := size;
      dag := gpuDag;
      if how.SetupThrows? {
        return false, true;
      }
      pipelineInitialized := true;
      return true, false;
    }
  }

  class StratumClient {
    var connected: bool
    var messageId: nat
    var currentDifficulty: nat
    var currentJob: Job
    var sent: seq<Share>
    var onJob: MiningEngine?

    constructor (job: Job)
      ensures View() == Client(true, 1, 0xFFFF_FFFF_FFFF_FFFF, job, []) && onJob == null
    {
      connected, messageId, currentDifficulty, currentJob, sent, onJob := true, 1, 0xFFFF_FFFF_FFFF_FFFF, job, [], null;
    }

    function View(): Client
      reads this
    {
      Client(connected, messageId, currentDifficulty, currentJob, sent)
    }

    ghost function Frame(): set<object>
      reads this, onJob
    {
      if onJob == null then {this} else {this, onJob, onJob.generator, onJob.device}
    }

    ghost predicate Linked()
      reads this, onJob
    {
      onJob != null ==> onJob.client == this
    }

    method ProcessNotification(m: Message, luck: Luck) returns (thrown: bool)
      requires connected && Linked() && m != HangUp
      modifies Frame()
      ensures onJob == old(onJob) && Linked()
      ensures onJob == null ==> View() == ClientReceives(old(View()), m) && !thrown
      ensures onJob != null ==> onJob.View(thrown) == Receive(old(onJob.View(false)), m, luck)
      ensures onJob != null ==> onJob.generator == old(onJob.generator) && onJob.device == old(onJob.device)
    {
      hide JobFlow.OnJobReceived, ReadHash32, SeedEpoch;
      thrown := false;
      match m
      case Notify(params, headerBefore, seedBefore) =>
        if |params| >= 3 {
          if !params[0].Text? || !params[1].Text? || !params[2].Text? {
            return;
          }
          var headerHash := ReadHash32(params[2].s, headerBefore);
          var seedHash := ReadHash32(params[1].s, seedBefore);
          var derivedEpoch := EpochFromSeedHash(seedHash);
          if derivedEpoch == UINT32_MAX {
            derivedEpoch := 0;
          }
          var job := Job(params[0].s, seedHash, headerHash, currentDifficulty, derivedEpoch * 30000 % U32, derivedEpoch);
          if |params| > 3 && !params[3].Flag? {
            return;
          }
          assert DecodeJob(m, currentDifficulty) == Some(job);
          currentJob := job;
          if onJob != null {
            thrown := onJob.OnJobReceived(job, luck);
          }
        }
      case SetDifficulty(params) =>
        if |params| >= 1 {
          var difficulty := match params[0]
            case Integer(n) => n % U64
            case Float(rounded) => rounded
            case _ => 1;
          currentDifficulty := difficulty;
          var target64 := if difficulty > 0 then (U64 - 1) / difficulty else U64 - 1;
          currentJob := currentJob.(target := target64);
          if onJob != null {
            onJob.OnDifficultyUpdate(difficulty);
          }
        }
      case Ignored =>
    }

    /** The messages of one receive, one after another; a hang-up closes the connection. */
    method ProcessMessages(messages: seq<(Message, Luck)>) returns (thrown: bool)
      requires onJob != null && Linked()
      modifies Frame()
      ensures onJob == old(onJob) && Linked()
      ensures onJob.View(thrown) == ReceiveAll(old(onJob.View(false)), messages)
    {
      hide Receive, ReceiveAll;
      thrown := false;
      var i := 0;
      ghost var start := onJob.View(false);
      NoMessage(start, messages);
      while i < |messages|
        invariant 0 <= i <= |messages| && !thrown
        invariant onJob == old(onJob) && Linked()
        invariant onJob.View(false) == ReceiveAll(start, messages[..i])
      {
        NextMessage(start, messages, i);
        HungUp(onJob.View(false), messages[i].0, messages[i].1);
        if connected {
          if messages[i].0 == HangUp {
            connected := false;
          } else {
            thrown := ProcessNotification(messages[i].0, messages[i].1);
            if thrown {
              ThrownStays(start, messages, i + 1);
              return;
            }
          }
        }
        i := i + 1;
      }
      assert messages[..i] == messages;
    }

    /** Sends one share and reads the answer. */
    method SubmitSolution(jobId: string, solution: Solution, answer: Answer) returns (accepted: bool)
      modifies this
      ensures View() == Submit(old(View()), jobId, solution, answer)
      ensures accepted == Accepted(old(View()), answer)
      ensures onJob == old(onJob)
    {
      if !connected {
        return false;
      }
      var shareJob := if jobId == "" then currentJob.jobId else jobId;
      var share := Share(messageId, shareJob, HexUtils.PrintNonce(solution.nonce),
                         HexUtils.PrintHash(currentJob.headerHash, true), HexUtils.PrintHash(solution.mixHash, true));
      messageId := (messageId + 1) % U64;
      if answer.SendFails? {
        return false;
      }
      sent := sent + [share];
      match answer
      case Closed =>
        connected := false;
        accepted := false;
      case Reply(ok) =>
        accepted := ok;
      case _ =>
        accepted := false;
    }
  }

  class MiningEngine {
    const client: StratumClient
    const generator: DagGenerator
    const device: DeviceManager
    var hasJob: bool
    var currentJob: Job
    var lastDifficulty: nat
    var currentDagEpoch: Word32
    var acceptedShares: nat
    var rejectedShares: nat

    constructor (job: Job, client: StratumClient)
      requires client.onJob == null && client.sent == []
      ensures this.client == client && fresh(generator) && fresh(device)
      ensures Fresh(View(false))
    {
      this.client := client;
      this.generator := new DagGenerator();
      this.device := new DeviceManager();
      hasJob, currentJob, lastDifficulty, currentDagEpoch := false, job, 0, UINT32_MAX;
      acceptedShares, rejectedShares := 0, 0;
    }

    ghost function EngineView(): Engine
      reads this
    {
      Engine(hasJob, currentJob, lastDifficulty, currentDagEpoch, acceptedShares, rejectedShares)
    }

    ghost function View(ended: bool): State
      reads this, client, generator, device
    {
      State(client.View(), EngineView(), generator.View(), device.View(), client.onJob == this, ended)
    }

    /** The callbacks are set once the pool has authorized the worker. */
    method Register()
      modifies client`onJob
      ensures View(false) == old(View(false)).(callbacks := true)
    {
      client.onJob := this;
    }

    method InitializeDag(epoch: Word32, luck: Luck) returns (ok: bool, thrown: bool)
      modifies this, generator, device
      ensures (View(thrown), ok) == JobFlow.InitializeDag(old(View(false)), epoch, luck)
    {
      var dagData: bool;
      dagData, thrown := generator.Generate(epoch, true, luck.generation);
      if thrown {
        return false, true;
      }
      var dagSize := generator.dagSize;
      var gpuDag := generator.gpuDag;
      if !dagData || dagSize == 0 || gpuDag.None? {
        return false, false;
      }
      ok, thrown := device.InitDeviceZeroCopy(gpuDag, dagSize, luck.setup);
      if thrown || !ok {
        return false, thrown;
      }
      generator.FreeHostMemory();
      currentDagEpoch := epoch;
      return true, false;
    }

    method OnJobReceived(job: Job, luck: Luck) returns (thrown: bool)
      modifies this, generator, device
      ensures View(thrown) == JobFlow.OnJobReceived(old(View(false)), job, luck)
    {
      currentJob := job;
      hasJob := true;
      thrown := false;
      if job.epoch != currentDagEpoch {
        var ok: bool;
        ok, thrown := InitializeDag(job.epoch, luck);
        if thrown {
          return;
        }
        if !ok {
          hasJob := false;
        }
      }
    }

    method OnDifficultyUpdate(difficulty: nat)
      modifies this
      ensures EngineView() == old(EngineView()).(lastDifficulty := difficulty)
    {
      lastDifficulty := difficulty;
    }

    /** Submits one solution and counts the answer. */
    method CountSubmission(solution: Solution, jobId: string, answer: Answer)
      modifies this, client
      ensures View(false) == CountAnswer(old(View(false)), jobId, solution, answer)
      ensures old(Accepted(client.View(), answer)) ==>
                acceptedShares == (old(acceptedShares) + 1) % U32 && rejectedShares == old(rejectedShares)
      ensures !old(Accepted(client.View(), answer)) ==>
                acceptedShares == old(acceptedShares) && rejectedShares == (old(rejectedShares) + 1) % U32
      ensures client.onJob == old(client.onJob)
    {
      hide Submit, Accepted;
      var accepted := client.SubmitSolution(jobId, solution, answer);
      if accepted {
        acceptedShares := (acceptedShares + 1) % U32;
      } else {
        rejectedShares := (rejectedShares + 1) % U32;
      }
    }

    method ProcessSolutions(solutions: seq<Solution>, jobId: string, answers: seq<Answer>)
      requires |answers| == |solutions|
      modifies this, client
      ensures View(false) == JobFlow.ProcessSolutions(old(View(false)), jobId, solutions, answers)
      ensures client.onJob == old(client.onJob)
    {
      hide CountAnswer, JobFlow.ProcessSolutions;
      ghost var start := View(false);
      NoSolution(start, jobId, solutions, answers);
      var i := 0;
      while i < |solutions|
        invariant 0 <= i <= |solutions|
        invariant View(false) == JobFlow.ProcessSolutions(start, jobId, solutions[..i], answers[..i])
        invariant client.onJob == old(client.onJob)
      {
        NextSolution(start, jobId, solutions, answers, i);
        CountSubmission(solutions[i], jobId, answers[i]);
        i := i + 1;
      }
      assert solutions[..i] == solutions && answers[..i] == answers;
    }

    /** The messages of one receive, then one search. */
    method RunOnce(messages: seq<(Message, Luck)>, solutions: seq<Solution>, answers: seq<Answer>) returns (thrown: bool)
      requires |answers| == |solutions| && client.onJob == this
      modifies this, client, generator, device
      ensures client.onJob == this
      ensures View(thrown) == LoopPass(old(View(false)), messages, solutions, answers)
    {
      hide ReceiveAll;
      thrown := client.ProcessMessages(messages);
      if thrown || !hasJob {
        return;
      }
      if lastDifficulty == 0 {
        return;
      }
      var jobSnapshot := currentJob;
      if |solutions| > 0 {
        ProcessSolutions(solutions, jobSnapshot.jobId, answers);
      }
    }

    /** The main loop: it stops when the connection is lost, and an exception ends it. */
    method Run(rounds: seq<Round>) returns (thrown: bool)
      requires client.onJob == this
      requires Answered(rounds)
      modifies this, client, generator, device
      ensures View(thrown) == Loop(old(View(false)), rounds)
    {
      thrown := false;
      var i := 0;
      assert rounds[0..] == rounds;
      while i < |rounds| && client.connected
        invariant 0 <= i <= |rounds| && client.onJob == this && !thrown
        invariant Loop(View(false), rounds[i..]) == Loop(old(View(false)), rounds)
      {
        assert rounds[i..][1..] == rounds[i + 1..];
        thrown := RunOnce(rounds[i].messages, rounds[i].solutions, rounds[i].answers);
        if thrown {
          return;
        }
        i := i + 1;
      }
    }
  }

  /** What one pass of the loop meets. */
  datatype Round = Round(messages: seq<(Message, Luck)>, solutions: seq<Solution>, answers: seq<Answer>)

  predicate Answered(rounds: seq<Round>) {
    forall i | 0 <= i < |rounds| :: |rounds[i].answers| == |rounds[i].solutions|
  }

  function Loop(s: State, rounds: seq<Round>): State
    requires Answered(rounds)
    decreases |rounds|
  {
    if rounds == [] || s.ended || !s.client.connected then s
    else Loop(LoopPass(s, rounds[0].messages, rounds[0].solutions, rounds[0].answers), rounds[1..])
  }

  lemma NoSolution(s: State, jobId: string, solutions: seq<Solution>, answers: seq<Answer>)
    ensures JobFlow.ProcessSolutions(s, jobId, solutions[..0], answers[..0]) == s
  {
  }

  lemma NextSolution(s: State, jobId: string, solutions: seq<Solution>, answers: seq<Answer>, i: nat)
    requires i < |solutions| == |answers|
    ensures JobFlow.ProcessSolutions(s, jobId, solutions[..i + 1], answers[..i + 1])
            == CountAnswer(JobFlow.ProcessSolutions(s, jobId, solutions[..i], answers[..i]), jobId,
                           solutions[i], answers[i])
  {
    hide CountAnswer;
    assert solutions[..i + 1][..i] == solutions[..i] && answers[..i + 1][..i] == answers[..i];
  }

  /** The messages of one receive, one after another. */
  function ReceiveAll(s: State, messages: seq<(Message, Luck)>): State
    decreases |messages|
  {
    if messages == [] then s else
      var n := |messages| - 1;
      var t := ReceiveAll(s, messages[..n]);
      if t.ended then t else Receive(t, messages[n].0, messages[n].1)
  }

  function LoopPass(s: State, messages: seq<(Message, Luck)>, solutions: seq<Solution>, answers: seq<Answer>): State
    requires |answers| == |solutions|
  {
    var t := ReceiveAll(s, messages);
    if t.ended then t else Mine(t, solutions, answers)
  }

  lemma NoMessage(s: State, messages: seq<(Message, Luck)>)
    ensures ReceiveAll(s, messages[..0]) == s
  {
  }

  /** A hang-up only closes the connection, and a closed connection receives nothing. */
  lemma HungUp(s: State, m: Message, luck: Luck)
    ensures m == HangUp && s.client.connected ==> Receive(s, m, luck) == s.(client := s.client.(connected := false))
    ensures !s.client.connected ==> Receive(s, m, luck) == s
  {
  }

  lemma NextMessage(s: State, messages: seq<(Message, Luck)>, i: nat)
    requires i < |messages|
    ensures ReceiveAll(s, messages[..i + 1]) ==
            var t := ReceiveAll(s, messages[..i]);
            if t.ended then t else Receive(t, messages[i].0, messages[i].1)
  {
    assert messages[..i + 1][..i] == messages[..i];
  }

  lemma {:induction false} ThrownStays(s: State, messages: seq<(Message, Luck)>, i: nat)
    requires i <= |messages| && ReceiveAll(s, messages[..i]).ended
    ensures ReceiveAll(s, messages) == ReceiveAll(s, messages[..i])
    decreases |messages|
  {
    hide Receive;
    if i < |messages| {
      var n := |messages| - 1;
      assert messages[..n][..i] == messages[..i];
      ThrownStays(s, messages[..n], i);
    } else {
      assert messages[..i] == messages;
    }
  }

  /** The events of one pass of the loop. */
  function PassEvents(messages: seq<(Message, Luck)>, solutions: seq<Solution>, answers: seq<Answer>): seq<Event> {
    MessageEvents(messages) + [Mined(solutions, answers)]
  }

  function MessageEvents(messages: seq<(Message, Luck)>): seq<Event> {
    seq(|messages|, i requires 0 <= i < |messages| => Received(messages[i].0, messages[i].1))
  }

  /** A pass of the loop is the run of its events, so all that holds of runs holds of the loop. */
  lemma PassIsRun(s: State, events: seq<Event>, messages: seq<(Message, Luck)>, solutions: seq<Solution>,
                  answers: seq<Answer>)
    requires Valid(s, events + PassEvents(messages, solutions, answers))
    ensures Valid(s, events) && |answers| == |solutions|
    ensures Run(s, events + PassEvents(messages, solutions, answers))
            == if Run(s, events).ended then Run(s, events) else LoopPass(Run(s, events), messages, solutions, answers)
  {
    hide Receive, Mine, SearchReturns, Requested, Fits;
    var all := events + PassEvents(messages, solutions, answers);
    assert all[..|all| - 1] == events + MessageEvents(messages);
    MessagesAreRun(s, events, messages);
  }

  lemma {:induction false} MessagesAreRun(s: State, events: seq<Event>, messages: seq<(Message, Luck)>)
    requires Valid(s, events + MessageEvents(messages))
    ensures Valid(s, events)
    ensures Run(s, events + MessageEvents(messages))
            == if Run(s, events).ended then Run(s, events) else ReceiveAll(Run(s, events), messages)
    decreases |messages|
  {
    hide Receive, SearchReturns, Requested, Fits;
    var all := events + MessageEvents(messages);
    if messages == [] {
      assert all == events;
    } else {
      var n := |messages| - 1;
      assert all[..|all| - 1] == events + MessageEvents(messages[..n]);
      MessagesAreRun(s, events, messages[..n]);
    }
  }

  lemma {:induction false} ValidPrefix(s: State, events: seq<Event>, n: nat)
    requires Valid(s, events) && n <= |events|
    ensures Valid(s, events[..n])
    decreases |events|
  {
    if n < |events| {
      var m := |events| - 1;
      assert events[..m][..n] == events[..n];
      ValidPrefix(s, events[..m], n);
    } else {
      assert events[..n] == events;
    }
  }

  /** The events of the passes the loop makes before it stops. */
  ghost function LoopEvents(s: State, rounds: seq<Round>): seq<Event>
    requires Answered(rounds)
    decreases |rounds|
  {
    if rounds == [] || s.ended || !s.client.connected then [] else
      var r := rounds[0];
      PassEvents(r.messages, r.solutions, r.answers)
      + LoopEvents(LoopPass(s, r.messages, r.solutions, r.answers), rounds[1..])
  }

  lemma LoopStops(s: State, rounds: seq<Round>)
    requires Answered(rounds) && (rounds == [] || s.ended || !s.client.connected)
    ensures Loop(s, rounds) == s && LoopEvents(s, rounds) == []
  {
  }

  lemma LoopGoesOn(s: State, rounds: seq<Round>)
    requires Answered(rounds) && rounds != [] && !s.ended && s.client.connected
    ensures var r := rounds[0];
            && |r.answers| == |r.solutions| && Answered(rounds[1..])
            && Loop(s, rounds) == Loop(LoopPass(s, r.messages, r.solutions, r.answers), rounds[1..])
            && LoopEvents(s, rounds)
               == PassEvents(r.messages, r.solutions, r.answers)
                  + LoopEvents(LoopPass(s, r.messages, r.solutions, r.answers), rounds[1..])
  {
  }

  /** The whole loop is one run of its events. */
  lemma {:induction false} LoopIsRun(s: State, events: seq<Event>, rounds: seq<Round>)
    requires Answered(rounds) && Valid(s, events)
    requires Valid(s, events + LoopEvents(Run(s, events), rounds))
    ensures Loop(Run(s, events), rounds) == Run(s, events + LoopEvents(Run(s, events), rounds))
    decreases |rounds|
  {
    hide *;
    var t := Run(s, events);
    if rounds == [] || t.ended || !t.client.connected {
      LoopStops(t, rounds);
      assert events + [] == events;
    } else {
      LoopGoesOn(t, rounds);
      var r := rounds[0];
      var pass := PassEvents(r.messages, r.solutions, r.answers);
      var rest := LoopEvents(LoopPass(t, r.messages, r.solutions, r.answers), rounds[1..]);
      var all := events + LoopEvents(t, rounds);
      assert all == (events + pass) + rest && all[..|events + pass|] == events + pass;
      ValidPrefix(s, all, |events + pass|);
      PassIsRun(s, events, r.messages, r.solutions, r.answers);
      LoopIsRun(s, events + pass, rounds[1..]);
    }
  }

  /** Whenever the loop stops without an exception and has a job, the device holds the dataset of the
      job's epoch, which is the epoch of its seed hash. */
  lemma LoopDatasetFits(s: State, events: seq<Event>, rounds: seq<Round>)
    requires Fresh(s) && Answered(rounds) && Valid(s, events)
    requires Valid(s, events + LoopEvents(Run(s, events), rounds))
    ensures var t := Loop(Run(s, events), rounds);
            !t.ended && t.engine.hasJob ==>
              && t.device.dag.Some? && IsSeedEpoch(t.engine.currentJob.seedHash, t.device.dag.value.epoch)
              && Loaded(t.device.dag, t.device.dagSize, t.engine.currentJob.epoch)
  {
    hide *;
    LoopIsRun(s, events, rounds);
    var all := events + LoopEvents(Run(s, events), rounds);
    if !Run(s, all).ended && Run(s, all).engine.hasJob {
      DatasetFitsJob(s, all);
    }
  }

  /** Every share the loop has sent goes back to one search and one notification. */
  lemma LoopShareTraced(s: State, events: seq<Event>, rounds: seq<Round>, k: nat) returns (n: nat)
    requires Fresh(s) && Answered(rounds) && Valid(s, events)
    requires Valid(s, events + LoopEvents(Run(s, events), rounds))
    requires k < |Loop(Run(s, events), rounds).client.sent|
    ensures var all := events + LoopEvents(Run(s, events), rounds);
            && n < |all| && all[n].Mined? && Valid(s, all[..n])
            && ShareOrigin(Loop(Run(s, events), rounds).client.sent[k], LastNotify(s, all[..n]),
                           Run(s, all[..n]).device.dag)
  {
    hide *;
    LoopIsRun(s, events, rounds);
    n := ShareTraced(s, events + LoopEvents(Run(s, events), rounds), k);
  }
}
