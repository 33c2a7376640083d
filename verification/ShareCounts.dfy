/** How the engine keeps count of its shares: what the answers of the pool make of the two counters, and
    which solutions are sent. */
module ShareCounts {
  import opened Arithmetic
  import opened Options
  import opened SyncSearch
  import opened JobFlow
  import HexUtils
  import Octets

  /** The connection is still open after these answers. */
  predicate OpenAfter(connected: bool, answers: seq<Answer>) {
    connected && Closed !in answers
  }

  /** The answers that accept a share, while the connection is open. */
  function AcceptingReplies(connected: bool, answers: seq<Answer>): nat
    decreases |answers|
  {
    if answers == [] then 0 else
      var n := |answers| - 1;
      AcceptingReplies(connected, answers[..n])
      + if OpenAfter(connected, answers[..n]) && answers[n] == Reply(true) then 1 else 0
  }

  /** The solutions that go out as shares. */
  function SentSolutions(connected: bool, solutions: seq<Solution>, answers: seq<Answer>): seq<Solution>
    requires |solutions| == |answers|
    decreases |solutions|
  {
    if solutions == [] then [] else
      var n := |solutions| - 1;
      SentSolutions(connected, solutions[..n], answers[..n])
      + if OpenAfter(connected, answers[..n]) && answers[n] != SendFails then [solutions[n]] else []
  }

  lemma OpenAtFirst(connected: bool, answers: seq<Answer>)
    requires answers == []
    ensures OpenAfter(connected, answers) == connected
  {
  }

  lemma OpenNext(connected: bool, answers: seq<Answer>)
    requires answers != []
    ensures var n := |answers| - 1;
            OpenAfter(connected, answers) <==> OpenAfter(connected, answers[..n]) && answers[n] != Closed
  {
    var n := |answers| - 1;
    assert answers == answers[..n] + [answers[n]];
  }

  /** The two 32-bit counters after a replies have accepted and r solutions have not been accepted. */
  predicate Counted(e: Engine, a: nat, r: nat) {
    e.acceptedShares == a % U32 && e.rejectedShares == r % U32
  }

  lemma CountAnswerCounts(s: State, jobId: string, solution: Solution, answer: Answer, a: nat, r: nat)
    requires Counted(s.engine, a, r)
    ensures var t := CountAnswer(s, jobId, solution, answer);
            && (if s.client.connected && answer == Reply(true) then Counted(t.engine, a + 1, r)
                else Counted(t.engine, a, r + 1))
            && t.client.connected == (s.client.connected && answer != Closed)
            && t.client.currentJob == s.client.currentJob
            && t.client.sent == s.client.sent
                 + if s.client.connected && answer != SendFails then [ShareOf(s.client, jobId, solution)] else []
  {
    hide ShareOf;
    ReduceModulo(a, 1, U32);
    ReduceModulo(r, 1, U32);
  }

  /** Of a batch of solutions as many count as accepted as there are accepting replies on the open
      connection, and all others as rejected. */
  lemma {:induction false} AnswersCounted(s: State, jobId: string, solutions: seq<Solution>, answers: seq<Answer>,
                                          a: nat, r: nat)
    requires |answers| == |solutions| && Counted(s.engine, a, r)
    ensures AcceptingReplies(s.client.connected, answers) <= |solutions|
    ensures var t := ProcessSolutions(s, jobId, solutions, answers);
            var accepting := AcceptingReplies(s.client.connected, answers);
            && Counted(t.engine, a + accepting, r + (|solutions| - accepting))
            && t.client.connected == OpenAfter(s.client.connected, answers)
    decreases |solutions|
  {
    hide CountAnswer, Counted, OpenAfter;
    if solutions == [] {
      OpenAtFirst(s.client.connected, answers);
    } else {
      var n := |solutions| - 1;
      AnswersCounted(s, jobId, solutions[..n], answers[..n], a, r);
      OpenNext(s.client.connected, answers);
      var t := ProcessSolutions(s, jobId, solutions[..n], answers[..n]);
      var accepting := AcceptingReplies(s.client.connected, answers[..n]);
      CountAnswerCounts(t, jobId, solutions[n], answers[n], a + accepting, r + (n - accepting));
    }
  }

  /** The share carries the nonce and the mix digest of its solution. */
  predicate Carries(share: Share, solution: Solution) {
    var mix: seq<Octets.Octet> := solution.mixHash;
    && HexUtils.ParseUint64(share.nonce) == Some(solution.nonce)
    && HexUtils.ParseHash(share.mix, 32) == Some(mix)
  }

  lemma ShareCarries(c: Client, jobId: string, solution: Solution)
    requires solution.nonce < U64
    ensures Carries(ShareOf(c, jobId, solution), solution)
    ensures ShareOf(c, jobId, solution).id == c.messageId
  {
    hide HexUtils.PrintNonce, HexUtils.PrintHash, HexUtils.ParseUint64, HexUtils.ParseHash;
    HexUtils.NonceRoundTrip(solution.nonce);
    HexUtils.HashRoundTrip(solution.mixHash, true);
  }

  /** The shares a batch adds are those of the solutions sent, one each, in their order. */
  lemma {:induction false} SharesInOrder(s: State, jobId: string, solutions: seq<Solution>, answers: seq<Answer>)
    requires |answers| == |solutions|
    requires forall i | 0 <= i < |solutions| :: solutions[i].nonce < U64
    ensures var t, sent := ProcessSolutions(s, jobId, solutions, answers),
                           SentSolutions(s.client.connected, solutions, answers);
            && t.client.connected == OpenAfter(s.client.connected, answers)
            && |t.client.sent| == |s.client.sent| + |sent|
            && forall i | 0 <= i < |sent| :: Carries(t.client.sent[|s.client.sent| + i], sent[i])
    decreases |solutions|
  {
    hide CountAnswer, OpenAfter, Carries, ShareOf;
    if solutions == [] {
      OpenAtFirst(s.client.connected, answers);
    } else {
      var n := |solutions| - 1;
      SharesInOrder(s, jobId, solutions[..n], answers[..n]);
      OpenNext(s.client.connected, answers);
      var t := ProcessSolutions(s, jobId, solutions[..n], answers[..n]);
      AnswerSends(t, jobId, solutions[n], answers[n]);
    }
  }

  lemma AnswerSends(s: State, jobId: string, solution: Solution, answer: Answer)
    requires solution.nonce < U64
    ensures var t := CountAnswer(s, jobId, solution, answer);
            && t.client.connected == (s.client.connected && answer != Closed)
            && t.client.messageId == (if s.client.connected then (s.client.messageId + 1) % U64 else s.client.messageId)
            && (if s.client.connected && answer != SendFails
                then |t.client.sent| == |s.client.sent| + 1 && t.client.sent[..|s.client.sent|] == s.client.sent
                     && t.client.sent[|s.client.sent|].id == s.client.messageId
                     && Carries(t.client.sent[|s.client.sent|], solution)
                else t.client.sent == s.client.sent)
  {
    hide ShareOf, Carries;
    ShareCarries(s.client, jobId, solution);
  }

  // ---------------------------------------------------------------- whole runs

  /** The answers an event brings. */
  ghost predicate Submits(s: State, e: Event) {
    !s.ended && e.Mined? && s.engine.hasJob && s.engine.lastDifficulty != 0
  }

  ghost function RepliesAccepting(s: State, events: seq<Event>): nat
    requires Valid(s, events)
    decreases |events|
  {
    if events == [] then 0 else
      var n := |events| - 1;
      var before := Run(s, events[..n]);
      RepliesAccepting(s, events[..n])
      + if Submits(before, events[n]) then AcceptingReplies(before.client.connected, events[n].answers) else 0
  }

  ghost function SolutionsFound(s: State, events: seq<Event>): nat
    requires Valid(s, events)
    decreases |events|
  {
    if events == [] then 0 else
      var n := |events| - 1;
      SolutionsFound(s, events[..n]) + if Submits(Run(s, events[..n]), events[n]) then |events[n].solutions| else 0
  }

  lemma StepCounted(s: State, e: Event, a: nat, r: nat)
    requires Possible(s, e) && Counted(s.engine, a, r)
    ensures if Submits(s, e)
            then var accepting := AcceptingReplies(s.client.connected, e.answers);
                 accepting <= |e.solutions| && Counted(Step(s, e).engine, a + accepting, r + (|e.solutions| - accepting))
            else Counted(Step(s, e).engine, a, r)
  {
    hide Receive, ProcessSolutions, SearchReturns, AcceptingReplies;
    match e
    case Received(m, luck) => ReceiveSendsNothing(s, m, luck);
    case Mined(solutions, answers) =>
      AnswersCounted(s, s.engine.currentJob.jobId, solutions, answers, a, r);
    case Register =>
  }

  lemma FreshCounted(s: State)
    requires Fresh(s)
    ensures Counted(s.engine, 0, 0)
  {
  }

  /** In every run the first counter is the number of accepting replies and the second the number of all
      other solutions found, each modulo 2^32. */
  lemma {:induction false} SharesAccounted(s: State, events: seq<Event>)
    requires Fresh(s) && Valid(s, events)
    ensures RepliesAccepting(s, events) <= SolutionsFound(s, events)
    ensures Counted(Run(s, events).engine, RepliesAccepting(s, events),
                    SolutionsFound(s, events) - RepliesAccepting(s, events))
    decreases |events|
  {
    hide Fresh, Counted, Step, Possible, Submits, AcceptingReplies;
    if events == [] {
      FreshCounted(s);
    } else {
      var n := |events| - 1;
      SharesAccounted(s, events[..n]);
      var a := RepliesAccepting(s, events[..n]);
      StepCounted(Run(s, events[..n]), events[n], a, SolutionsFound(s, events[..n]) - a);
    }
  }
}
