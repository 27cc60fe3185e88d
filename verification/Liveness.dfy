/** What holds over whole runs of the training protocol: rounds are never
    rewritten, every run comes to rest, and it comes to rest with every client
    finished exactly when no aggregation raised. */
module Liveness {
  import opened Results
  import opened FedAvg
  import opened Coordinator
  import opened Protocol

  // ----- history -----

  /** t is at least as far as s, and keeps every round that s has completed. */
  ghost predicate Extends(t: State, s: State) {
    && s.round <= t.round
    && forall q: nat :: q < s.round ==> t.Entries(q) == s.Entries(q)
  }

  lemma StepKeepsHistory(s: System, a: Action, t: System)
    requires Inv(s) && Enabled(s, a) && t == Perform(s, a)
    ensures Extends(t.server, s.server)
  {
    if a.Upload? {
      HolderIsCurrent(s, a.client, Stored(a.parameters, a.numExamples));
      if !Stuck(s) { StoringKeepsServer(s, a.client, a.parameters, a.numExamples); }
      assert ClientInv(s, a.client);
    }
  }

  lemma ExtendsTransitive(u: State, t: State, s: State)
    requires Extends(u, t) && Extends(t, s)
    ensures Extends(u, s)
  {
  }

  lemma RunStepExtends(states: seq<System>, actions: seq<Action>, k: nat)
    requires IsRun(states, actions) && k < |actions|
    ensures Extends(states[k + 1].server, states[k].server)
  {
    RunKeepsInv(states, actions, k);
    StepKeepsHistory(states[k], actions[k], states[k + 1]);
  }

  lemma {:induction false} ChainExtends(servers: seq<State>, j: nat, k: nat)
    requires forall i :: 0 <= i < |servers| - 1 ==> Extends(servers[i + 1], servers[i])
    requires j <= k < |servers|
    ensures Extends(servers[k], servers[j])
    decreases k - j
  {
    if j < k {
      ChainExtends(servers, j, k - 1);
      ExtendsTransitive(servers[k], servers[k - 1], servers[j]);
    }
  }

  /** Later states keep every round that earlier states have completed. */
  lemma RunKeepsHistory(states: seq<System>, actions: seq<Action>, j: nat, k: nat)
    requires IsRun(states, actions) && j <= k < |states|
    ensures Extends(states[k].server, states[j].server)
  {
    var servers := seq(|states|, i requires 0 <= i < |states| => states[i].server);
    forall i | 0 <= i < |servers| - 1 ensures Extends(servers[i + 1], servers[i]) {
      RunStepExtends(states, actions, i);
    }
    ChainExtends(servers, j, k);
  }

  lemma HeldParameters(states: seq<System>, actions: seq<Action>, j: nat, k: nat, a: nat)
    requires IsRun(states, actions) && j <= k < |states|
    requires a < |states[j].clients| && states[j].clients[a].Holding?
    ensures states[j].clients[a].parameters == RoundParameters(states[k], states[j].clients[a].round)
  {
    RunKeepsInv(states, actions, j);
    RunKeepsInv(states, actions, k);
    RunKeepsHistory(states, actions, j, k);
    assert ClientInv(states[j], a);
  }

  /** Any two clients that ever train for the same round start from the same
      parameters: the initial ones, or the average of the round before. */
  lemma SameRoundSameParameters(states: seq<System>, actions: seq<Action>, j: nat, k: nat, a: nat, b: nat)
    requires IsRun(states, actions) && j <= k < |states|
    requires a < |states[j].clients| && states[j].clients[a].Holding?
    requires b < |states[k].clients| && states[k].clients[b].Holding?
    requires states[j].clients[a].round == states[k].clients[b].round
    ensures states[j].clients[a].parameters == states[k].clients[b].parameters
    ensures states[k].clients[b].parameters == RoundParameters(states[k], states[k].clients[b].round)
  {
    HeldParameters(states, actions, j, k, a);
    HeldParameters(states, actions, k, k, b);
  }

  // ----- the measure -----

  function Rank(c: Client): nat {
    match c
    case Waiting(_, _) => 3
    case Idle => 2
    case Holding(_, _) => 1
    case _ => 0
  }

  function TotalRank(clients: seq<Client>): nat {
    if clients == [] then 0 else TotalRank(clients[..|clients| - 1]) + Rank(clients[|clients| - 1])
  }

  function RoundsLeft(s: State): nat {
    if s.rounds > s.round then s.rounds - s.round else 0
  }

  function Measure(s: System): int {
    3 * |s.clients| * RoundsLeft(s.server)
    + 3 * (|s.clients| - |s.server.Entries(s.server.round)|)
    + TotalRank(s.clients)
  }

  lemma {:induction false} TotalRankUpdate(clients: seq<Client>, i: nat, c: Client)
    requires i < |clients|
    ensures TotalRank(clients[i := c]) == TotalRank(clients) - Rank(clients[i]) + Rank(c)
  {
    var last := |clients| - 1;
    if i == last {
      assert clients[i := c][..last] == clients[..last];
    } else {
      assert clients[i := c][..last] == clients[..last][i := c];
      TotalRankUpdate(clients[..last], i, c);
    }
  }

  lemma {:induction false} TotalRankNotified(clients: seq<Client>)
    ensures TotalRank(NotifyAll(clients)) == TotalRank(clients)
  {
    if clients != [] {
      assert NotifyAll(clients)[..|clients| - 1] == NotifyAll(clients[..|clients| - 1]);
      TotalRankNotified(clients[..|clients| - 1]);
    }
  }

  lemma RoundTimes(n: nat, left: int)
    ensures 3 * n * (left - 1) == 3 * n * left - 3 * n
  {
  }

  lemma AdvanceDecreases(s: System, i: nat, parameters: seq<Tensor>, numExamples: int)
    requires Inv(s) && Enabled(s, Upload(i, parameters, numExamples)) && !Stuck(s)
    requires |s.server.Entries(s.server.round)| + 1 == |s.clients|
    requires Aggregate(Values(Storing(s, i, Stored(parameters, numExamples)).Entries(s.server.round))).Ok?
    ensures Measure(Perform(s, Upload(i, parameters, numExamples))) < Measure(s)
  {
    var t := Perform(s, Upload(i, parameters, numExamples));
    AdvanceKeepsInv(s, i, parameters, numExamples);
    assert RoundsLeft(t.server) == RoundsLeft(s.server) - 1 by { assert ClientInv(s, i); }
    assert TotalRank(t.clients) <= TotalRank(s.clients) + 1 by {
      TotalRankNotified(s.clients);
      TotalRankUpdate(NotifyAll(s.clients), i, After(t.server.Done()));
    }
    assert |t.clients| == |s.clients|;
    RoundTimes(|s.clients|, RoundsLeft(s.server));
  }

  /** Storing an update that does not complete a successful round. */
  lemma StoringDecreases(s: System, i: nat, parameters: seq<Tensor>, numExamples: int, c: Client)
    requires Inv(s) && Enabled(s, Upload(i, parameters, numExamples)) && !Stuck(s)
    ensures Measure(s.(server := Storing(s, i, Stored(parameters, numExamples)), clients := s.clients[i := c]))
            == Measure(s) - 3 - 1 + Rank(c)
  {
    var server := Storing(s, i, Stored(parameters, numExamples));
    StoringKeepsServer(s, i, parameters, numExamples);
    TotalRankUpdate(s.clients, i, c);
    assert RoundsLeft(server) == RoundsLeft(s.server);
    assert |server.Entries(server.round)| == |s.server.Entries(s.server.round)| + 1;
  }

  lemma UploadDecreases(s: System, i: nat, parameters: seq<Tensor>, numExamples: int)
    requires Inv(s) && Enabled(s, Upload(i, parameters, numExamples))
    ensures Measure(Perform(s, Upload(i, parameters, numExamples))) < Measure(s)
  {
    if Stuck(s) {
      RefusedKeepsInv(s, i, parameters, numExamples);
      TotalRankUpdate(s.clients, i, Raised);
    } else {
      StoringKeepsServer(s, i, parameters, numExamples);
      var entries := Storing(s, i, Stored(parameters, numExamples)).Entries(s.server.round);
      if |entries| < |s.clients| {
        BlockedKeepsInv(s, i, parameters, numExamples);
        StoringDecreases(s, i, parameters, numExamples, Waiting(s.server.round, false));
      } else if Aggregate(Values(entries)).Err? {
        FailedKeepsInv(s, i, parameters, numExamples);
        StoringDecreases(s, i, parameters, numExamples, Raised);
      } else {
        AdvanceDecreases(s, i, parameters, numExamples);
      }
    }
  }

  /** Every step either is a spurious wakeup that changes nothing, or brings
      the system closer to rest. */
  lemma StepDecreases(s: System, a: Action)
    requires Inv(s) && Enabled(s, a)
    ensures Measure(Perform(s, a)) < Measure(s) || (Spurious(s, a) && !Stuck(s) && Perform(s, a) == s)
  {
    var i := a.client;
    assert ClientInv(s, i);
    match a {
      case Download(_) =>
        TotalRankUpdate(s.clients, i, Perform(s, a).clients[i]);
      case Upload(_, parameters, numExamples) =>
        UploadDecreases(s, i, parameters, numExamples);
      case Awaken(_) =>
        if s.clients[i].notified { ReleasedReturnsNextRound(s, i); } else { SpuriousWakeup(s, i); }
        TotalRankUpdate(s.clients, i, Perform(s, a).clients[i]);
    }
  }

  /** How many of the first k steps change the state. */
  ghost function Changes(states: seq<System>, k: nat): nat
    requires k < |states|
  {
    if k == 0 then 0 else Changes(states, k - 1) + if states[k] != states[k - 1] then 1 else 0
  }

  lemma {:induction false} ChangesPaidFor(states: seq<System>, actions: seq<Action>, k: nat)
    requires IsRun(states, actions) && k < |states|
    ensures Changes(states, k) + Measure(states[k]) <= Measure(states[0])
  {
    if k > 0 {
      ChangesPaidFor(states, actions, k - 1);
      RunKeepsInv(states, actions, k - 1);
      StepDecreases(states[k - 1], actions[k - 1]);
    }
  }

  lemma {:induction false} IdleRank(n: nat)
    ensures TotalRank(seq(n, i => Idle)) == 2 * n
  {
    if n > 0 {
      assert seq(n, i => Idle)[..n - 1] == seq(n - 1, i => Idle);
      IdleRank(n - 1);
    }
  }

  /** In every run, however it is scheduled, at most 3*n*rounds + 5*n steps
      change the state; all the others are spurious wakeups without effect. */
  lemma RunsAreBounded(states: seq<System>, actions: seq<Action>)
    requires IsRun(states, actions)
    ensures var n, left := |states[0].clients|, RoundsLeft(states[0].server);
            Changes(states, |actions|) <= 3 * n * left + 5 * n
  {
    ChangesPaidFor(states, actions, |actions|);
    RunKeepsInv(states, actions, |actions|);
    MeasureNonNegative(states[|actions|]);
    StartMeasure(states[0].initial, states[0].server.rounds, |states[0].clients|);
  }

  lemma MeasureNonNegative(s: System)
    requires Inv(s)
    ensures Measure(s) >= 0
  {
    hide Inv, TotalRank, RoundsLeft;
    EntriesBounded(s);
    assert |s.clients| * RoundsLeft(s.server) >= 0;
  }

  lemma EntriesBounded(s: System)
    requires Inv(s)
    ensures |s.server.Entries(s.server.round)| <= |s.clients|
  {
  }

  lemma StartMeasure(parameters: seq<Tensor>, rounds: int, n: nat)
    ensures Measure(Start(parameters, rounds, n)) == 3 * n * RoundsLeft(Start(parameters, rounds, n).server) + 5 * n
  {
    IdleRank(n);
  }

  // ----- progress -----

  ghost predicate AllFinished(s: System) {
    forall i :: 0 <= i < |s.clients| ==> s.clients[i].Finished?
  }

  /** Local training keeps the shape of every tensor. */
  predicate KeepsShapes(s: System, a: Action)
    requires Enabled(s, a)
  {
    a.Upload? ==> SameShapes(a.parameters, s.clients[a.client].parameters)
  }

  /** A step that does not rely on a spurious wakeup. */
  ghost predicate RealStep(s: System, a: Action) {
    Enabled(s, a) && !Spurious(s, a) && KeepsShapes(s, a)
  }

  /** No deadlock: until every client has finished, some client can take a
      step that does not rely on a spurious wakeup, unless fedavg has raised. */
  lemma NoDeadlock(s: System)
    requires Inv(s) && !Stuck(s) && !AllFinished(s)
    ensures exists a :: RealStep(s, a)
  {
    var n := |s.clients|;
    if i :| 0 <= i < n && s.clients[i].Idle? {
      assert RealStep(s, Download(i));
    } else if i :| 0 <= i < n && s.clients[i].Holding? {
      assert ClientInv(s, i);
      assert RealStep(s, Upload(i, s.clients[i].parameters, 1));
    } else if i :| 0 <= i < n && s.clients[i].Waiting? && s.clients[i].notified {
      assert RealStep(s, Awaken(i));
    } else {
      var i :| 0 <= i < n && !s.clients[i].Finished?;
      assert ClientInv(s, i) && s.clients[i].Waiting?;
      var entries := s.server.Entries(s.server.round);
      forall j | 0 <= j < n ensures Submitted(entries, j) { assert ClientInv(s, j); }
      EveryoneIsComplete(entries, n);
      assert false;
    }
  }

  /** When every client has finished, all rounds are done and every round holds
      exactly one update per client. */
  lemma FinishedMeansComplete(s: System)
    requires Inv(s) && AllFinished(s)
    ensures s.server.round == if s.server.rounds > 0 then s.server.rounds else 0
    ensures forall q :: 0 <= q < s.server.rounds ==> Complete(s.server.Entries(q), |s.clients|)
    ensures forall q :: q >= s.server.rounds && q >= 0 ==> s.server.Entries(q) == []
  {
    assert ClientInv(s, 0);
  }

  // ----- shapes, and what happens when they disagree -----

  /** The updates of the current round fit the parameters it started from. */
  ghost predicate ShapesFit(s: System) {
    forall k :: 0 <= k < |s.server.Entries(s.server.round)| ==>
      SameShapes(s.server.Entries(s.server.round)[k].update.parameters, s.server.global)
  }

  lemma FittingUpdatesAggregate(entries: seq<Entry>, global: seq<Tensor>)
    requires entries != [] && AllValid(Values(entries))
    requires forall k :: 0 <= k < |entries| ==> SameShapes(entries[k].update.parameters, global)
    ensures Aggregate(Values(entries)).Ok?
  {
    AggregateSucceeds(Values(entries));
  }

  /** While local training keeps shapes, fedavg never raises. */
  lemma StepKeepsShapes(s: System, a: Action)
    requires Inv(s) && !Stuck(s) && ShapesFit(s) && Enabled(s, a) && KeepsShapes(s, a)
    ensures Inv(Perform(s, a)) && !Stuck(Perform(s, a)) && ShapesFit(Perform(s, a))
  {
    StepKeepsInv(s, a);
    assert ClientInv(s, a.client);
    if a.Upload? {
      var i, parameters, numExamples := a.client, a.parameters, a.numExamples;
      StoringKeepsServer(s, i, parameters, numExamples);
      var entries := Storing(s, i, Stored(parameters, numExamples)).Entries(s.server.round);
      if |entries| < |s.clients| {
        BlockedKeepsInv(s, i, parameters, numExamples);
      } else {
        assert s.server.round in Storing(s, i, Stored(parameters, numExamples)).updates;
        FittingUpdatesAggregate(entries, s.server.global);
        AdvanceKeepsInv(s, i, parameters, numExamples);
      }
    }
  }

  ghost predicate IsShapeKeepingRun(states: seq<System>, actions: seq<Action>) {
    IsRun(states, actions) && forall k :: 0 <= k < |actions| ==> KeepsShapes(states[k], actions[k])
  }

  lemma {:induction false} ShapeKeepingRunNeverStuck(states: seq<System>, actions: seq<Action>, k: nat)
    requires IsShapeKeepingRun(states, actions) && k < |states|
    ensures Inv(states[k]) && !Stuck(states[k]) && ShapesFit(states[k])
    ensures forall i :: 0 <= i < |states[k].clients| ==> !states[k].clients[i].Raised?
  {
    if k == 0 {
      RunKeepsInv(states, actions, 0);
    } else {
      ShapeKeepingRunNeverStuck(states, actions, k - 1);
      StepKeepsShapes(states[k - 1], actions[k - 1]);
    }
    forall i | 0 <= i < |states[k].clients| ensures !states[k].clients[i].Raised? { assert ClientInv(states[k], i); }
  }

  /** After fedavg has raised nothing changes the server any more: the global
      parameters and the round stay, and no client ever finishes. */
  lemma StuckForever(s: System, a: Action)
    requires Inv(s) && Stuck(s) && Enabled(s, a)
    ensures Perform(s, a).server == s.server && Stuck(Perform(s, a))
    ensures forall i :: 0 <= i < |s.clients| ==> !Perform(s, a).clients[i].Finished?
  {
    StepKeepsInv(s, a);
    if a.Upload? { RefusedKeepsInv(s, a.client, a.parameters, a.numExamples); }
    var t := Perform(s, a);
    forall i | 0 <= i < |s.clients| ensures !t.clients[i].Finished? { assert ClientInv(t, i); }
  }

  /** The upload completes the round, and its updates differ in their number of
      tensors or in some shape. */
  predicate Disagrees(s: System, a: Action)
    requires Enabled(s, a)
  {
    && a.Upload?
    && |s.server.Entries(s.server.round)| == |s.clients| - 1
    && !ShapesAgree(Values(s.server.Entries(s.server.round) + [Entry(a.client, Stored(a.parameters, a.numExamples))]))
  }

  /** A step gets the system stuck exactly when it uploads the last update of a
      round whose updates disagree. */
  lemma StuckExactlyByDisagreement(s: System, a: Action)
    requires Inv(s) && !Stuck(s) && Enabled(s, a)
    ensures Stuck(Perform(s, a)) <==> Disagrees(s, a)
  {
    assert ClientInv(s, a.client);
    if a.Upload? {
      var i, parameters, numExamples := a.client, a.parameters, a.numExamples;
      StoringKeepsServer(s, i, parameters, numExamples);
      var entries := Storing(s, i, Stored(parameters, numExamples)).Entries(s.server.round);
      if |entries| == |s.clients| {
        assert s.server.round in Storing(s, i, Stored(parameters, numExamples)).updates;
        AggregateSucceeds(Values(entries));
        if Aggregate(Values(entries)).Ok? { AdvanceKeepsInv(s, i, parameters, numExamples); }
      }
    }
  }

  /** A run is stuck exactly when some earlier step completed a round whose
      updates disagree. */
  lemma {:induction false} RunStuckExactly(states: seq<System>, actions: seq<Action>, k: nat)
    requires IsRun(states, actions) && k < |states|
    ensures Stuck(states[k]) <==> exists j :: 0 <= j < k && Disagrees(states[j], actions[j])
  {
    hide Inv, Enabled, Perform, Disagrees;
    if k == 0 {
      RunKeepsInv(states, actions, 0);
      StartNotStuck(states[0].initial, states[0].server.rounds, |states[0].clients|);
    } else {
      RunStuckExactly(states, actions, k - 1);
      RunKeepsInv(states, actions, k - 1);
      if Stuck(states[k - 1]) {
        StuckForever(states[k - 1], actions[k - 1]);
      } else {
        StuckExactlyByDisagreement(states[k - 1], actions[k - 1]);
      }
    }
  }

  lemma StartNotStuck(parameters: seq<Tensor>, rounds: int, n: nat)
    requires n >= 1
    ensures !Stuck(Start(parameters, rounds, n))
  {
  }

  /** Training in which the updates of every round agree either has finished,
      with one update per client in every round, or can take a real step; with
      the bound on steps, it therefore always finishes. */
  lemma TrainingFinishes(states: seq<System>, actions: seq<Action>)
    requires IsRun(states, actions) && forall k :: 0 <= k < |actions| ==> !Disagrees(states[k], actions[k])
    ensures var s := states[|actions|];
            if AllFinished(s)
            then forall q :: 0 <= q < s.server.rounds ==> Complete(s.server.Entries(q), |s.clients|)
            else exists a :: RealStep(s, a) && Measure(Perform(s, a)) < Measure(s)
  {
    var s := states[|actions|];
    RunStuckExactly(states, actions, |actions|);
    RunKeepsInv(states, actions, |actions|);
    if AllFinished(s) {
      FinishedMeansComplete(s);
    } else {
      NoDeadlock(s);
      var a :| RealStep(s, a);
      StepDecreases(s, a);
    }
  }

  /** In particular, the updates of a run agree when local steps keep shapes. */
  lemma ShapeKeepingRunsAgree(states: seq<System>, actions: seq<Action>, k: nat)
    requires IsShapeKeepingRun(states, actions) && k < |actions|
    ensures !Disagrees(states[k], actions[k])
  {
    ShapeKeepingRunNeverStuck(states, actions, k);
    ShapeKeepingRunNeverStuck(states, actions, k + 1);
    StuckExactlyByDisagreement(states[k], actions[k]);
  }

  /** Two clients train one round from no tensors; one uploads a tensor. */
  lemma DisagreeingRun() returns (states: seq<System>, actions: seq<Action>)
    ensures IsRun(states, actions) && |states[0].clients| == 2 && Stuck(states[|actions|])
    ensures states[|actions|].clients == [Waiting(0, false), Raised]
  {
    var tensor := Tensor([], Real, [0.0]);
    assert tensor.Valid();
    actions := [Download(0), Download(1), Upload(0, [tensor], 1), Upload(1, [], 1)];
    var s0 := System([], State(1, 2, 0, [], map[]), [Idle, Idle]);
    assert s0 == Start([], 1, 2);
    var s1 := s0.(clients := [Holding(0, []), Idle]);
    var s2 := s0.(clients := [Holding(0, []), Holding(0, [])]);
    assert Perform(s0, actions[0]) == s1 && Perform(s1, actions[1]) == s2;
    var first, second := Entry(0, Stored([tensor], 1)), Entry(1, Stored([], 1));
    var s3 := s2.(server := s2.server.(updates := map[0 := [first]]), clients := [Waiting(0, false), Holding(0, [])]);
    assert [] + [first] == [first] && [first] + [second] == [first, second];
    assert Perform(s2, actions[2]) == s3;
    var s4 := s3.(server := s3.server.(updates := map[0 := [first, second]]), clients := [Waiting(0, false), Raised]);
    var values := Values([first, second]);
    assert |values[0].parameters| == 1 && |values[1].parameters| == 0;
    assert Perform(s3, actions[3]) == s4;
    states := [s0, s1, s2, s3, s4];
  }

  /** No step, spurious or not, changes the state. */
  ghost predicate AtRest(s: System) {
    forall a :: Enabled(s, a) ==> Perform(s, a) == s
  }

  /** A system at rest has finished exactly when no aggregation raised. */
  lemma RestIsFinishedIffNotStuck(s: System)
    requires Inv(s) && AtRest(s)
    ensures AllFinished(s) <==> !Stuck(s)
  {
    if !Stuck(s) && !AllFinished(s) {
      NoDeadlock(s);
      var a :| RealStep(s, a);
      StepDecreases(s, a);
    }
    if Stuck(s) { assert ClientInv(s, 0); }
  }
}
