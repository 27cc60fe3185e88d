/** The whole of synchronous federated training: the coordinator together with
    one training loop per client (ai_fingerprint/client.py, the loop of
    _run_federated_training), under every interleaving of their critical
    sections and with spurious wakeups of the condition. */
module Protocol {
  import opened Results
  import opened FedAvg
  import opened Coordinator

  /** Where a client is in its loop. */
  datatype Client =
    | Idle                                              // about to download
    | Holding(round: nat, parameters: seq<Tensor>)      // training, about to upload
    | Waiting(round: nat, notified: bool)               // inside submit_update, on the condition
    | Finished                                          // left the loop on done
    | Raised                                            // left the loop on an exception

  datatype System = System(initial: seq<Tensor>, server: State, clients: seq<Client>)

  datatype Action =
    | Download(client: nat)
    | Upload(client: nat, parameters: seq<Tensor>, numExamples: int)
    | Awaken(client: nat)

  predicate Enabled(s: System, a: Action) {
    && a.client < |s.clients|
    && match a
       case Download(i) => s.clients[i].Idle?
       case Upload(i, parameters, _) => s.clients[i].Holding? && ClientUpdate(parameters, 1).Valid()
       case Awaken(i) => s.clients[i].Waiting?
  }

  /** A wakeup that no notify_all caused. */
  predicate Spurious(s: System, a: Action)
    requires Enabled(s, a)
  {
    a.Awaken? && !s.clients[a.client].notified
  }

  function After(done: bool): Client {
    if done then Finished else Idle
  }

  function Notified(c: Client): Client {
    if c.Waiting? then c.(notified := true) else c
  }

  /** notify_all. */
  function NotifyAll(clients: seq<Client>): seq<Client> {
    seq(|clients|, i requires 0 <= i < |clients| => Notified(clients[i]))
  }

  function Perform(s: System, a: Action): System
    requires Enabled(s, a)
  {
    var i := a.client;
    match a
    case Download(_) =>
      s.(clients := s.clients[i := if s.server.Done() then Finished else Holding(s.server.round, s.server.global)])
    case Upload(_, parameters, numExamples) =>
      var (server, outcome) := Arrive(s.server, s.clients[i].round, i, Stored(parameters, numExamples));
      match outcome {
        case Blocked => s.(server := server, clients := s.clients[i := Waiting(s.clients[i].round, false)])
        case Returned(_, done) =>
          var others := if server.round != s.server.round then NotifyAll(s.clients) else s.clients;
          s.(server := server, clients := others[i := After(done)])
        case _ => s.(server := server, clients := s.clients[i := Raised])
      }
    case Awaken(_) =>
      match Wake(s.server, s.clients[i].round)
      case Returned(_, done) => s.(clients := s.clients[i := After(done)])
      case _ => s.(clients := s.clients[i := Waiting(s.clients[i].round, false)])
  }

  function Start(parameters: seq<Tensor>, rounds: int, n: nat): System {
    System(parameters, State(rounds, n, 0, parameters, map[]), seq(n, i => Idle))
  }

  /** A run: the states passed through, starting from the first. */
  ghost predicate IsRun(states: seq<System>, actions: seq<Action>) {
    && |states| == |actions| + 1
    && ClientUpdate(states[0].initial, 1).Valid()
    && |states[0].clients| >= 1
    && states[0] == Start(states[0].initial, states[0].server.rounds, |states[0].clients|)
    && forall k :: 0 <= k < |actions| ==>
         Enabled(states[k], actions[k]) && states[k + 1] == Perform(states[k], actions[k])
  }

  // ----- what every step keeps -----

  /** No client appears twice, and all are clients of the system. */
  predicate OneEach(entries: seq<Entry>, n: nat) {
    && (forall k :: 0 <= k < |entries| ==> entries[k].client < n)
    && (forall j, k :: 0 <= j < k < |entries| ==> entries[j].client != entries[k].client)
  }

  /** Every client of the system appears exactly once. */
  predicate Complete(entries: seq<Entry>, n: nat) {
    OneEach(entries, n) && |entries| == n
  }

  /** All updates of the current round are in and yet the round has not
      advanced: fedavg has raised. */
  predicate Stuck(s: System) {
    |s.server.Entries(s.server.round)| == |s.clients|
  }

  /** The parameters that round q starts from. */
  function RoundParameters(s: System, q: nat): seq<Tensor> {
    if q == 0 then s.initial else
    match Aggregate(Values(s.server.Entries(q - 1)))
    case Ok(average) => average
    case Err(_) => []
  }

  ghost predicate ServerInv(s: System) {
    var server, n := s.server, |s.clients|;
    && server.Valid() && ClientUpdate(s.initial, 1).Valid()
    && n >= 1 && server.expectedClients == n
    && (server.round == 0 || server.round <= server.rounds)
    && (forall q: nat :: q < server.round ==>
          Complete(server.Entries(q), n) && Aggregate(Values(server.Entries(q))).Ok?)
    && OneEach(server.Entries(server.round), n) && |server.Entries(server.round)| <= n
    && (server.Done() ==> server.Entries(server.round) == [])
    && (forall q :: q > server.round ==> server.Entries(q) == [])
    && (Stuck(s) ==> Aggregate(Values(server.Entries(server.round))).Err?)
    && server.global == RoundParameters(s, server.round)
  }

  ghost predicate ClientInv(s: System, i: nat)
    requires i < |s.clients|
  {
    var server := s.server;
    var submitted := Submitted(server.Entries(server.round), i);
    match s.clients[i]
    case Idle => !submitted || Stuck(s)
    case Holding(q, parameters) =>
      q == server.round && !server.Done() && parameters == server.global && (!submitted || Stuck(s))
    case Waiting(q, notified) =>
      if notified then q + 1 == server.round && !submitted else q == server.round && submitted
    case Finished => server.Done()
    case Raised => Stuck(s)
  }

  ghost predicate Inv(s: System) {
    ServerInv(s) && forall i :: 0 <= i < |s.clients| ==> ClientInv(s, i)
  }

  // ----- counting clients -----

  function Below(n: nat): (r: set<nat>)
    ensures |r| == n
    ensures forall i: nat :: i in r <==> i < n
  {
    if n == 0 then {} else Below(n - 1) + {n - 1}
  }

  function ClientsOf(entries: seq<Entry>): (r: set<nat>)
    ensures forall i :: i in r <==> Submitted(entries, i)
  {
    if entries == [] then {} else
    var before := entries[..|entries| - 1];
    assert forall i :: Submitted(before, i) ==> Submitted(entries, i);
    ClientsOf(before) + {entries[|entries| - 1].client}
  }

  lemma {:induction false} CountClients(entries: seq<Entry>, n: nat)
    requires OneEach(entries, n)
    ensures |ClientsOf(entries)| == |entries|
  {
    if entries != [] {
      CountClients(entries[..|entries| - 1], n);
      assert entries[|entries| - 1].client !in ClientsOf(entries[..|entries| - 1]);
    }
  }

  lemma SubsetOfSameSize(a: set<nat>, b: set<nat>)
    requires a <= b && |a| == |b|
    ensures a == b
  {
    assert |b - a| == |b| - |a|;
  }

  /** A round that holds n updates holds one of every client. */
  lemma CompleteHasEveryone(entries: seq<Entry>, n: nat, i: nat)
    requires Complete(entries, n) && i < n
    ensures Submitted(entries, i)
  {
    CountClients(entries, n);
    SubsetOfSameSize(ClientsOf(entries), Below(n));
    assert i in ClientsOf(entries);
  }

  lemma EveryoneIsComplete(entries: seq<Entry>, n: nat)
    requires OneEach(entries, n) && forall i :: 0 <= i < n ==> Submitted(entries, i)
    ensures |entries| == n
  {
    CountClients(entries, n);
    assert ClientsOf(entries) == Below(n) by {
      forall i: nat | i < n ensures i in ClientsOf(entries) {
        assert Submitted(entries, i);
      }
    }
  }

  // ----- safety -----

  lemma StartInv(parameters: seq<Tensor>, rounds: int, n: nat)
    requires n >= 1 && ClientUpdate(parameters, 1).Valid()
    ensures Inv(Start(parameters, rounds, n))
  {
  }

  /** A client that is about to upload is never stale; it is refused only as a
      duplicate of its own update, after fedavg has raised. */
  lemma HolderIsCurrent(s: System, i: nat, update: ClientUpdate)
    requires Inv(s) && i < |s.clients| && s.clients[i].Holding?
    ensures var outcome := Arrive(s.server, s.clients[i].round, i, update).1;
            !outcome.Stale? && (outcome.Duplicate? ==> Stuck(s))
            && (outcome.Returned? ==> outcome.round == s.clients[i].round + 1)
    ensures Stuck(s) ==> Submitted(s.server.Entries(s.server.round), i)
  {
    assert ClientInv(s, i);
    if Stuck(s) { CompleteHasEveryone(s.server.Entries(s.server.round), |s.clients|, i); }
  }

  /** A submitter released by notify_all returns exactly the next round, however
      late it wakes and whatever the others have done meanwhile. */
  lemma ReleasedReturnsNextRound(s: System, i: nat)
    requires Inv(s) && i < |s.clients| && s.clients[i].Waiting? && s.clients[i].notified
    ensures Wake(s.server, s.clients[i].round) == Returned(s.clients[i].round + 1, s.clients[i].round + 1 >= s.server.rounds)
  {
    assert ClientInv(s, i);
  }

  /** A wakeup without notification goes back to waiting, unless fedavg has
      raised; then the submitter returns the round it submitted for. */
  lemma SpuriousWakeup(s: System, i: nat)
    requires Inv(s) && i < |s.clients| && s.clients[i].Waiting? && !s.clients[i].notified
    ensures !Stuck(s) ==> Perform(s, Awaken(i)) == s
    ensures Stuck(s) ==> Wake(s.server, s.clients[i].round) == Returned(s.clients[i].round, false)
  {
    assert ClientInv(s, i);
    assert s.clients[i := s.clients[i]] == s.clients;
  }

  lemma EntriesOtherRound(s: State, q: int, entries: seq<Entry>)
    ensures forall p :: p != q ==> s.(updates := s.updates[q := entries]).Entries(p) == s.Entries(p)
    ensures s.(updates := s.updates[q := entries]).Entries(q) == entries
  {
  }

  lemma DownloadKeepsInv(s: System, i: nat)
    requires Inv(s) && Enabled(s, Download(i))
    ensures Inv(Perform(s, Download(i)))
  {
    var t := Perform(s, Download(i));
    assert ClientInv(s, i);
    assert t.server == s.server && |t.clients| == |s.clients|;
    assert Stuck(t) == Stuck(s);
    forall j | 0 <= j < |t.clients| ensures ClientInv(t, j) { assert ClientInv(s, j); }
    assert forall q: nat :: RoundParameters(t, q) == RoundParameters(s, q);
  }

  lemma AwakenKeepsInv(s: System, i: nat)
    requires Inv(s) && Enabled(s, Awaken(i))
    ensures Inv(Perform(s, Awaken(i)))
  {
    var t := Perform(s, Awaken(i));
    assert ClientInv(s, i);
    assert t.server == s.server && |t.clients| == |s.clients|;
    assert Stuck(t) == Stuck(s);
    if !s.clients[i].notified { SpuriousWakeup(s, i); }
    forall j | 0 <= j < |t.clients| ensures ClientInv(t, j) { assert ClientInv(s, j); }
    assert forall q: nat :: RoundParameters(t, q) == RoundParameters(s, q);
  }

  /** The state of the server after client i's update of its round is stored. */
  function Storing(s: System, i: nat, update: ClientUpdate): State {
    var q := s.server.round;
    s.server.(updates := s.server.updates[q := s.server.Entries(q) + [Entry(i, update)]])
  }

  lemma StoringKeepsServer(s: System, i: nat, parameters: seq<Tensor>, numExamples: int)
    requires Inv(s) && Enabled(s, Upload(i, parameters, numExamples)) && !Stuck(s)
    ensures var server := Storing(s, i, Stored(parameters, numExamples));
            var entries := server.Entries(server.round);
            && server.Valid() && OneEach(entries, |s.clients|) && |entries| <= |s.clients|
            && entries == s.server.Entries(s.server.round) + [Entry(i, Stored(parameters, numExamples))]
            && (forall q :: q != server.round ==> server.Entries(q) == s.server.Entries(q))
            && (forall j :: Submitted(entries, j) <==> Submitted(s.server.Entries(s.server.round), j) || j == i)
  {
    assert ClientInv(s, i);
    var update, q := Stored(parameters, numExamples), s.server.round;
    var earlier, entries := s.server.Entries(q), s.server.Entries(q) + [Entry(i, update)];
    StoringKeepsValid(s.server, q, i, parameters, numExamples);
    EntriesOtherRound(s.server, q, entries);
    assert !Submitted(earlier, i);
    forall j | Submitted(earlier, j) || j == i ensures Submitted(entries, j) {
      if j == i { assert entries[|earlier|].client == i; }
      else { var k :| 0 <= k < |earlier| && earlier[k].client == j; assert entries[k].client == j; }
    }
  }

  lemma UploadKeepsInv(s: System, i: nat, parameters: seq<Tensor>, numExamples: int)
    requires Inv(s) && Enabled(s, Upload(i, parameters, numExamples))
    ensures Inv(Perform(s, Upload(i, parameters, numExamples)))
  {
    var update := Stored(parameters, numExamples);
    assert ClientInv(s, i);
    HolderIsCurrent(s, i, update);
    if Stuck(s) {
      RefusedKeepsInv(s, i, parameters, numExamples);
    } else {
      StoringKeepsServer(s, i, parameters, numExamples);
      var server := Storing(s, i, update);
      var entries := server.Entries(server.round);
      if |entries| < |s.clients| {
        BlockedKeepsInv(s, i, parameters, numExamples);
      } else if Aggregate(Values(entries)).Err? {
        FailedKeepsInv(s, i, parameters, numExamples);
      } else {
        AdvanceKeepsInv(s, i, parameters, numExamples);
      }
    }
  }

  lemma RefusedKeepsInv(s: System, i: nat, parameters: seq<Tensor>, numExamples: int)
    requires Inv(s) && Enabled(s, Upload(i, parameters, numExamples)) && Stuck(s)
    ensures Perform(s, Upload(i, parameters, numExamples)) == s.(clients := s.clients[i := Raised])
    ensures Inv(Perform(s, Upload(i, parameters, numExamples)))
  {
    var t := s.(clients := s.clients[i := Raised]);
    assert ClientInv(s, i);
    HolderIsCurrent(s, i, Stored(parameters, numExamples));
    assert Stuck(t) && |t.clients| == |s.clients|;
    forall j | 0 <= j < |t.clients| ensures ClientInv(t, j) { assert ClientInv(s, j); }
    assert forall q: nat :: RoundParameters(t, q) == RoundParameters(s, q);
  }

  /** Rounds before the current one are untouched by storing an update. */
  lemma SameHistory(s: System, t: System)
    requires Inv(s) && t.initial == s.initial
    requires forall q: nat :: q < s.server.round ==> t.server.Entries(q) == s.server.Entries(q)
    ensures forall q: nat :: q <= s.server.round ==> RoundParameters(t, q) == RoundParameters(s, q)
  {
  }

  lemma BlockedKeepsInv(s: System, i: nat, parameters: seq<Tensor>, numExamples: int)
    requires Inv(s) && Enabled(s, Upload(i, parameters, numExamples)) && !Stuck(s)
    requires |s.server.Entries(s.server.round)| + 1 < |s.clients|
    ensures Perform(s, Upload(i, parameters, numExamples)) ==
            s.(server := Storing(s, i, Stored(parameters, numExamples)),
               clients := s.clients[i := Waiting(s.server.round, false)])
    ensures Inv(Perform(s, Upload(i, parameters, numExamples)))
  {
    var server := Storing(s, i, Stored(parameters, numExamples));
    var t := s.(server := server, clients := s.clients[i := Waiting(s.server.round, false)]);
    assert ClientInv(s, i);
    StoringKeepsServer(s, i, parameters, numExamples);
    SameHistory(s, t);
    forall j | 0 <= j < |t.clients| ensures ClientInv(t, j) { assert ClientInv(s, j); }
  }

  lemma FailedKeepsInv(s: System, i: nat, parameters: seq<Tensor>, numExamples: int)
    requires Inv(s) && Enabled(s, Upload(i, parameters, numExamples)) && !Stuck(s)
    requires |s.server.Entries(s.server.round)| + 1 == |s.clients|
    requires Aggregate(Values(Storing(s, i, Stored(parameters, numExamples)).Entries(s.server.round))).Err?
    ensures Perform(s, Upload(i, parameters, numExamples)) ==
            s.(server := Storing(s, i, Stored(parameters, numExamples)), clients := s.clients[i := Raised])
    ensures Inv(Perform(s, Upload(i, parameters, numExamples))) && Stuck(Perform(s, Upload(i, parameters, numExamples)))
  {
    var server := Storing(s, i, Stored(parameters, numExamples));
    var t := s.(server := server, clients := s.clients[i := Raised]);
    assert ClientInv(s, i);
    StoringKeepsServer(s, i, parameters, numExamples);
    SameHistory(s, t);
    forall j | 0 <= j < |t.clients| ensures ClientInv(t, j) { assert ClientInv(s, j); }
  }

  /** Before the last update of a round arrives everyone else is waiting. */
  lemma OthersAreWaiting(s: System, i: nat, parameters: seq<Tensor>, numExamples: int, j: nat)
    requires Inv(s) && Enabled(s, Upload(i, parameters, numExamples)) && !Stuck(s)
    requires |s.server.Entries(s.server.round)| + 1 == |s.clients| && j < |s.clients| && j != i
    ensures s.clients[j] == Waiting(s.server.round, false)
  {
    StoringKeepsServer(s, i, parameters, numExamples);
    CompleteHasEveryone(Storing(s, i, Stored(parameters, numExamples)).Entries(s.server.round), |s.clients|, j);
    assert Submitted(s.server.Entries(s.server.round), j);
    assert ClientInv(s, i) && ClientInv(s, j);
  }

  lemma AdvanceKeepsInv(s: System, i: nat, parameters: seq<Tensor>, numExamples: int)
    requires Inv(s) && Enabled(s, Upload(i, parameters, numExamples)) && !Stuck(s)
    requires |s.server.Entries(s.server.round)| + 1 == |s.clients|
    requires Aggregate(Values(Storing(s, i, Stored(parameters, numExamples)).Entries(s.server.round))).Ok?
    ensures var server := Storing(s, i, Stored(parameters, numExamples));
            var average := Aggregate(Values(server.Entries(s.server.round))).value;
            var advanced := server.(global := average, round := s.server.round + 1);
            Perform(s, Upload(i, parameters, numExamples)) ==
            s.(server := advanced, clients := NotifyAll(s.clients)[i := After(advanced.Done())])
    ensures var t := Perform(s, Upload(i, parameters, numExamples));
            t.server.round == s.server.round + 1 && t.server.Entries(t.server.round) == []
    ensures Inv(Perform(s, Upload(i, parameters, numExamples)))
  {
    var server := Storing(s, i, Stored(parameters, numExamples));
    var entries := server.Entries(s.server.round);
    var average := Aggregate(Values(entries)).value;
    var advanced := server.(global := average, round := s.server.round + 1);
    var t := s.(server := advanced, clients := NotifyAll(s.clients)[i := After(advanced.Done())]);
    assert ClientInv(s, i);
    StoringKeepsServer(s, i, parameters, numExamples);
    assert forall q :: advanced.Entries(q) == server.Entries(q);
    AggregateSucceeds(Values(entries));
    SameHistory(s, t);
    assert RoundParameters(t, advanced.round) == average;
    forall j | 0 <= j < |t.clients| ensures ClientInv(t, j) {
      if j != i { OthersAreWaiting(s, i, parameters, numExamples, j); }
    }
  }

  lemma StepKeepsInv(s: System, a: Action)
    requires Inv(s) && Enabled(s, a)
    ensures Inv(Perform(s, a))
  {
    match a
    case Download(i) => DownloadKeepsInv(s, i);
    case Upload(i, parameters, numExamples) => UploadKeepsInv(s, i, parameters, numExamples);
    case Awaken(i) => AwakenKeepsInv(s, i);
  }

  lemma {:induction false} RunKeepsInv(states: seq<System>, actions: seq<Action>, k: nat)
    requires IsRun(states, actions) && k < |states|
    ensures Inv(states[k]) && states[k].initial == states[0].initial
    ensures |states[k].clients| == |states[0].clients| && states[k].server.rounds == states[0].server.rounds
  {
    hide Inv, Enabled, Perform;
    if k == 0 {
      StartInv(states[0].initial, states[0].server.rounds, |states[0].clients|);
    } else {
      RunKeepsInv(states, actions, k - 1);
      StepKeepsInv(states[k - 1], actions[k - 1]);
      StepKeepsSetup(states[k - 1], actions[k - 1]);
    }
  }

  /** No step changes the number of clients, the number of rounds or the
      parameters that training began with. */
  lemma StepKeepsSetup(s: System, a: Action)
    requires Inv(s) && Enabled(s, a)
    ensures |Perform(s, a).clients| == |s.clients| && Perform(s, a).server.rounds == s.server.rounds
    ensures Perform(s, a).initial == s.initial
  {
  }
}
