/** The server half of synchronous federated averaging
    (ai_fingerprint/federated.py, SynchronousFedAvgCoordinator).

    The class is a monitor: each method below is one critical section. A call
    of submit_update is Arrive, and, if that leaves the caller waiting on the
    condition, any number of Wake calls until one of them returns a value. */
module Coordinator {
  import opened Results
  import opened FedAvg

  type ClientId = nat

  /** One item of a round's dictionary of updates, in insertion order. */
  datatype Entry = Entry(client: ClientId, update: ClientUpdate)

  datatype State = State(
    rounds: int,
    expectedClients: int,
    round: nat,
    global: seq<Tensor>,
    updates: map<int, seq<Entry>>)
  {
    function Entries(q: int): seq<Entry> {
      if q in updates then updates[q] else []
    }

    predicate Done() {
      round >= rounds
    }

    /** The stored updates are well formed, so that they can be averaged. */
    predicate Valid() {
      && ClientUpdate(global, 1).Valid()
      && forall q :: q in updates ==> AllValid(Values(updates[q]))
    }
  }

  datatype Outcome =
    | Stale
    | Duplicate
    | AggregationFailed(error: FedAvgError)
    | Blocked
    | Returned(round: nat, done: bool)

  function Values(entries: seq<Entry>): seq<ClientUpdate> {
    seq(|entries|, k requires 0 <= k < |entries| => entries[k].update)
  }

  predicate Submitted(entries: seq<Entry>, client: ClientId) {
    exists k :: 0 <= k < |entries| && entries[k].client == client
  }

  function Stored(parameters: seq<Tensor>, numExamples: int): ClientUpdate {
    ClientUpdate(parameters, if numExamples > 1 then numExamples else 1)
  }

  /** submit_update up to its first return, exception or wait. */
  function Arrive(s: State, roundIndex: int, client: ClientId, update: ClientUpdate): (State, Outcome) {
    if roundIndex != s.round then (s, Stale)
    else if Submitted(s.Entries(roundIndex), client) then (s, Duplicate)
    else
      var entries := s.Entries(roundIndex) + [Entry(client, update)];
      var stored := s.(updates := s.updates[roundIndex := entries]);
      if |entries| == s.expectedClients then
        match Aggregate(Values(entries))
        case Err(error) => (stored, AggregationFailed(error))
        case Ok(average) =>
          var advanced := stored.(global := average, round := s.round + 1);
          (advanced, Returned(advanced.round, advanced.Done()))
      else if |entries| < s.expectedClients then (stored, Blocked)
      else (stored, Returned(s.round, s.Done()))
  }

  /** The loop test of a waiting submit_update, after the condition wakes it. */
  function Wake(s: State, roundIndex: int): Outcome {
    if s.round == roundIndex && |s.Entries(roundIndex)| < s.expectedClients then Blocked
    else Returned(s.round, s.Done())
  }

  class SynchronousFedAvgCoordinator {
    const rounds: int
    const expectedClients: int
    var round: nat
    var globalParameters: seq<Tensor>
    var updates: map<int, seq<Entry>>

    function Abstract(): State
      reads this
    {
      State(rounds, expectedClients, round, globalParameters, updates)
    }

    constructor (parameters: seq<Tensor>, rounds: int, expectedClients: int)
      requires ClientUpdate(parameters, 1).Valid()
      ensures Abstract() == State(rounds, expectedClients, 0, parameters, map[])
      ensures Abstract().Valid()
    {
      this.rounds, this.expectedClients := rounds, expectedClients;
      round, globalParameters, updates := 0, parameters, map[];
    }

    method GetGlobal() returns (r: nat, parameters: seq<Tensor>, done: bool)
      ensures r == Abstract().round && done == Abstract().Done()
      ensures parameters == if done then [] else Abstract().global
    {
      if round >= rounds { return round, [], true; }
      return round, globalParameters, false;
    }

    method SubmitArrive(roundIndex: int, client: ClientId, parameters: seq<Tensor>, numExamples: int)
      returns (outcome: Outcome)
      requires Abstract().Valid() && ClientUpdate(parameters, 1).Valid()
      modifies this
      ensures (Abstract(), outcome) == Arrive(old(Abstract()), roundIndex, client, Stored(parameters, numExamples))
      ensures Abstract().Valid()
    {
      ghost var before := Abstract();
      if roundIndex != round { return Stale; }
      var roundUpdates := Abstract().Entries(roundIndex);
      for k := 0 to |roundUpdates|
        invariant forall i :: 0 <= i < k ==> roundUpdates[i].client != client
      {
        if roundUpdates[k].client == client { return Duplicate; }
      }
      roundUpdates := roundUpdates + [Entry(client, Stored(parameters, numExamples))];
      updates := updates[roundIndex := roundUpdates];
      StoringKeepsValid(before, roundIndex, client, parameters, numExamples);
      if |roundUpdates| == expectedClients {
        var average := FedAvg.FedAvg(Values(roundUpdates));
        match average {
          case Err(error) => return AggregationFailed(error);
          case Ok(parameters') =>
            AggregateSucceeds(Values(roundUpdates));
            globalParameters := parameters';
            round := round + 1;
        }
      } else if |roundUpdates| < expectedClients {
        return Blocked;
      }
      return Returned(round, round >= rounds);
    }

    method SubmitWake(roundIndex: int) returns (outcome: Outcome)
      ensures outcome == Wake(Abstract(), roundIndex)
    {
      if round == roundIndex && |Abstract().Entries(roundIndex)| < expectedClients { return Blocked; }
      return Returned(round, round >= rounds);
    }
  }

  lemma StoringKeepsValid(s: State, q: int, client: ClientId, parameters: seq<Tensor>, numExamples: int)
    requires s.Valid() && ClientUpdate(parameters, 1).Valid()
    ensures AllValid(Values(s.Entries(q) + [Entry(client, Stored(parameters, numExamples))]))
  {
    assert q in s.updates ==> AllValid(Values(s.updates[q]));
    var entries := s.Entries(q) + [Entry(client, Stored(parameters, numExamples))];
    forall k | 0 <= k < |entries| ensures Values(entries)[k].Valid() {
      if k < |s.Entries(q)| { assert Values(entries)[k] == Values(s.Entries(q))[k]; }
    }
  }
}
