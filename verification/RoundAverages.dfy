/** What the rounds of a training run store and average, in terms of the uploads
    of the run alone. */
module RoundAverages {
  import opened Results
  import opened Rounding
  import opened Seqs
  import opened Sums
  import opened FedAvg
  import opened Coordinator
  import opened Protocol
  import opened Liveness

  // ----- what an upload stores -----

  /** Step k of the run uploads parameters trained for round q. */
  ghost predicate UploadsFor(states: seq<System>, actions: seq<Action>, k: nat, q: nat)
    requires IsRun(states, actions) && k < |actions|
  {
    actions[k].Upload? && states[k].clients[actions[k].client].round == q
  }

  /** So it does, and no average has failed before, so that it is accepted. */
  ghost predicate AcceptedFor(states: seq<System>, actions: seq<Action>, k: nat, q: nat)
    requires IsRun(states, actions) && k < |actions|
  {
    UploadsFor(states, actions, k, q) && !Stuck(states[k])
  }

  /** What the server keeps of an upload, written out. */
  function Kept(a: Action): Entry
    requires a.Upload?
  {
    Entry(a.client, ClientUpdate(a.parameters, if a.numExamples > 1 then a.numExamples else 1))
  }

  /** entry is what step k, an accepted upload for round q, leaves. */
  ghost predicate Left(states: seq<System>, actions: seq<Action>, k: nat, q: nat, entry: Entry)
    requires IsRun(states, actions)
  {
    k < |actions| && AcceptedFor(states, actions, k, q) && entry == Kept(actions[k])
  }

  lemma StepStores(s: System, a: Action, q: nat)
    requires Inv(s) && Enabled(s, a)
    ensures Perform(s, a).server.Entries(q) ==
            s.server.Entries(q) + if a.Upload? && !Stuck(s) && s.clients[a.client].round == q then [Kept(a)] else []
  {
    hide Inv;
    assert s.server.Entries(q) + [] == s.server.Entries(q);
    if a.Upload? {
      var i, parameters, numExamples := a.client, a.parameters, a.numExamples;
      HolderRound(s, i);
      if Stuck(s) {
        RefusedKeepsInv(s, i, parameters, numExamples);
      } else {
        UploadStores(s, i, parameters, numExamples, q);
      }
    }
  }

  lemma HolderRound(s: System, i: nat)
    requires Inv(s) && i < |s.clients| && s.clients[i].Holding?
    ensures s.clients[i].round == s.server.round
  {
    assert ClientInv(s, i);
  }

  lemma UploadStores(s: System, i: nat, parameters: seq<Tensor>, numExamples: int, q: nat)
    requires Inv(s) && Enabled(s, Upload(i, parameters, numExamples)) && !Stuck(s)
    ensures Perform(s, Upload(i, parameters, numExamples)).server.Entries(q) ==
            s.server.Entries(q) + if q == s.server.round then [Kept(Upload(i, parameters, numExamples))] else []
  {
    StoringKeepsServer(s, i, parameters, numExamples);
    var server := Storing(s, i, Stored(parameters, numExamples));
    var entries := server.Entries(server.round);
    assert s.server.Entries(q) + [] == s.server.Entries(q);
    if |entries| < |s.clients| {
      BlockedKeepsInv(s, i, parameters, numExamples);
    } else if Aggregate(Values(entries)).Err? {
      FailedKeepsInv(s, i, parameters, numExamples);
    } else {
      AdvanceKeepsInv(s, i, parameters, numExamples);
    }
  }

  lemma EntriesStep(states: seq<System>, actions: seq<Action>, k: nat, q: nat) returns (more: seq<Entry>)
    requires IsRun(states, actions) && k < |actions|
    ensures states[k + 1].server.Entries(q) == states[k].server.Entries(q) + more && |more| <= 1
    ensures AcceptedFor(states, actions, k, q) <==> more != []
    ensures more != [] ==> Left(states, actions, k, q, more[0])
  {
    hide Inv, Perform, Stuck;
    RunKeepsInv(states, actions, k);
    StepStores(states[k], actions[k], q);
    more := if AcceptedFor(states, actions, k, q) then [Kept(actions[k])] else [];
  }

  /** The entries of round q after m steps are what the steps at left, in order, and
      at lists all accepted uploads for the round so far. */
  ghost predicate Recorded(states: seq<System>, actions: seq<Action>, m: nat, q: nat, at: seq<nat>)
    requires IsRun(states, actions) && m < |states|
  {
    && Increasing(at) && |at| == |states[m].server.Entries(q)|
    && (forall j :: 0 <= j < |at| ==> at[j] < m && Left(states, actions, at[j], q, states[m].server.Entries(q)[j]))
    && forall k: nat :: k < m && AcceptedFor(states, actions, k, q) ==> k in at
  }

  /** In every run: the entries of a round are exactly the accepted uploads for it,
      in the order of the run, each with its parameters as they are and with
      max(1, the number of its examples). */
  lemma {:induction false} EntriesAreUploads(states: seq<System>, actions: seq<Action>, m: nat, q: nat) returns (at: seq<nat>)
    requires IsRun(states, actions) && m < |states|
    ensures Recorded(states, actions, m, q, at)
  {
    if m == 0 {
      at := [];
    } else {
      hide IsRun, Recorded;
      at := EntriesAreUploads(states, actions, m - 1, q);
      at := RecordedNext(states, actions, m - 1, q, at);
    }
  }

  lemma RecordedNext(states: seq<System>, actions: seq<Action>, m: nat, q: nat, before: seq<nat>) returns (at: seq<nat>)
    requires IsRun(states, actions) && m + 1 < |states| && Recorded(states, actions, m, q, before)
    ensures Recorded(states, actions, m + 1, q, at)
  {
    hide AcceptedFor, Left;
    var more := EntriesStep(states, actions, m, q);
    at := before + if more == [] then [] else [m];
    LeftNext(states, actions, m, q, before, more);
    forall k: nat | k < m + 1 && AcceptedFor(states, actions, k, q) ensures k in at {
      if k < m { assert k in before; } else { assert at[|before|] == m; }
    }
  }

  lemma LeftNext(states: seq<System>, actions: seq<Action>, m: nat, q: nat, before: seq<nat>, more: seq<Entry>)
    requires IsRun(states, actions) && m + 1 < |states| && Recorded(states, actions, m, q, before) && |more| <= 1
    requires states[m + 1].server.Entries(q) == states[m].server.Entries(q) + more
    requires more != [] ==> Left(states, actions, m, q, more[0])
    ensures var at := before + if more == [] then [] else [m];
            && |at| == |states[m + 1].server.Entries(q)| && Increasing(at)
            && forall j :: 0 <= j < |at| ==> at[j] < m + 1 && Left(states, actions, at[j], q, states[m + 1].server.Entries(q)[j])
  {
    hide IsRun, AcceptedFor, Left;
    var at, entries := before + (if more == [] then [] else [m]), states[m + 1].server.Entries(q);
    forall j | 0 <= j < |at| ensures at[j] < m + 1 && Left(states, actions, at[j], q, entries[j]) {
      if j < |before| { assert entries[j] == states[m].server.Entries(q)[j]; }
    }
  }

  // ----- what a round averages -----

  /** max(1, the examples of upload k). */
  function Examples(actions: seq<Action>): nat -> real {
    (k: nat) => if k < |actions| && actions[k].Upload? && actions[k].numExamples > 1 then actions[k].numExamples as real else 1.0
  }

  /** Element e of tensor t of upload k. */
  function Uploaded(actions: seq<Action>, k: nat, t: nat, e: nat): real {
    if k < |actions| && actions[k].Upload? && t < |actions[k].parameters| && e < |actions[k].parameters[t].values|
    then actions[k].parameters[t].values[e] else 0.0
  }

  function ExamplesTimesUploaded(actions: seq<Action>, t: nat, e: nat): nat -> real {
    (k: nat) => Examples(actions)(k) * Uploaded(actions, k, t, e)
  }

  lemma {:induction false} SameSums(actions: seq<Action>, at: seq<nat>, updates: seq<ClientUpdate>, t: nat, e: nat)
    requires |at| == |updates| && forall j :: 0 <= j < |at| ==>
               at[j] < |actions| && actions[at[j]].Upload? && Kept(actions[at[j]]).update == updates[j]
    ensures TotalWeight(updates) == SumBy(at, Examples(actions))
    ensures SumBy(updates, WeightedElement(t, e)) == SumBy(at, ExamplesTimesUploaded(actions, t, e))
  {
    if at != [] {
      var last := |at| - 1;
      SameSums(actions, at[..last], updates[..last], t, e);
    }
  }

  /** A mean, written out as a quotient, and its conversion by element type. */
  predicate IsAverage(value: real, kind: Kind, sum: real, total: real) {
    && total > 0.0
    && match kind
       case Real => value * total == sum
       case Integer => value == value.Floor as real && NearestEven(value.Floor, sum / total)
       case Boolean => value == if sum == 0.0 then 0.0 else 1.0
  }

  lemma MeanIsAverage(updates: seq<ClientUpdate>, t: nat, e: nat, kind: Kind)
    requires updates != []
    ensures IsAverage(kind.Converted(Mean(updates, t, e)), kind, SumBy(updates, WeightedElement(t, e)), TotalWeight(updates))
  {
    hide SumBy, WeightedElement, Rint;
    TotalWeightPositive(updates);
    RintExactly(Mean(updates, t, e), Rint(Mean(updates, t, e)));
  }

  lemma {:induction false} AggregatedElement(updates: seq<ClientUpdate>, t: nat, e: nat)
    requires Aggregate(updates).Ok? && t < |Aggregate(updates).value| && e < |Aggregate(updates).value[t].values|
    ensures t < |updates[0].parameters| && Aggregate(updates).value[t].kind == updates[0].parameters[t].kind
    ensures IsAverage(Aggregate(updates).value[t].values[e], Aggregate(updates).value[t].kind,
                      SumBy(updates, WeightedElement(t, e)), TotalWeight(updates))
  {
    hide SumBy, WeightedElement, TotalWeight, IsAverage;
    assert Aggregate(updates).value[t] == MeanTensor(updates, t);
    MeanIsAverage(updates, t, e, updates[0].parameters[t].kind);
  }

  lemma {:induction false} StuckStays(states: seq<System>, actions: seq<Action>, k: nat, m: nat)
    requires IsRun(states, actions) && k <= m < |states| && Stuck(states[k])
    ensures Stuck(states[m]) && states[m].server == states[k].server
    decreases m - k
  {
    hide Perform, Enabled, Stuck;
    if k < m {
      StuckStays(states, actions, k, m - 1);
      RunKeepsInv(states, actions, m - 1);
      StuckForever(states[m - 1], actions[m - 1]);
    }
  }

  /** Every upload for a round that is over was made, and accepted, before. */
  lemma UploadsAreEarlier(states: seq<System>, actions: seq<Action>, m: nat, q: nat, k: nat)
    requires IsRun(states, actions) && m < |states| && states[m].server.round == q + 1
    requires k < |actions| && UploadsFor(states, actions, k, q)
    ensures k < m && !Stuck(states[k])
  {
    hide Perform, Stuck;
    RunKeepsInv(states, actions, k);
    HolderRound(states[k], actions[k].client);
    if m <= k { RunKeepsHistory(states, actions, m, k); }
    else if Stuck(states[k]) { StuckStays(states, actions, k, m); }
  }

  /** In every run: the parameters that round q+1 starts from average the uploads
      for round q, one of each client and no other, each weighted by its number of
      examples, one at least; the first to arrive decides the element type. */
  lemma RoundIsAverage(states: seq<System>, actions: seq<Action>, m: nat, q: nat, t: nat, e: nat) returns (at: seq<nat>)
    requires IsRun(states, actions) && m < |states| && states[m].server.round == q + 1
    requires t < |states[m].server.global| && e < |states[m].server.global[t].values|
    ensures |at| == |states[0].clients| > 0 && Increasing(at)
    ensures forall j :: 0 <= j < |at| ==> at[j] < |actions| && actions[at[j]].Upload?
    ensures forall k: nat :: k in at <==> k < |actions| && UploadsFor(states, actions, k, q)
    ensures forall i, j :: 0 <= i < j < |at| ==> actions[at[i]].client != actions[at[j]].client
    ensures var average := states[m].server.global[t];
            && t < |actions[at[0]].parameters| && average.kind == actions[at[0]].parameters[t].kind
            && IsAverage(average.values[e], average.kind, SumBy(at, ExamplesTimesUploaded(actions, t, e)), SumBy(at, Examples(actions)))
  {
    hide Perform, Enabled, Stuck, SumBy, IsAverage, ExamplesTimesUploaded, Examples, Aggregate;
    var s := states[m];
    at := EntriesAreUploads(states, actions, m, q);
    RunKeepsInv(states, actions, m);
    forall k: nat | k < |actions| && UploadsFor(states, actions, k, q) ensures k in at { UploadsAreEarlier(states, actions, m, q, k); }
    assert Complete(s.server.Entries(q), |s.clients|);
    var updates := Values(s.server.Entries(q));
    assert s.server.global == Aggregate(updates).value;
    AggregatedElement(updates, t, e);
    SameSums(actions, at, updates, t, e);
  }

  /** Two clients: 0 with one example and 4 with three examples average to 3. */
  lemma ThreeToOne(actions: seq<Action>, value: real)
    requires |actions| == 2 && actions[0].Upload? && actions[1].Upload?
    requires actions[0].numExamples == 1 && actions[1].numExamples == 3
    requires Uploaded(actions, 0, 0, 0) == 0.0 && Uploaded(actions, 1, 0, 0) == 4.0
    requires IsAverage(value, Real, SumBy(Range(2), ExamplesTimesUploaded(actions, 0, 0)), SumBy(Range(2), Examples(actions)))
    ensures value == 3.0
  {
    assert Range(2)[..1] == Range(1) && Range(1)[..0] == [];
  }
}
