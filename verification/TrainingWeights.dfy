/** The training weights of packet rows (train_packet_cross_vantage.py,
    experiment_trace_weights), over exact reals. */
module TrainingWeights {
  import opened Results
  import opened Seqs
  import opened Sums
  import opened ClassSums

  datatype Experiment = Experiment(name: string)

  datatype Client = Client(name: string)

  /** One client's trace of one experiment. A row is known by its trace. */
  datatype Trace = Trace(experiment: Experiment, client: Client)

  function ExperimentOf(): Trace -> Experiment {
    (t: Trace) => t.experiment
  }

  function TraceItself(): Trace -> Trace {
    (t: Trace) => t
  }

  /** The rows of one trace. */
  function RowsOf(keys: seq<Trace>, t: Trace): seq<Trace> {
    Filter(keys, InClass(TraceItself(), t))
  }

  /** The rows of one experiment. */
  function RowsIn(keys: seq<Trace>, e: Experiment): seq<Trace> {
    Filter(keys, InClass(ExperimentOf(), e))
  }

  /** The clients with rows in one experiment. */
  function Clients(keys: seq<Trace>, e: Experiment): set<Client> {
    set t | t in keys && t.experiment == e :: t.client
  }

  function Experiments(keys: seq<Trace>): set<Experiment> {
    set t | t in keys :: t.experiment
  }

  /** The weight of a row before the division by the mean. A trace without rows
      has none; no row asks for it. */
  function Share(keys: seq<Trace>): Trace -> real {
    (t: Trace) => if t in keys then ShareOf(|Clients(keys, t.experiment)|, |RowsOf(keys, t)|) else 0.0
  }

  function ShareOf(clients: nat, rows: nat): real {
    if clients == 0 || rows == 0 then 0.0 else 1.0 / clients as real / rows as real
  }

  function MeanShare(keys: seq<Trace>): real
    requires keys != []
  {
    SumBy(keys, Share(keys)) / |keys| as real
  }

  /** The weight of a row. */
  function Weight(keys: seq<Trace>): Trace -> real
    requires keys != [] && MeanShare(keys) != 0.0
  {
    (t: Trace) => 1.0 / MeanShare(keys) * Share(keys)(t)
  }

  // ----- the two loops -----

  datatype WeightError = LengthsDiffer | InvalidWeights

  /** Rows per trace, and clients per experiment. */
  datatype Tally = Tally(counts: map<Trace, nat>, clients: map<Experiment, set<Client>>)

  ghost predicate CountsHold(keys: seq<Trace>, counts: map<Trace, nat>) {
    forall t: Trace :: (t in counts <==> t in keys) && (t in counts ==> counts[t] == |RowsOf(keys, t)|)
  }

  ghost predicate ClientsHold(keys: seq<Trace>, clients: map<Experiment, set<Client>>) {
    clients.Keys == Experiments(keys) && forall e :: e in clients ==> clients[e] == Clients(keys, e)
  }

  lemma CountsStep(keys: seq<Trace>, key: Trace, counts: map<Trace, nat>)
    requires CountsHold(keys, counts)
    ensures CountsHold(keys + [key], counts[key := (if key in counts then counts[key] else 0) + 1])
  {
    if key !in keys {
      assert forall t :: t in keys ==> !InClass(TraceItself(), key)(t);
      FilterNothing(keys, InClass(TraceItself(), key));
    }
    forall t: Trace ensures RowsOf(keys + [key], t) == if t == key then RowsOf(keys, t) + [key] else RowsOf(keys, t) {
      FilterLast(keys, key, InClass(TraceItself(), t));
    }
  }

  lemma ClientsStep(keys: seq<Trace>, key: Trace, clients: map<Experiment, set<Client>>)
    requires ClientsHold(keys, clients)
    ensures ClientsHold(keys + [key], clients[key.experiment := Seen(clients, key.experiment) + {key.client}])
  {
    if key.experiment !in clients { assert Clients(keys, key.experiment) == {}; }
    forall e: Experiment
      ensures Clients(keys + [key], e) == if e == key.experiment then Clients(keys, e) + {key.client} else Clients(keys, e)
    {
      assert forall t :: t in keys + [key] <==> t in keys || t == key;
    }
    assert Experiments(keys + [key]) == Experiments(keys) + {key.experiment};
  }

  function Seen(clients: map<Experiment, set<Client>>, e: Experiment): set<Client> {
    if e in clients then clients[e] else {}
  }

  function Zip(experiments: seq<Experiment>, clients: seq<Client>): (keys: seq<Trace>)
    requires |experiments| == |clients|
    ensures |keys| == |clients|
  {
    seq(|clients|, i requires 0 <= i < |clients| => Trace(experiments[i], clients[i]))
  }

  /** One weight per row, or an error when the two columns
      do not pair up. The check of the mean never fails. */
  method ExperimentTraceWeights(experiments: seq<Experiment>, clients: seq<Client>)
    returns (r: Result<seq<real>, WeightError>)
    ensures r == Err(LengthsDiffer) <==> |experiments| != |clients|
    ensures r != Err(InvalidWeights)
    ensures r.Ok? ==> |r.value| == |experiments|
    ensures r.Ok? && experiments != [] ==>
              var keys := Zip(experiments, clients);
              MeanShare(keys) > 0.0 && forall i :: 0 <= i < |keys| ==> r.value[i] == Weight(keys)(keys[i])
  {
    hide RowsOf, Clients, Share, Weight, MeanShare;
    if |experiments| != |clients| { return Err(LengthsDiffer); }
    if |experiments| == 0 { return Ok([]); }
    var counts: map<Trace, nat> := map[];
    var members: map<Experiment, set<Client>> := map[];
    var keys: seq<Trace> := [];
    for i := 0 to |experiments|
      invariant keys == Zip(experiments[..i], clients[..i])
      invariant CountsHold(keys, counts)
      invariant ClientsHold(keys, members)
    {
      var key := Trace(experiments[i], clients[i]);
      CountsStep(keys, key, counts);
      ClientsStep(keys, key, members);
      counts := counts[key := (if key in counts then counts[key] else 0) + 1];
      members := members[key.experiment := Seen(members, key.experiment) + {key.client}];
      keys := keys + [key];
    }
    assert experiments[..|experiments|] == experiments && clients[..|clients|] == clients;
    var weights: seq<real> := [];
    var total := 0.0;
    for i := 0 to |keys|
      invariant |weights| == i
      invariant forall k :: 0 <= k < i ==> weights[k] == Share(keys)(keys[k])
      invariant total == SumBy(keys[..i], Share(keys))
    {
      assert keys[i] in keys;
      ShareIs(keys, keys[i]);
      SumByNext(keys, i, Share(keys));
      var weight := 1.0 / |members[keys[i].experiment]| as real / counts[keys[i]] as real;
      weights := weights + [weight];
      total := total + weight;
    }
    assert keys[..|keys|] == keys;
    var mean := total / |keys| as real;
    MeanIsPositive(keys);
    if mean <= 0.0 { return Err(InvalidWeights); }
    WeightIs(keys);
    return Ok(seq(|weights|, i requires 0 <= i < |weights| => weights[i] / mean));
  }

  lemma RowsOfTrace(keys: seq<Trace>, t: Trace)
    requires t in keys
    ensures |RowsOf(keys, t)| > 0 && t.client in Clients(keys, t.experiment)
    ensures forall x :: x in RowsOf(keys, t) ==> x == t
  {
    FilterMember(keys, InClass(TraceItself(), t), t);
    forall x | x in RowsOf(keys, t) ensures x == t { FilterMember(keys, InClass(TraceItself(), t), x); }
  }

  lemma ShareIs(keys: seq<Trace>, t: Trace)
    requires t in keys
    ensures |RowsOf(keys, t)| > 0 && |Clients(keys, t.experiment)| > 0
    ensures Share(keys)(t) == 1.0 / |Clients(keys, t.experiment)| as real / |RowsOf(keys, t)| as real
  {
    RowsOfTrace(keys, t);
    assert Clients(keys, t.experiment) != {};
  }

  lemma SumByNext(s: seq<Trace>, i: nat, f: Trace -> real)
    requires i < |s|
    ensures SumBy(s[..i + 1], f) == SumBy(s[..i], f) + f(s[i])
  {
    assert s[..i + 1][..i] == s[..i];
  }

  // ----- equal totals -----

  /** Before scaling, a trace holds an equal part of its experiment. */
  lemma TraceTotal(keys: seq<Trace>, t: Trace)
    requires t in keys
    ensures |Clients(keys, t.experiment)| > 0
    ensures SumBy(RowsOf(keys, t), Share(keys)) == 1.0 / |Clients(keys, t.experiment)| as real
  {
    hide Clients, Share;
    ShareIs(keys, t);
    RowsOfTrace(keys, t);
    SumByConstant(RowsOf(keys, t), Share(keys), Share(keys)(t));
  }

  lemma {:induction false} EqualClasses<K>(rows: seq<Trace>, f: Trace -> real, g: Trace -> K, ks: seq<K>, c: real)
    requires forall k :: k in ks ==> ClassSum(rows, f, g, k) == c
    ensures SumOverClasses(rows, f, g, ks) == |ks| as real * c
  {
    hide ClassSum;
    if ks != [] {
      EqualClasses(rows, f, g, ks[..|ks| - 1], c);
      assert (|ks| - 1) as real * c + c == |ks| as real * c;
    }
  }

  lemma EqualParts<K>(rows: seq<Trace>, f: Trace -> real, g: Trace -> K, ks: seq<K>)
    requires ks != [] && forall k :: k in ks ==> ClassSum(rows, f, g, k) == 1.0 / |ks| as real
    ensures SumOverClasses(rows, f, g, ks) == 1.0
  {
    hide SumOverClasses, ClassSum;
    EqualClasses(rows, f, g, ks, 1.0 / |ks| as real);
    Quotient(1, |ks|);
  }

  lemma SomeTrace(keys: seq<Trace>, e: Experiment, traces: seq<Trace>)
    requires e in Experiments(keys) && forall t :: t in traces <==> t in keys && t.experiment == e
    ensures traces != []
  {
    var t :| t in keys && t.experiment == e;
    assert t in traces;
  }

  /** One experiment has as many traces as clients. */
  lemma TracesAreClients(keys: seq<Trace>, e: Experiment, traces: seq<Trace>)
    requires Distinct(traces) && forall t :: t in traces <==> t in keys && t.experiment == e
    ensures |traces| == |Clients(keys, e)|
  {
    var clients := seq(|traces|, i requires 0 <= i < |traces| => traces[i].client);
    forall i, j | 0 <= i < j < |clients| ensures clients[i] != clients[j] {
      assert traces[i] in traces && traces[j] in traces;
    }
    DistinctSize(clients);
    forall c ensures c in clients <==> c in Clients(keys, e) {
      if c in Clients(keys, e) {
        assert Trace(e, c) in traces;
        var i :| 0 <= i < |traces| && traces[i] == Trace(e, c);
        assert clients[i] == c;
      }
      if c in clients {
        var i :| 0 <= i < |clients| && clients[i] == c;
        assert traces[i] in traces;
      }
    }
    assert Elements(clients) == Clients(keys, e);
  }

  /** Before scaling, every experiment weighs one. */
  lemma ExperimentTotal(keys: seq<Trace>, e: Experiment)
    requires e in Experiments(keys)
    ensures SumBy(RowsIn(keys, e), Share(keys)) == 1.0
  {
    hide Clients, Share, SumBy;
    var rows := RowsIn(keys, e);
    var traces := Dedupe(rows);
    forall t ensures t in traces <==> t in keys && t.experiment == e {
      FilterMember(keys, InClass(ExperimentOf(), e), t);
    }
    TracesAreClients(keys, e, traces);
    forall t | t in traces
      ensures |Clients(keys, e)| > 0
      ensures ClassSum(rows, Share(keys), TraceItself(), t) == 1.0 / |Clients(keys, e)| as real
    {
      FilterTwice(keys, InClass(ExperimentOf(), e), InClass(TraceItself(), t));
      TraceTotal(keys, t);
    }
    SumByClasses(rows, Share(keys), TraceItself(), traces);
    SomeTrace(keys, e, traces);
    EqualParts(rows, Share(keys), TraceItself(), traces);
  }

  /** Before scaling, all rows together weigh the number of experiments. */
  lemma GrandTotal(keys: seq<Trace>)
    ensures SumBy(keys, Share(keys)) == |Experiments(keys)| as real
  {
    var names := seq(|keys|, i requires 0 <= i < |keys| => keys[i].experiment);
    var experiments := Dedupe(names);
    forall e ensures e in experiments <==> e in Experiments(keys) {
      if e in Experiments(keys) {
        var i :| 0 <= i < |keys| && keys[i].experiment == e;
        assert names[i] == e;
      }
    }
    forall e | e in experiments ensures ClassSum(keys, Share(keys), ExperimentOf(), e) == 1.0 {
      ExperimentTotal(keys, e);
    }
    forall t | t in keys ensures ExperimentOf()(t) in experiments { assert t.experiment in Experiments(keys); }
    SumByClasses(keys, Share(keys), ExperimentOf(), experiments);
    EqualClasses(keys, Share(keys), ExperimentOf(), experiments, 1.0);
    DistinctSize(experiments);
    assert Elements(experiments) == Experiments(keys);
  }

  lemma MeanIsPositive(keys: seq<Trace>)
    requires keys != []
    ensures MeanShare(keys) > 0.0
    ensures MeanShare(keys) == SumBy(keys, Share(keys)) / |keys| as real
  {
    hide Share, SumBy;
    GrandTotal(keys);
    assert keys[0].experiment in Experiments(keys);
    Quotient(|Experiments(keys)|, |keys|);
  }

  lemma Quotient(m: nat, n: nat)
    requires m > 0 && n > 0
    ensures m as real / n as real > 0.0
    ensures n as real * (1.0 / n as real) == 1.0
  {
  }

  lemma WeightIs(keys: seq<Trace>)
    requires keys != []
    ensures MeanShare(keys) > 0.0
    ensures forall t :: Weight(keys)(t) == Share(keys)(t) / MeanShare(keys)
  {
    MeanIsPositive(keys);
  }

  /** Every row weighs something, so the weights suit the Fisher scores. */
  lemma WeightsArePositive(keys: seq<Trace>, t: Trace)
    requires t in keys
    ensures MeanShare(keys) > 0.0 && Weight(keys)(t) > 0.0
  {
    hide Clients, RowsOf, MeanShare;
    ShareIs(keys, t);
    WeightIs(keys);
    Quotient(1, |Clients(keys, t.experiment)|);
    PositiveQuotient(1.0 / |Clients(keys, t.experiment)| as real, |RowsOf(keys, t)| as real);
    PositiveQuotient(Share(keys)(t), MeanShare(keys));
  }

  lemma PositiveQuotient(x: real, y: real)
    requires x > 0.0 && y > 0.0
    ensures x / y > 0.0
  {
  }

  lemma {:induction false} SumOfWeights(keys: seq<Trace>, rows: seq<Trace>)
    requires keys != [] && MeanShare(keys) > 0.0
    ensures SumBy(rows, Weight(keys)) == SumBy(rows, Share(keys)) / MeanShare(keys)
  {
    if rows != [] { SumOfWeights(keys, rows[..|rows| - 1]); }
  }

  /** The weights average to one; every experiment has the same total, and every
      trace an equal part of its experiment. */
  lemma EqualShares(keys: seq<Trace>)
    requires keys != []
    ensures MeanShare(keys) > 0.0
    ensures SumBy(keys, Weight(keys)) == |keys| as real
    ensures |Experiments(keys)| > 0
    ensures forall e :: e in Experiments(keys) ==>
              SumBy(RowsIn(keys, e), Weight(keys)) == |keys| as real / |Experiments(keys)| as real
    ensures forall t :: t in keys ==>
              && |Clients(keys, t.experiment)| > 0
              && SumBy(RowsOf(keys, t), Weight(keys)) ==
                 |keys| as real / |Experiments(keys)| as real / |Clients(keys, t.experiment)| as real
  {
    hide Share, Weight, RowsIn, RowsOf, Clients, SumBy;
    MeanIsPositive(keys);
    GrandTotal(keys);
    assert keys[0].experiment in Experiments(keys);
    SumOfWeights(keys, keys);
    forall e | e in Experiments(keys)
      ensures SumBy(RowsIn(keys, e), Weight(keys)) == |keys| as real / |Experiments(keys)| as real
    {
      ExperimentTotal(keys, e);
      SumOfWeights(keys, RowsIn(keys, e));
    }
    forall t | t in keys
      ensures |Clients(keys, t.experiment)| > 0
      ensures SumBy(RowsOf(keys, t), Weight(keys)) ==
              |keys| as real / |Experiments(keys)| as real / |Clients(keys, t.experiment)| as real
    {
      TraceTotal(keys, t);
      SumOfWeights(keys, RowsOf(keys, t));
    }
  }
}
