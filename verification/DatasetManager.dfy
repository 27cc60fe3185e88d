/** Which samples a client trains on (ai_fingerprint/dataset_manager.py,
    _build_partition_indices). */
module DatasetManager {
  import opened Results
  import opened Rounding
  import opened Seqs
  import opened Sorting
  import opened Randomness
  import opened DataPartition
  import opened PartitionTiling

  // ----- the calibration holdout and the client's share -----

  /** The settings that _build_partition_indices looks at. */
  datatype Config = Config(
    anomalyTraining: bool,      // application anomaly_detection, split train
    calibrationRole: bool,      // anomaly_detection.data_role
    federatedClient: bool,      // deployment federated, role client, split train
    kind: Kind,
    clientCount: int,
    clientIndex: int,
    calibrationFraction: real)

  datatype BuildError = FewerThanTwoNormal | PartitionRefused(error: PartitionError)

  /** The usable indices, and the calibration holdout that was set aside. */
  datatype Built = Built(indices: seq<nat>, calibration: seq<nat>)

  function IsNormal(labels: seq<int>, anomalies: set<int>): nat -> bool {
    (i: nat) => i < |labels| && labels[i] !in anomalies
  }

  function NormalIndices(labels: seq<int>, anomalies: set<int>): seq<nat> {
    Filter(Range(|labels|), IsNormal(labels, anomalies))
  }

  /** min(max(1, round(n * fraction)), n - 1). */
  function CalibrationCount(n: nat, fraction: real): (count: nat)
    requires n >= 2
    ensures 1 <= count <= n - 1
  {
    var rounded := Rint(n as real * fraction);
    var atLeastOne := if rounded > 1 then rounded else 1;
    if atLeastOne < n - 1 then atLeastOne else n - 1
  }

  /** count is n * fraction rounded to the nearest, halves to even, but at least one
      and at most n - 1. */
  predicate IsShare(count: int, n: nat, fraction: real) {
    var x := n as real * fraction;
    if x < 1.0 then count == 1
    else if x > n as real - 1.0 then count == n - 1
    else -0.5 <= count as real - x <= 0.5 && (count as real - x == 0.5 || count as real - x == -0.5 ==> count % 2 == 0)
  }

  lemma CalibrationIsShare(n: nat, fraction: real)
    requires n >= 2
    ensures IsShare(CalibrationCount(n, fraction), n, fraction)
  {
    hide Rint;
    var x := n as real * fraction;
    RintExactly(x, Rint(x));
    if 1.0 <= x <= (n - 1) as real { RintWithin(x, 1, n - 1); }
  }

  function AtMost(): (nat, nat) -> bool {
    (a: nat, b: nat) => a <= b
  }

  predicate Ascending(s: seq<nat>) {
    forall i, j :: 0 <= i < j < |s| ==> s[i] <= s[j]
  }

  /** numpy.sort. */
  function SortIndices(s: seq<nat>): (r: seq<nat>)
    ensures multiset(r) == multiset(s) && Sorted(r, AtMost())
    ensures Ascending(r)
  {
    SortIs(s, AtMost());
    assert forall i, j :: 0 <= i < j < |Sort(s, AtMost())| ==> AtMost()(Sort(s, AtMost())[i], Sort(s, AtMost())[j]);
    Sort(s, AtMost())
  }

  function Holdout(normal: seq<nat>, fraction: real, rng: Rng): (r: (seq<nat>, seq<nat>))
    requires |normal| >= 2
    ensures multiset(r.0) + multiset(r.1) == multiset(normal)
    ensures 1 <= |r.0| <= |normal| - 1 && IsShare(|r.0|, |normal|, fraction)
    ensures Ascending(r.0) && Ascending(r.1)
  {
    CalibrationIsShare(|normal|, fraction);
    var shuffled := rng.Shuffle(0, normal);
    var count := CalibrationCount(|normal|, fraction);
    assert shuffled == shuffled[..count] + shuffled[count..];
    var calibration, training := SortIndices(shuffled[..count]), SortIndices(shuffled[count..]);
    assert |calibration| == |multiset(calibration)| == |multiset(shuffled[..count])| == count;
    (calibration, training)
  }

  /** values[indices]; every index that is asked for exists. */
  function Pick<T>(values: seq<T>, indices: seq<nat>, otherwise: T): (r: seq<T>)
    ensures |r| == |indices|
  {
    seq(|indices|, k requires 0 <= k < |indices| => if indices[k] < |values| then values[indices[k]] else otherwise)
  }

  /** max(1, client count). */
  function ClientCount(config: Config): (n: nat)
    ensures n >= 1
  {
    if config.clientCount > 1 then config.clientCount else 1
  }

  function BuildPartitionIndices(config: Config, labels: seq<int>, anomalies: set<int>, holdout: Rng, shared: Rng)
    : Result<Built, BuildError>
  {
    if config.anomalyTraining then
      var normal := NormalIndices(labels, anomalies);
      if |normal| < 2 then Err(FewerThanTwoNormal) else
      var (calibration, training) := Holdout(normal, config.calibrationFraction, holdout);
      if config.calibrationRole then Ok(Built(calibration, calibration))
      else ClientShare(config, labels, training, calibration, shared)
    else
      ClientShare(config, labels, Range(|labels|), [], shared)
  }

  /** The part of the function after the holdout has been set aside. */
  function ClientShare(config: Config, labels: seq<int>, all: seq<nat>, calibration: seq<nat>, shared: Rng)
    : Result<Built, BuildError>
  {
    if !config.federatedClient || config.calibrationRole then Ok(Built(all, calibration)) else
    var clientCount := ClientCount(config);
    var partitionLabels := Pick(labels, all, 0);
    match Refused(partitionLabels, config.kind, config.clientIndex, clientCount)
    case Some(error) => Err(PartitionRefused(error))
    case None =>
      Ok(Built(Pick(all, Partitions(partitionLabels, config.kind, clientCount, shared)[config.clientIndex], 0), calibration))
  }

  lemma {:induction false} PickAppend(values: seq<nat>, a: seq<nat>, b: seq<nat>)
    ensures Pick(values, a + b, 0) == Pick(values, a, 0) + Pick(values, b, 0)
  {
  }

  lemma {:induction false} FlattenPick(values: seq<nat>, parts: seq<seq<nat>>)
    ensures Flatten(PickEach(values, parts)) == Pick(values, Flatten(parts), 0)
  {
    if parts == [] {
    } else {
      var before, last := parts[..|parts| - 1], parts[|parts| - 1];
      FlattenPick(values, before);
      assert PickEach(values, parts)[..|parts| - 1] == PickEach(values, before);
      PickAppend(values, Flatten(before), last);
    }
  }

  function PickEach(values: seq<nat>, parts: seq<seq<nat>>): (r: seq<seq<nat>>)
    ensures |r| == |parts|
  {
    seq(|parts|, c requires 0 <= c < |parts| => Pick(values, parts[c], 0))
  }

  /** Picking at permuted indices permutes what is picked. */
  lemma {:induction false} PickPermuted(values: seq<nat>, a: seq<nat>, b: seq<nat>)
    requires multiset(a) == multiset(b)
    ensures multiset(Pick(values, a, 0)) == multiset(Pick(values, b, 0))
    decreases |a|
  {
    if a == [] {
      assert |multiset(b)| == 0;
      assert b == [];
    } else {
      var x, before := a[|a| - 1], a[..|a| - 1];
      assert x in multiset(b);
      var k :| 0 <= k < |b| && b[k] == x;
      assert a == before + [x];
      assert multiset(before) == multiset(b) - multiset{x} == multiset(Without(b, k));
      PickPermuted(values, before, Without(b, k));
      PickAppend(values, before, [x]);
      PickWithout(values, b, k);
    }
  }

  lemma PickWithout(values: seq<nat>, b: seq<nat>, k: nat)
    requires k < |b|
    ensures multiset(Pick(values, b, 0)) == multiset(Pick(values, Without(b, k), 0)) + multiset(Pick(values, [b[k]], 0))
  {
    PickAppend(values, b[..k], b[k + 1..]);
    PickAppend(values, b[..k] + [b[k]], b[k + 1..]);
    PickAppend(values, b[..k], [b[k]]);
    assert b == b[..k] + [b[k]] + b[k + 1..];
  }

  lemma PartsTile(all: seq<nat>, partitionLabels: seq<int>, kind: Kind, k: nat, shared: Rng)
    requires k > 0 && |partitionLabels| == |all|
    ensures Held(PickEach(all, Partitions(partitionLabels, kind, k, shared))) == multiset(all)
  {
    var parts := Partitions(partitionLabels, kind, k, shared);
    PartitionsTile(partitionLabels, kind, k, shared);
    FlattenPick(all, parts);
    PickPermuted(all, Flatten(parts), Range(|all|));
    assert Pick(all, Range(|all|), 0) == all;
  }

  /** The index sets of all clients of one experiment. */
  function ClientSets(config: Config, labels: seq<int>, anomalies: set<int>, holdout: Rng, shared: Rng, n: nat)
    : (r: seq<seq<nat>>)
    ensures |r| == n
  {
    seq(n, c requires 0 <= c < n =>
      match BuildPartitionIndices(config.(clientIndex := c), labels, anomalies, holdout, shared)
      case Ok(built) => built.indices
      case Err(_) => [])
  }

  /** The samples to be distributed: the normal ones when an anomaly detector is
      trained, otherwise all. */
  function Samples(config: Config, labels: seq<int>, anomalies: set<int>): seq<nat> {
    if config.anomalyTraining then NormalIndices(labels, anomalies) else Range(|labels|)
  }

  /** What is set aside for calibration. */
  function Calibration(config: Config, labels: seq<int>, anomalies: set<int>, holdout: Rng): seq<nat> {
    var normal := NormalIndices(labels, anomalies);
    if config.anomalyTraining && |normal| >= 2 then Holdout(normal, config.calibrationFraction, holdout).0 else []
  }

  /** A federated experiment that can be set up: there are samples to distribute,
      two of them for a holdout, and the split is defined. */
  predicate Distributes(config: Config, labels: seq<int>, anomalies: set<int>) {
    && config.federatedClient && !config.calibrationRole && (config.kind.NonIid? ==> config.kind.alpha > 0.0)
    && |Samples(config, labels, anomalies)| >= if config.anomalyTraining then 2 else 1
  }

  /** The shares of all clients tile what they divide, and none is empty exactly
      when there is enough of it. */
  lemma SharesTile(config: Config, labels: seq<int>, all: seq<nat>, calibration: seq<nat>, shared: Rng)
    requires config.federatedClient && !config.calibrationRole && (config.kind.NonIid? ==> config.kind.alpha > 0.0) && all != []
    ensures var shares := PickEach(all, Partitions(Pick(labels, all, 0), config.kind, ClientCount(config), shared));
            && |shares| == ClientCount(config) && Held(shares) == multiset(all)
            && (NoneEmpty(shares) <==> |all| >= ClientCount(config))
            && forall c :: 0 <= c < ClientCount(config) ==>
                 ClientShare(config.(clientIndex := c), labels, all, calibration, shared) == Ok(Built(shares[c], calibration))
  {
    hide Flatten;
    var n, partitionLabels := ClientCount(config), Pick(labels, all, 0);
    var parts := Partitions(partitionLabels, config.kind, n, shared);
    PartsTile(all, partitionLabels, config.kind, n, shared);
    PartitionsTile(partitionLabels, config.kind, n, shared);
    var shares := PickEach(all, parts);
    assert forall c :: 0 <= c < n ==> |shares[c]| == |parts[c]|;
  }

  /** With one shared seed, the training sets of all clients together with the
      calibration holdout hold every sample to be distributed exactly once and no
      other. Only an anomaly detector has a holdout: its fraction of the samples,
      rounded, but at least one and at most all but one, in ascending order; the
      calibration role gets it. No client is left without samples exactly when
      there are as many of them as clients. */
  lemma ClientsAndHoldoutTile(config: Config, labels: seq<int>, anomalies: set<int>, holdout: Rng, shared: Rng)
    requires Distributes(config, labels, anomalies)
    ensures var samples, calibration := Samples(config, labels, anomalies), Calibration(config, labels, anomalies, holdout);
            var sets := ClientSets(config, labels, anomalies, holdout, shared, ClientCount(config));
            && (if config.anomalyTraining
                then IsShare(|calibration|, |samples|, config.calibrationFraction)
                else calibration == [])
            && (config.anomalyTraining ==> 1 <= |calibration| <= |samples| - 1) && Ascending(calibration)
            && BuildPartitionIndices(config.(calibrationRole := true), labels, anomalies, holdout, shared)
               == Ok(Built(if config.anomalyTraining then calibration else samples, calibration))
            && (forall c :: 0 <= c < ClientCount(config) ==>
                  BuildPartitionIndices(config.(clientIndex := c), labels, anomalies, holdout, shared) == Ok(Built(sets[c], calibration)))
            && Held(sets) + multiset(calibration) == multiset(samples)
            && (NoneEmpty(sets) <==> |samples| - |calibration| >= ClientCount(config))
  {
    hide Partitions, Held, NormalIndices, ClientShare, PickEach, Range, IsShare, Ascending, Holdout;
    var samples, calibration := Samples(config, labels, anomalies), Calibration(config, labels, anomalies, holdout);
    var training := Training(config, labels, anomalies, holdout);
    SharesTile(config, labels, training, calibration, shared);
    WithoutShare(config, labels, samples, shared);
    assert ClientSets(config, labels, anomalies, holdout, shared, ClientCount(config)) ==
           PickEach(training, Partitions(Pick(labels, training, 0), config.kind, ClientCount(config), shared));
  }

  /** What is left to train on, in ascending order. */
  lemma Training(config: Config, labels: seq<int>, anomalies: set<int>, holdout: Rng) returns (training: seq<nat>)
    requires Distributes(config, labels, anomalies)
    ensures var samples, calibration := Samples(config, labels, anomalies), Calibration(config, labels, anomalies, holdout);
            && training == (if config.anomalyTraining then Holdout(samples, config.calibrationFraction, holdout).1 else samples)
            && multiset(training) + multiset(calibration) == multiset(samples) && |training| + |calibration| == |samples|
            && training != [] && Ascending(calibration)
            && (if config.anomalyTraining
                then IsShare(|calibration|, |samples|, config.calibrationFraction)
                else calibration == [])
  {
    hide NormalIndices, Range, IsShare, Holdout;
    var samples, calibration := Samples(config, labels, anomalies), Calibration(config, labels, anomalies, holdout);
    training := if config.anomalyTraining then Holdout(samples, config.calibrationFraction, holdout).1 else samples;
    assert multiset(training) + multiset(calibration) == multiset(samples);
    assert |multiset(training) + multiset(calibration)| == |training| + |calibration| == |samples|;
  }

  lemma WithoutShare(config: Config, labels: seq<int>, all: seq<nat>, shared: Rng)
    ensures ClientShare(config.(calibrationRole := true), labels, all, [], shared) == Ok(Built(all, []))
  {
  }

  /** Without a federated client there is nothing to divide: all samples but the
      holdout are used. */
  lemma UndividedTile(config: Config, labels: seq<int>, anomalies: set<int>, holdout: Rng, shared: Rng)
    requires !config.federatedClient && !config.calibrationRole
    requires config.anomalyTraining ==> |NormalIndices(labels, anomalies)| >= 2
    ensures var r := BuildPartitionIndices(config, labels, anomalies, holdout, shared);
            && r.Ok? && r.value.calibration == Calibration(config, labels, anomalies, holdout)
            && multiset(r.value.indices) + multiset(r.value.calibration) == multiset(Samples(config, labels, anomalies))
  {
    hide NormalIndices, Holdout, Range;
  }

  /** The exceptions: fewer than two normal samples to hold some out of; otherwise
      those of the split, for a client that divides. */
  lemma BuildFails(config: Config, labels: seq<int>, anomalies: set<int>, holdout: Rng, shared: Rng)
    ensures var r, samples := BuildPartitionIndices(config, labels, anomalies, holdout, shared), Samples(config, labels, anomalies);
            && (r == Err(FewerThanTwoNormal) <==> config.anomalyTraining && |samples| < 2)
            && (r.Err? && r.error.PartitionRefused? <==>
                  && config.federatedClient && !config.calibrationRole && !(config.anomalyTraining && |samples| < 2)
                  && (samples == []
                      || !(0 <= config.clientIndex < if config.clientCount > 1 then config.clientCount else 1)
                      || (config.kind.NonIid? && config.kind.alpha <= 0.0)))
  {
    hide NormalIndices, Partitions, Range;
    var samples := Samples(config, labels, anomalies);
    if config.anomalyTraining && |samples| >= 2 {
      var parts := Holdout(samples, config.calibrationFraction, holdout);
      assert |multiset(parts.0) + multiset(parts.1)| == |parts.0| + |parts.1| == |samples|;
    }
  }

  function Multiplicity(s: seq<nat>, x: nat): nat {
    multiset(s)[x]
  }

  lemma {:induction false} RangeFiltered(n: nat, keep: nat -> bool, x: nat)
    ensures Multiplicity(Filter(Range(n), keep), x) == if x < n && keep(x) then 1 else 0
  {
    if n > 0 {
      RangeFiltered(n - 1, keep, x);
      assert Range(n)[..n - 1] == Range(n - 1);
    }
  }

  lemma {:induction false} HeldCount(sets: seq<seq<nat>>, x: nat)
    ensures Held(sets)[x] == 0 <==> forall c :: 0 <= c < |sets| ==> x !in sets[c]
    ensures Held(sets)[x] <= 1 ==> forall c, d :: 0 <= c < d < |sets| ==> !(x in sets[c] && x in sets[d])
  {
    if sets != [] {
      var before, last := sets[..|sets| - 1], sets[|sets| - 1];
      HeldCount(before, x);
      HeldLast(sets);
      assert forall c :: 0 <= c < |before| ==> before[c] == sets[c];
      assert x in last <==> multiset(last)[x] > 0;
    }
  }

  /** Sample by sample: one that is to be distributed belongs to the holdout or to
      exactly one client, never to both; any other belongs to nobody. */
  lemma ExactlyOneHolder(config: Config, labels: seq<int>, anomalies: set<int>, holdout: Rng, shared: Rng, x: nat)
    requires Distributes(config, labels, anomalies)
    ensures var calibration := Calibration(config, labels, anomalies, holdout);
            var sets := ClientSets(config, labels, anomalies, holdout, shared, ClientCount(config));
            && ((x < |labels| && (config.anomalyTraining ==> labels[x] !in anomalies)) <==>
                x in calibration || exists c :: 0 <= c < |sets| && x in sets[c])
            && (forall c :: 0 <= c < |sets| ==> !(x in calibration && x in sets[c]))
            && (forall c, d :: 0 <= c < d < |sets| ==> !(x in sets[c] && x in sets[d]))
  {
    hide BuildPartitionIndices, ClientSets, Calibration, Held;
    ClientsAndHoldoutTile(config, labels, anomalies, holdout, shared);
    var calibration := Calibration(config, labels, anomalies, holdout);
    var sets := ClientSets(config, labels, anomalies, holdout, shared, ClientCount(config));
    RangeFiltered(|labels|, IsNormal(labels, anomalies), x);
    RangeCount(|labels|, x);
    HeldCount(sets, x);
    CountIn(calibration, x);
    assert Held(sets)[x] + Multiplicity(calibration, x) == Multiplicity(Samples(config, labels, anomalies), x);
  }

  lemma RangeCount(n: nat, x: nat)
    ensures Multiplicity(Range(n), x) == if x < n then 1 else 0
  {
    var always := (y: nat) => true;
    FilterEverything(Range(n), always);
    RangeFiltered(n, always, x);
  }

  lemma CountIn(s: seq<nat>, x: nat)
    ensures x in s <==> Multiplicity(s, x) > 0
  {
  }
}
