/** The bookkeeping of out-of-fold evaluation
    (generate_oof_fingerprinting_results.py, evaluate_stage). */
module StageEvaluation {
  import opened Results
  import opened Seqs
  import opened Randomness
  import opened Folds

  /** Every row that some fold tests is marked with such a fold, counted
      from one; the others stay at -1. */
  method RecordFolds(m: nat, splits: seq<Split>) returns (fold: array<int>)
    requires forall k, i :: 0 <= k < |splits| && i in splits[k].test ==> i < m
    ensures fresh(fold) && fold.Length == m
    ensures forall i :: 0 <= i < m ==> Recorded(splits, i, fold[i])
  {
    fold := new int[m](_ => -1);
    for k := 0 to |splits|
      invariant forall i :: 0 <= i < m ==> Recorded(splits[..k], i, fold[i])
    {
      var test := splits[k].test;
      for t := 0 to |test|
        invariant forall i: nat :: i < m ==> if i in test[..t] then fold[i] == k + 1 else Recorded(splits[..k], i, fold[i])
      {
        assert test[t] in test;
        assert test[..t + 1] == test[..t] + [test[t]];
        fold[test[t]] := k + 1;
      }
      assert test[..|test|] == test;
      forall i: nat | i < m ensures Recorded(splits[..k + 1], i, fold[i]) { RecordedNext(splits, k, i, fold[i]); }
    }
    assert splits[..|splits|] == splits;
  }

  /** fold is one of the splits that test row i, or -1 when none does. */
  ghost predicate Recorded(splits: seq<Split>, i: nat, fold: int) {
    if fold == -1 then forall k :: 0 <= k < |splits| ==> i !in splits[k].test
    else 1 <= fold <= |splits| && i in splits[fold - 1].test
  }

  lemma RecordedNext(splits: seq<Split>, k: nat, i: nat, fold: int)
    requires k < |splits|
    requires if i in splits[k].test then fold == k + 1 else Recorded(splits[..k], i, fold)
    ensures Recorded(splits[..k + 1], i, fold)
  {
    assert forall j :: 0 <= j < k ==> splits[..k + 1][j] == splits[..k][j];
    assert splits[..k + 1][k] == splits[k];
  }

  /** The rows of the classes with at least two experiments. */
  function Eligible(rows: seq<Row>): seq<Row> {
    Filter(rows, WellCovered(rows))
  }

  function WellCovered(rows: seq<Row>): Row -> bool {
    (r: Row) => |GroupsOf(rows, r.target)| >= 2
  }

  /** The smallest number of experiments of a class. */
  function Fewest(rows: seq<Row>, all: seq<Row>): (m: nat)
    requires rows != []
    ensures forall r :: r in rows ==> m <= |GroupsOf(all, r.target)|
    ensures exists r :: r in rows && m == |GroupsOf(all, r.target)|
  {
    var last := rows[|rows| - 1];
    assert last in rows;
    if |rows| == 1 then |GroupsOf(all, last.target)| else
      var before := Fewest(rows[..|rows| - 1], all);
      assert forall r :: r in rows ==> r in rows[..|rows| - 1] || r == last;
      assert forall r :: r in rows[..|rows| - 1] ==> r in rows;
      if before <= |GroupsOf(all, last.target)| then before else |GroupsOf(all, last.target)|
  }

  /** The rows that are evaluated are those of the classes with two different
      experiments. */
  lemma EligibleExactly(rows: seq<Row>, r: Row)
    ensures r in Eligible(rows) <==>
            r in rows && exists p, q :: p in rows && q in rows && p.target == r.target == q.target && p.group != q.group
  {
    FilterMember(rows, WellCovered(rows), r);
    var groups := GroupsOf(rows, r.target);
    if |groups| >= 2 {
      var g :| g in groups;
      assert |groups - {g}| > 0;
      var h :| h in groups - {g};
      var p :| p in rows && p.target == r.target && p.group == g;
      var q :| q in rows && q.target == r.target && q.group == h;
    }
    if p, q :| p in rows && q in rows && p.target == r.target == q.target && p.group != q.group {
      assert p.group in groups && q.group in groups - {p.group};
      assert |groups - {p.group}| > 0;
    }
  }

  lemma EligibleGroups(rows: seq<Row>)
    ensures forall r :: r in Eligible(rows) ==> |GroupsOf(Eligible(rows), r.target)| >= 2
  {
    forall r | r in Eligible(rows) ensures |GroupsOf(Eligible(rows), r.target)| >= 2 {
      FilterMember(rows, WellCovered(rows), r);
      forall q | q in rows && q.target == r.target ensures q in Eligible(rows) { FilterMember(rows, WellCovered(rows), q); }
      assert GroupsOf(rows, r.target) <= GroupsOf(Eligible(rows), r.target);
      SubsetSize(GroupsOf(rows, r.target), GroupsOf(Eligible(rows), r.target));
    }
  }

  lemma SubsetSize(a: set<nat>, b: set<nat>)
    requires a <= b
    ensures |a| <= |b|
  {
    assert b == a + (b - a);
  }

  /** Fold number fold, counted from one, tests row i. */
  predicate TestedIn(rows: seq<Row>, n: nat, rng: Rng, i: nat, fold: int)
    requires i < |rows|
  {
    1 <= fold <= n && rows[i].group in Tested(rows, n, rng, fold - 1)
  }

  /** How a stage ends: too few classes, an exception, a row left without a
      prediction, or the fold that tested each eligible row. */
  datatype Stage = Constant | Insufficient | Raised(error: SplitError) | Unpredicted | Evaluated(folds: nat, foldOf: seq<int>)

  /** The bookkeeping of one stage. The only exception is that an experiment of
      the evaluated classes carries two labels. */
  method EvaluateStage(rows: seq<Row>, maxFolds: int, rng: Rng) returns (stage: Stage)
    ensures stage != Unpredicted
    ensures stage.Raised? ==> stage.error == MultipleLabels
    ensures stage.Constant? <==> |Labels(rows)| < 2
    ensures stage.Raised? <==> |Labels(Eligible(rows))| >= 2 && maxFolds >= 2 && !OneLabelEach(Eligible(rows)) && |Labels(rows)| >= 2
    ensures stage.Evaluated? <==> |Labels(Eligible(rows))| >= 2 && maxFolds >= 2 && OneLabelEach(Eligible(rows)) && |Labels(rows)| >= 2
    ensures stage.Evaluated? ==>
              && Enough(Eligible(rows), stage.folds) && stage.folds <= maxFolds
              && (stage.folds == maxFolds || exists r :: r in Eligible(rows) && stage.folds == |GroupsOf(Eligible(rows), r.target)|)
              && |stage.foldOf| == |Eligible(rows)|
              && forall i: nat :: i < |stage.foldOf| ==> TestedIn(Eligible(rows), stage.folds, rng, i, stage.foldOf[i])
  {
    hide OneLabelEach, GroupsOf, Tested, SplitOf, Eligible, Labels, Enough, Recorded;
    if |Labels(rows)| < 2 { return Constant; }
    var eligible := Eligible(rows);
    if |Labels(eligible)| < 2 { return Insufficient; }
    EligibleGroups(rows);
    SomeRow(eligible);
    var fewest := Fewest(eligible, eligible);
    var n := if maxFolds < fewest then maxFolds else fewest;
    FewestIsTwo(eligible, fewest);
    if n < 2 { return Insufficient; }
    FewestIsEnough(eligible, fewest, n);
    var splits, raised := ExperimentStratifiedSplits(eligible, n, rng);
    if raised.Some? { return Raised(raised.value); }
    forall k: nat | k < n { SplitIs(eligible, Tested(eligible, n, rng, k)); }
    var recorded := RecordFolds(|eligible|, splits);
    var fold := recorded[..];
    forall i: nat | i < |eligible| ensures TestedIn(eligible, n, rng, i, fold[i]) {
      var k := TestedOnce(eligible, n, rng, i);
      RecordedIn(splits, i, fold[i], k);
    }
    if exists i :: 0 <= i < |fold| && fold[i] < 0 { return Unpredicted; }
    return Evaluated(n, fold);
  }

  /** A row that some fold tests is marked with a fold that tests it. */
  lemma RecordedIn(splits: seq<Split>, i: nat, fold: int, k: nat)
    requires Recorded(splits, i, fold) && k < |splits| && i in splits[k].test
    ensures 1 <= fold <= |splits| && i in splits[fold - 1].test
  {
  }

  lemma FewestIsTwo(rows: seq<Row>, fewest: nat)
    requires exists r :: r in rows && fewest == |GroupsOf(rows, r.target)|
    requires forall r :: r in rows ==> |GroupsOf(rows, r.target)| >= 2
    ensures fewest >= 2
  {
  }

  lemma FewestIsEnough(rows: seq<Row>, fewest: nat, n: nat)
    requires 2 <= n <= fewest && forall r :: r in rows ==> fewest <= |GroupsOf(rows, r.target)|
    ensures Enough(rows, n)
  {
  }

  lemma SomeRow(rows: seq<Row>)
    requires |Labels(rows)| >= 2
    ensures rows != []
  {
    assert rows == [] ==> Labels(rows) == {};
  }
}
