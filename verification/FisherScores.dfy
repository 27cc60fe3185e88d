/** Weighted Fisher scores (train_packet_cross_vantage.py,
    weighted_fisher_scores), over exact reals. */
module FisherScores {
  import opened Results
  import opened Seqs
  import opened Sorting
  import opened Sums
  import opened ClassSums

  /** One row: its features, its class and its weight. */
  datatype Observation = Observation(features: seq<real>, name: string, weight: real) {
    function At(j: nat): real {
      if j < |features| then features[j] else 0.0
    }
  }

  function WeightOf(): Observation -> real {
    (o: Observation) => o.weight
  }

  function WeightedValue(j: nat): Observation -> real {
    (o: Observation) => o.weight * o.At(j)
  }

  function WeightedSquare(j: nat): Observation -> real {
    (o: Observation) => o.weight * (o.At(j) * o.At(j))
  }

  /** Weight times squared distance of feature j from a centre. */
  function Deviation(j: nat, centre: real): Observation -> real {
    (o: Observation) => o.weight * ((o.At(j) - centre) * (o.At(j) - centre))
  }

  function ClassOf(): Observation -> string {
    (o: Observation) => o.name
  }

  function Members(rows: seq<Observation>, name: string): seq<Observation> {
    Filter(rows, InClass(ClassOf(), name))
  }

  function Weight(rows: seq<Observation>): real {
    SumBy(rows, WeightOf())
  }

  function Mean(rows: seq<Observation>, j: nat): real
    requires Weight(rows) > 0.0
  {
    SumBy(rows, WeightedValue(j)) / Weight(rows)
  }

  function Variance(rows: seq<Observation>, j: nat): real
    requires Weight(rows) > 0.0
  {
    SumBy(rows, Deviation(j, Mean(rows, j))) / Weight(rows)
  }

  /** The weighted scatter of all rows about a centre. */
  function Scatter(rows: seq<Observation>, j: nat, centre: real): real {
    SumBy(rows, Deviation(j, centre))
  }

  /** What one class adds to the numerator; a class without weight is skipped. */
  function BetweenOf(members: seq<Observation>, j: nat, overall: real): real {
    if Weight(members) <= 0.0 then 0.0
    else Weight(members) * ((Mean(members, j) - overall) * (Mean(members, j) - overall))
  }

  /** What one class adds to the denominator. */
  function WithinOf(members: seq<Observation>, j: nat): real {
    if Weight(members) <= 0.0 then 0.0 else Weight(members) * Variance(members, j)
  }

  function Between(rows: seq<Observation>, classes: seq<string>, j: nat, overall: real): real {
    if classes == [] then 0.0
    else Between(rows, classes[..|classes| - 1], j, overall) + BetweenOf(Members(rows, classes[|classes| - 1]), j, overall)
  }

  function Within(rows: seq<Observation>, classes: seq<string>, j: nat): real {
    if classes == [] then 0.0
    else Within(rows, classes[..|classes| - 1], j) + WithinOf(Members(rows, classes[|classes| - 1]), j)
  }

  datatype FisherError = InvalidMatrix | InvalidWeights

  predicate WeightsValid(rows: seq<Observation>) {
    (forall i :: 0 <= i < |rows| ==> rows[i].weight >= 0.0) && Weight(rows) > 0.0
  }

  const SMALLEST: real := 0.000000000001

  function Score(between: real, within: real): real {
    between / if within > SMALLEST then within else SMALLEST
  }

  /** One row of the matrix, and its label. */
  datatype Sample = Sample(features: seq<real>, name: string)

  function Observed(samples: seq<Sample>, weights: seq<real>): (rows: seq<Observation>)
    requires |samples| == |weights|
    ensures |rows| == |samples|
  {
    seq(|samples|, i requires 0 <= i < |samples| => Observation(samples[i].features, samples[i].name, weights[i]))
  }

  function Itself(): real -> real {
    (x: real) => x
  }

  lemma {:induction false} SumOfWeights(samples: seq<Sample>, weights: seq<real>)
    requires |samples| == |weights|
    ensures Weight(Observed(samples, weights)) == SumBy(weights, Itself())
  {
    if weights != [] {
      var last := |weights| - 1;
      SumOfWeights(samples[..last], weights[..last]);
      assert Observed(samples, weights)[..last] == Observed(samples[..last], weights[..last]);
    }
  }

  lemma ValidExactly(samples: seq<Sample>, weights: seq<real>)
    requires |samples| == |weights|
    ensures WeightsValid(Observed(samples, weights)) <==>
            (forall i :: 0 <= i < |weights| ==> weights[i] >= 0.0) && SumBy(weights, Itself()) > 0.0
  {
    hide Weight;
    SumOfWeights(samples, weights);
    assert forall i :: 0 <= i < |weights| ==> Observed(samples, weights)[i].weight == weights[i];
  }

  datatype Scored = Scored(column: string, score: real)

  function ByScore(): (Scored, Scored) -> bool {
    (a: Scored, b: Scored) => a.score >= b.score
  }

  /** The score of every column, in the order of the columns. */
  function Scores(rows: seq<Observation>, columns: seq<string>): (r: seq<Scored>)
    requires WeightsValid(rows)
    ensures |r| == |columns|
  {
    var classes := Dedupe(Names(rows));
    seq(|columns|, j requires 0 <= j < |columns| =>
      Scored(columns[j],
             if |classes| < 2 then 0.0 else Score(Between(rows, classes, j, Mean(rows, j)), Within(rows, classes, j))))
  }

  /** What can be refused: a matrix of another width, or weights of another number,
      a negative one, or none positive. */
  method WeightedFisherScores(samples: seq<Sample>, columns: seq<string>, weights: seq<real>)
    returns (r: Result<seq<Scored>, FisherError>)
    ensures r == Err(InvalidMatrix) <==> exists i :: 0 <= i < |samples| && |samples[i].features| != |columns|
    ensures r == Err(InvalidWeights) <==>
              && (forall i :: 0 <= i < |samples| ==> |samples[i].features| == |columns|)
              && (|weights| != |samples| || (exists i :: 0 <= i < |weights| && weights[i] < 0.0) || SumBy(weights, Itself()) <= 0.0)
    ensures r.Ok? ==>
              && |weights| == |samples| && WeightsValid(Observed(samples, weights))
              && r.value == Sort(Scores(Observed(samples, weights), columns), ByScore())
  {
    hide WeightsValid, BetweenOf, WithinOf, Mean, Members, Score, Sort;
    if exists i :: 0 <= i < |samples| && |samples[i].features| != |columns| { return Err(InvalidMatrix); }
    if |weights| == |samples| { ValidExactly(samples, weights); }
    if |weights| != |samples| || !WeightsValid(Observed(samples, weights)) { return Err(InvalidWeights); }
    var rows := Observed(samples, weights);
    var classes := Dedupe(Names(rows));
    if |classes| < 2 {
      r := Ok(seq(|columns|, j requires 0 <= j < |columns| => Scored(columns[j], 0.0)));
      AlreadySorted(r.value);
      assert r.value == Scores(rows, columns);
      return;
    }
    WeightIsPositive(rows);
    var numerator, denominator := AddClasses(rows, |columns|, classes);
    var scores := seq(|columns|, j requires 0 <= j < |columns| => Scored(columns[j], Score(numerator[j], denominator[j])));
    assert scores == Scores(rows, columns);
    return Ok(Sort(scores, ByScore()));
  }

  lemma WeightIsPositive(rows: seq<Observation>)
    requires WeightsValid(rows)
    ensures Weight(rows) > 0.0
  {
  }

  /** Sorting equal scores changes nothing. */
  lemma {:induction false} AlreadySorted(s: seq<Scored>)
    requires forall i :: 0 <= i < |s| ==> s[i].score == 0.0
    ensures Sort(s, ByScore()) == s
  {
    if s != [] {
      AlreadySorted(s[..|s| - 1]);
      assert s == s[..|s| - 1] + [s[|s| - 1]];
    }
  }

  /** The ranking lists every column once, best score first, and keeps the order
      of the columns among equal scores. */
  lemma RankingIsStable(rows: seq<Observation>, columns: seq<string>, p: Scored)
    requires WeightsValid(rows)
    ensures var scores := Scores(rows, columns);
            var ranking := Sort(scores, ByScore());
            && multiset(ranking) == multiset(scores)
            && (forall i, j :: 0 <= i < j < |ranking| ==> ranking[i].score >= ranking[j].score)
            && Filter(ranking, TiedWith(p, ByScore())) == Filter(scores, TiedWith(p, ByScore()))
  {
    hide Scores;
    var scores := Scores(rows, columns);
    SortIs(scores, ByScore());
    SortStable(scores, p, ByScore());
    var ranking := Sort(scores, ByScore());
    forall i, j | 0 <= i < j < |ranking| ensures ranking[i].score >= ranking[j].score {
      assert ByScore()(ranking[i], ranking[j]);
    }
  }

  /** The loop over the classes. */
  method AddClasses(rows: seq<Observation>, columns: nat, classes: seq<string>)
    returns (numerator: seq<real>, denominator: seq<real>)
    requires Weight(rows) > 0.0
    ensures |numerator| == |denominator| == columns
    ensures forall j :: 0 <= j < columns ==> numerator[j] == Between(rows, classes, j, Mean(rows, j))
    ensures forall j :: 0 <= j < columns ==> denominator[j] == Within(rows, classes, j)
  {
    hide Weight, BetweenOf, WithinOf, Mean, Members;
    numerator, denominator := seq(columns, j => 0.0), seq(columns, j => 0.0);
    for c := 0 to |classes|
      invariant |numerator| == |denominator| == columns
      invariant forall j :: 0 <= j < columns ==> numerator[j] == Between(rows, classes[..c], j, Mean(rows, j))
      invariant forall j :: 0 <= j < columns ==> denominator[j] == Within(rows, classes[..c], j)
    {
      assert classes[..c + 1][..c] == classes[..c];
      var members := Members(rows, classes[c]);
      numerator := seq(columns, j requires 0 <= j < columns => numerator[j] + BetweenOf(members, j, Mean(rows, j)));
      denominator := seq(columns, j requires 0 <= j < columns => denominator[j] + WithinOf(members, j));
    }
    assert classes[..|classes|] == classes;
  }

  function Names(rows: seq<Observation>): (r: seq<string>)
    ensures |r| == |rows| && forall i :: 0 <= i < |rows| ==> r[i] == rows[i].name
  {
    seq(|rows|, i requires 0 <= i < |rows| => rows[i].name)
  }

  // ----- the decomposition -----

  /** The scatter about a centre, from the sums of squares, values and weights. */
  function Expanded(squares: real, values: real, weight: real, centre: real): real {
    squares - 2.0 * centre * values + centre * centre * weight
  }

  function SquaredDistance(w: real, x: real, c: real): real {
    w * ((x - c) * (x - c))
  }

  lemma {:induction false} ScatterExpanded(rows: seq<Observation>, j: nat, centre: real)
    ensures Scatter(rows, j, centre) ==
            Expanded(SumBy(rows, WeightedSquare(j)), SumBy(rows, WeightedValue(j)), Weight(rows), centre)
  {
    hide Expanded, WeightedSquare, WeightedValue, WeightOf, Deviation;
    if rows == [] {
      NothingExpanded(centre);
    } else {
      var before := rows[..|rows| - 1];
      ScatterExpanded(before, j, centre);
      ExpandTerm(SumBy(before, WeightedSquare(j)), SumBy(before, WeightedValue(j)), Weight(before), rows[|rows| - 1], j, centre);
    }
  }

  lemma NothingExpanded(centre: real)
    ensures Expanded(0.0, 0.0, 0.0, centre) == 0.0
  {
  }

  lemma ExpandTerm(squares: real, values: real, weight: real, o: Observation, j: nat, c: real)
    ensures Expanded(squares + WeightedSquare(j)(o), values + WeightedValue(j)(o), weight + WeightOf()(o), c) ==
            Expanded(squares, values, weight, c) + Deviation(j, c)(o)
  {
    var w, x := o.weight, o.At(j);
    assert w * ((x - c) * (x - c)) == w * (x * x) - 2.0 * c * (w * x) + c * c * w;
    assert 2.0 * c * (values + w * x) == 2.0 * c * values + 2.0 * c * (w * x);
    assert c * c * (weight + w) == c * c * weight + c * c * w;
  }

  lemma SteinerTerm(squares: real, values: real, weight: real, mean: real, centre: real)
    requires values == mean * weight
    ensures Expanded(squares, values, weight, centre) ==
            Expanded(squares, values, weight, mean) + SquaredDistance(weight, mean, centre)
  {
    assert 2.0 * centre * values == 2.0 * centre * mean * weight;
    assert 2.0 * mean * values == 2.0 * mean * mean * weight;
    assert weight * ((mean - centre) * (mean - centre)) ==
           mean * mean * weight - 2.0 * centre * mean * weight + centre * centre * weight;
  }

  lemma {:induction false} WeightlessScatter(rows: seq<Observation>, j: nat, centre: real)
    requires forall i :: 0 <= i < |rows| ==> rows[i].weight >= 0.0
    ensures Weight(rows) >= 0.0
    ensures Weight(rows) == 0.0 ==> Scatter(rows, j, centre) == 0.0
  {
    if rows != [] { WeightlessScatter(rows[..|rows| - 1], j, centre); }
  }

  /** One class: its scatter about any centre is what it adds to the denominator
      plus what it adds to the numerator. */
  lemma ClassScatter(members: seq<Observation>, j: nat, centre: real)
    requires forall i :: 0 <= i < |members| ==> members[i].weight >= 0.0
    ensures Scatter(members, j, centre) == WithinOf(members, j) + BetweenOf(members, j, centre)
  {
    hide Expanded, SquaredDistance, Mean, Variance, Scatter;
    WeightlessScatter(members, j, centre);
    if Weight(members) > 0.0 {
      var mean := Mean(members, j);
      ScatterExpanded(members, j, centre);
      ScatterExpanded(members, j, mean);
      MeanIs(members, j);
      SteinerTerm(SumBy(members, WeightedSquare(j)), SumBy(members, WeightedValue(j)), Weight(members), mean, centre);
    }
  }

  lemma MeanIs(members: seq<Observation>, j: nat)
    requires Weight(members) > 0.0
    ensures SumBy(members, WeightedValue(j)) == Mean(members, j) * Weight(members)
    ensures Weight(members) * Variance(members, j) == Scatter(members, j, Mean(members, j))
    ensures forall c :: BetweenOf(members, j, c) == SquaredDistance(Weight(members), Mean(members, j), c)
  {
    hide Weight, SumBy;
  }

  lemma MembersWeights(rows: seq<Observation>, name: string)
    requires forall i :: 0 <= i < |rows| ==> rows[i].weight >= 0.0
    ensures forall i :: 0 <= i < |Members(rows, name)| ==> Members(rows, name)[i].weight >= 0.0
  {
    var members := Members(rows, name);
    forall i | 0 <= i < |members| ensures members[i].weight >= 0.0 {
      FilterMember(rows, InClass(ClassOf(), name), members[i]);
      assert members[i] in members && members[i] in rows;
    }
  }

  lemma {:induction false} ClassesScatter(rows: seq<Observation>, classes: seq<string>, j: nat, centre: real)
    requires forall i :: 0 <= i < |rows| ==> rows[i].weight >= 0.0
    ensures SumOverClasses(rows, Deviation(j, centre), ClassOf(), classes) ==
            Within(rows, classes, j) + Between(rows, classes, j, centre)
  {
    if classes != [] {
      ClassesScatter(rows, classes[..|classes| - 1], j, centre);
      MembersWeights(rows, classes[|classes| - 1]);
      ClassScatter(Members(rows, classes[|classes| - 1]), j, centre);
    }
  }

  /** For nonnegative weights, each feature's between-class sum and within-class
      sum add up to the total weighted scatter about the overall mean. */
  lemma FisherDecomposition(rows: seq<Observation>, j: nat)
    requires WeightsValid(rows)
    ensures var classes, overall := Dedupe(Names(rows)), Mean(rows, j);
            Between(rows, classes, j, overall) + Within(rows, classes, j) == Scatter(rows, j, overall)
  {
    var classes, overall := Dedupe(Names(rows)), Mean(rows, j);
    forall o | o in rows ensures ClassOf()(o) in classes {
      var i :| 0 <= i < |rows| && rows[i] == o;
      assert Names(rows)[i] == o.name && Names(rows)[i] in classes;
    }
    SumByClasses(rows, Deviation(j, overall), ClassOf(), classes);
    ClassesScatter(rows, classes, j, overall);
  }
}
