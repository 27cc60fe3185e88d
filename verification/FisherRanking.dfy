/** What the Fisher scores and their ranking are, with every sum written out over the
    rows. */
module FisherRanking {
  import opened Seqs
  import opened Sorting
  import opened Sums
  import opened ClassSums
  import opened FisherScores

  // ----- the two sums over the rows -----

  function Squared(x: real): real {
    x * x
  }

  function RowWeight(): Observation -> real {
    (o: Observation) => o.weight
  }

  function RowValue(j: nat): Observation -> real {
    (o: Observation) => o.weight * if j < |o.features| then o.features[j] else 0.0
  }

  /** f for the rows of one class, nothing for the others. */
  function OnlyIn(name: string, f: Observation -> real): Observation -> real {
    (o: Observation) => if o.name == name then f(o) else 0.0
  }

  /** The weighted mean of feature j over all rows, and over those of one class. */
  function OverallMean(rows: seq<Observation>, j: nat): real {
    if SumBy(rows, RowWeight()) > 0.0 then SumBy(rows, RowValue(j)) / SumBy(rows, RowWeight()) else 0.0
  }

  function ClassMean(rows: seq<Observation>, name: string, j: nat): real {
    if SumBy(rows, OnlyIn(name, RowWeight())) > 0.0
    then SumBy(rows, OnlyIn(name, RowValue(j))) / SumBy(rows, OnlyIn(name, RowWeight())) else 0.0
  }

  /** The weighted squared distances of the class means from the overall mean. */
  function SpreadOfMeans(rows: seq<Observation>, j: nat): Observation -> real {
    (o: Observation) => o.weight * Squared(ClassMean(rows, o.name, j) - OverallMean(rows, j))
  }

  /** The weighted squared distances of the rows from their class means. */
  function SpreadInClass(rows: seq<Observation>, j: nat): Observation -> real {
    (o: Observation) => o.weight * Squared((if j < |o.features| then o.features[j] else 0.0) - ClassMean(rows, o.name, j))
  }

  function BetweenClasses(rows: seq<Observation>, j: nat): real {
    SumBy(rows, SpreadOfMeans(rows, j))
  }

  function WithinClasses(rows: seq<Observation>, j: nat): real {
    SumBy(rows, SpreadInClass(rows, j))
  }

  predicate TwoClasses(rows: seq<Observation>) {
    exists i, k :: 0 <= i < k < |rows| && rows[i].name != rows[k].name
  }

  // ----- class by class -----

  lemma {:induction false} SumOfMembers(rows: seq<Observation>, name: string, f: Observation -> real)
    ensures SumBy(rows, OnlyIn(name, f)) == SumBy(Members(rows, name), f)
  {
    if rows != [] {
      SumOfMembers(rows[..|rows| - 1], name, f);
      if rows[|rows| - 1].name == name { SumOneMore(Members(rows[..|rows| - 1], name), rows[|rows| - 1], f); }
    }
  }

  lemma SumOneMore(rows: seq<Observation>, o: Observation, f: Observation -> real)
    ensures SumBy(rows + [o], f) == SumBy(rows, f) + f(o)
  {
    assert (rows + [o])[..|rows|] == rows;
  }

  lemma {:induction false} SumSame(rows: seq<Observation>, f: Observation -> real, g: Observation -> real)
    requires forall o :: o in rows ==> f(o) == g(o)
    ensures SumBy(rows, f) == SumBy(rows, g)
  {
    if rows != [] { SumSame(rows[..|rows| - 1], f, g); }
  }

  lemma MeanOfClass(rows: seq<Observation>, name: string, j: nat)
    ensures Weight(Members(rows, name)) > 0.0 ==> ClassMean(rows, name, j) == Mean(Members(rows, name), j)
  {
    var members := Members(rows, name);
    SumOfMembers(rows, name, RowWeight());
    SumOfMembers(rows, name, RowValue(j));
    SumSame(members, RowWeight(), WeightOf());
    SumSame(members, RowValue(j), WeightedValue(j));
  }

  lemma MeanOfAll(rows: seq<Observation>, j: nat)
    requires Weight(rows) > 0.0
    ensures OverallMean(rows, j) == Mean(rows, j)
  {
    SumSame(rows, RowWeight(), WeightOf());
    SumSame(rows, RowValue(j), WeightedValue(j));
  }

  /** Rows of one class are all at one distance from the overall mean. */
  lemma {:induction false} EqualDistances(members: seq<Observation>, d: real, f: Observation -> real)
    requires forall o :: o in members ==> f(o) == o.weight * d
    ensures SumBy(members, f) == Weight(members) * d
  {
    if members != [] {
      var before, last := members[..|members| - 1], members[|members| - 1];
      EqualDistances(before, d, f);
      assert (Weight(before) + last.weight) * d == Weight(before) * d + last.weight * d;
    }
  }

  lemma InClassMember(rows: seq<Observation>, name: string, o: Observation)
    ensures o in Members(rows, name) <==> o in rows && o.name == name
  {
    FilterMember(rows, InClass(ClassOf(), name), o);
  }

  /** What a class adds to the numerator and to the denominator. */
  lemma ClassAdds(rows: seq<Observation>, name: string, j: nat)
    requires WeightsValid(rows)
    ensures ClassSum(rows, SpreadOfMeans(rows, j), ClassOf(), name) == BetweenOf(Members(rows, name), j, Mean(rows, j))
    ensures ClassSum(rows, SpreadInClass(rows, j), ClassOf(), name) == WithinOf(Members(rows, name), j)
  {
    hide Mean, Weight, SumBy, ClassMean, OverallMean, Variance;
    var members, mean := Members(rows, name), ClassMean(rows, name, j);
    MeanOfAll(rows, j) by { WeightIsPositive(rows); }
    MeanOfClass(rows, name, j);
    MembersWeights(rows, name);
    forall o | o in members ensures o.name == name { InClassMember(rows, name, o); }
    EqualDistances(members, Squared(mean - OverallMean(rows, j)), SpreadOfMeans(rows, j));
    WeightlessScatter(members, j, mean);
    SumSame(members, SpreadInClass(rows, j), Deviation(j, mean));
    assert SumBy(members, SpreadInClass(rows, j)) == Scatter(members, j, mean);
    if Weight(members) > 0.0 { MeanIs(members, j); }
  }

  lemma {:induction false} ClassesAdd(rows: seq<Observation>, classes: seq<string>, j: nat)
    requires WeightsValid(rows)
    ensures SumOverClasses(rows, SpreadOfMeans(rows, j), ClassOf(), classes) == Between(rows, classes, j, Mean(rows, j))
    ensures SumOverClasses(rows, SpreadInClass(rows, j), ClassOf(), classes) == Within(rows, classes, j)
  {
    hide Mean, ClassSum, SpreadOfMeans, SpreadInClass, BetweenOf, WithinOf, WeightsValid;
    if classes != [] {
      ClassesAdd(rows, classes[..|classes| - 1], j);
      ClassAdds(rows, classes[|classes| - 1], j);
    }
  }

  lemma ClassesOf(rows: seq<Observation>) returns (classes: seq<string>)
    ensures classes == Dedupe(Names(rows)) && Distinct(classes)
    ensures forall o :: o in rows ==> ClassOf()(o) in classes
    ensures TwoClasses(rows) <==> |classes| >= 2
  {
    hide Dedupe, TwoClasses;
    classes := Dedupe(Names(rows));
    forall o | o in rows ensures ClassOf()(o) in classes {
      var i :| 0 <= i < |rows| && rows[i] == o;
      assert Names(rows)[i] in classes;
    }
    TwoNames(rows, classes);
  }

  lemma TwoNames(rows: seq<Observation>, classes: seq<string>)
    requires Distinct(classes) && (forall o :: o in rows ==> o.name in classes)
    requires forall name :: name in classes ==> name in Names(rows)
    ensures TwoClasses(rows) <==> |classes| >= 2
  {
    if i, k :| 0 <= i < k < |rows| && rows[i].name != rows[k].name {
      assert rows[i] in rows && rows[k] in rows;
    }
    if |classes| >= 2 {
      assert classes[0] in Names(rows) && classes[1] in Names(rows);
      var i :| 0 <= i < |rows| && Names(rows)[i] == classes[0];
      var k :| 0 <= k < |rows| && Names(rows)[k] == classes[1];
      assert rows[if i < k then i else k].name != rows[if i < k then k else i].name;
    }
  }

  // ----- the law of the scores -----

  /** With two classes, the score of a column times its within-class sum (at least
      1e-12) is its between-class sum; otherwise it is zero. */
  lemma ScoreLaw(rows: seq<Observation>, columns: seq<string>, j: nat)
    requires WeightsValid(rows) && j < |columns|
    ensures Scores(rows, columns)[j].column == columns[j]
    ensures var score, within := Scores(rows, columns)[j].score, WithinClasses(rows, j);
            if TwoClasses(rows) then score * (if within > 0.000000000001 then within else 0.000000000001) == BetweenClasses(rows, j)
            else score == 0.0
  {
    hide Mean, SumBy, Between, Within, SpreadOfMeans, SpreadInClass, SumOverClasses, WeightsValid, TwoClasses;
    var classes := ClassesOf(rows);
    ClassesAdd(rows, classes, j);
    SumByClasses(rows, SpreadOfMeans(rows, j), ClassOf(), classes);
    SumByClasses(rows, SpreadInClass(rows, j), ClassOf(), classes);
    WeightIsPositive(rows);
    assert WithinClasses(rows, j) == Within(rows, classes, j);
    assert BetweenClasses(rows, j) == Between(rows, classes, j, Mean(rows, j));
    Times(BetweenClasses(rows, j), if WithinClasses(rows, j) > SMALLEST then WithinClasses(rows, j) else SMALLEST);
  }

  lemma Times(x: real, y: real)
    requires y > 0.0
    ensures x / y * y == x
  {
  }

  /** The ranking lists every column once, with its score, best first. */
  lemma RankingLaw(rows: seq<Observation>, columns: seq<string>) returns (place: seq<nat>)
    requires WeightsValid(rows)
    ensures var ranking := Sort(Scores(rows, columns), ByScore());
            && |place| == |ranking| == |columns| && Distinct(place) && (forall j: nat :: j in place <==> j < |columns|)
            && (forall p :: 0 <= p < |place| ==>
                  place[p] < |columns| && ranking[p] == Scores(rows, columns)[place[p]] && ranking[p].column == columns[place[p]])
            && (forall p, q :: 0 <= p < q < |ranking| ==> ranking[p].score >= ranking[q].score)
  {
    hide Scores, Sort, WeightsValid;
    var scores := Scores(rows, columns);
    RankingIsStable(rows, columns, Scored("", 0.0));
    place := PermutationPlaces(Sort(scores, ByScore()), scores);
    AllPlaces(place, |columns|);
    forall p | 0 <= p < |place| ensures scores[place[p]].column == columns[place[p]] { ScoreLaw(rows, columns, place[p]); }
  }

  // ----- what follows -----

  lemma {:induction false} NonNegativeSum(rows: seq<Observation>, f: Observation -> real)
    requires forall o :: o in rows ==> f(o) >= 0.0
    ensures SumBy(rows, f) >= 0.0
  {
    if rows != [] { NonNegativeSum(rows[..|rows| - 1], f); }
  }

  lemma SumsNonNegative(rows: seq<Observation>, j: nat)
    requires WeightsValid(rows)
    ensures BetweenClasses(rows, j) >= 0.0 && WithinClasses(rows, j) >= 0.0
  {
    hide ClassMean, OverallMean, SumBy;
    forall o | o in rows ensures SpreadOfMeans(rows, j)(o) >= 0.0 && SpreadInClass(rows, j)(o) >= 0.0 {
      var i :| 0 <= i < |rows| && rows[i] == o;
      assert Squared(ClassMean(rows, o.name, j) - OverallMean(rows, j)) >= 0.0;
      var x := if j < |o.features| then o.features[j] else 0.0;
      assert Squared(x - ClassMean(rows, o.name, j)) >= 0.0;
      assert o.weight >= 0.0;
    }
    NonNegativeSum(rows, SpreadOfMeans(rows, j));
    NonNegativeSum(rows, SpreadInClass(rows, j));
  }

  /** No score is negative; at one within-class sum the larger between-class sum has
      the larger score, and so the better rank. */
  lemma LargerFirst(rows: seq<Observation>, columns: seq<string>, i: nat, j: nat)
    requires WeightsValid(rows) && TwoClasses(rows) && i < |columns| && j < |columns|
    ensures Scores(rows, columns)[i].score >= 0.0
    ensures WithinClasses(rows, i) == WithinClasses(rows, j) && BetweenClasses(rows, i) > BetweenClasses(rows, j) ==>
              Scores(rows, columns)[i].score > Scores(rows, columns)[j].score
  {
    hide Scores, BetweenClasses, WithinClasses, TwoClasses, WeightsValid;
    ScoreLaw(rows, columns, i);
    ScoreLaw(rows, columns, j);
    SumsNonNegative(rows, i);
    var w := if WithinClasses(rows, i) > 0.000000000001 then WithinClasses(rows, i) else 0.000000000001;
    Compare(Scores(rows, columns)[i].score, Scores(rows, columns)[j].score, w);
  }

  lemma Compare(x: real, y: real, w: real)
    requires w > 0.0
    ensures x * w >= 0.0 ==> x >= 0.0
    ensures x * w > y * w ==> x > y
  {
    assert x < 0.0 ==> x * w < 0.0;
    assert x <= y ==> (y - x) * w >= 0.0;
  }

  /** A column whose class means coincide scores zero. */
  lemma EqualMeansScoreZero(rows: seq<Observation>, columns: seq<string>, j: nat, m: real)
    requires WeightsValid(rows) && j < |columns| && forall o :: o in rows ==> ClassMean(rows, o.name, j) == m
    ensures Scores(rows, columns)[j].score == 0.0
  {
    hide Scores, TwoClasses, SumBy, ClassMean;
    ScoreLaw(rows, columns, j);
    ValuesOfClasses(rows, j, m);
    forall o | o in rows ensures SpreadOfMeans(rows, j)(o) == 0.0 { assert OverallMean(rows, j) == m; }
    SumByConstant(rows, SpreadOfMeans(rows, j), 0.0);
    if TwoClasses(rows) {
      var w := if WithinClasses(rows, j) > 0.000000000001 then WithinClasses(rows, j) else 0.000000000001;
      Compare(Scores(rows, columns)[j].score, 0.0, w);
      Compare(0.0, Scores(rows, columns)[j].score, w);
      assert Scores(rows, columns)[j].score * w == 0.0;
    }
  }

  function FromMean(j: nat, m: real): Observation -> real {
    (o: Observation) => o.weight * (o.At(j) - m)
  }

  /** When the class means coincide the overall mean is the same. */
  lemma ValuesOfClasses(rows: seq<Observation>, j: nat, m: real)
    requires WeightsValid(rows) && forall o :: o in rows ==> ClassMean(rows, o.name, j) == m
    ensures OverallMean(rows, j) == m
  {
    hide SumBy, Mean, ClassMean, WeightsValid, FromMean;
    NothingLeft(rows, j, m);
    Shift(rows, j, m);
    WeightIsPositive(rows);
    MeanOfAll(rows, j);
    MeanIs(rows, j);
    Cancel(Mean(rows, j), m, Weight(rows));
  }

  lemma NothingLeft(rows: seq<Observation>, j: nat, m: real)
    requires WeightsValid(rows) && forall o :: o in rows ==> ClassMean(rows, o.name, j) == m
    ensures SumBy(rows, FromMean(j, m)) == 0.0
  {
    hide SumBy, ClassMean, WeightsValid, FromMean, ClassSum, Dedupe;
    var classes := ClassesOf(rows);
    forall name | name in classes ensures ClassSum(rows, FromMean(j, m), ClassOf(), name) == 0.0 {
      ClassLeavesNothing(rows, name, j, m);
    }
    NothingInClasses(rows, FromMean(j, m), classes);
    SumByClasses(rows, FromMean(j, m), ClassOf(), classes);
  }

  lemma Cancel(x: real, y: real, w: real)
    requires w > 0.0 && x * w - y * w == 0.0
    ensures x == y
  {
    assert (x - y) * w == 0.0;
  }

  lemma {:induction false} NothingInClasses(rows: seq<Observation>, f: Observation -> real, classes: seq<string>)
    requires forall name :: name in classes ==> ClassSum(rows, f, ClassOf(), name) == 0.0
    ensures SumOverClasses(rows, f, ClassOf(), classes) == 0.0
  {
    hide ClassSum;
    if classes != [] { NothingInClasses(rows, f, classes[..|classes| - 1]); }
  }

  lemma {:induction false} Shift(members: seq<Observation>, j: nat, m: real)
    ensures SumBy(members, FromMean(j, m)) == SumBy(members, WeightedValue(j)) - m * Weight(members)
  {
    if members != [] {
      var before, last := members[..|members| - 1], members[|members| - 1];
      Shift(before, j, m);
      assert last.weight * (last.At(j) - m) == last.weight * last.At(j) - m * last.weight;
      assert m * (Weight(before) + last.weight) == m * Weight(before) + m * last.weight;
    }
  }

  lemma ClassLeavesNothing(rows: seq<Observation>, name: string, j: nat, m: real)
    requires WeightsValid(rows) && (forall o :: o in rows ==> ClassMean(rows, o.name, j) == m)
    ensures ClassSum(rows, FromMean(j, m), ClassOf(), name) == 0.0
  {
    hide ClassMean, Mean;
    var members := Members(rows, name);
    MembersWeights(rows, name);
    if members != [] {
      InClassMember(rows, name, members[0]);
      MeanOfClass(rows, name, j);
      Shift(members, j, m);
      if Weight(members) > 0.0 { MeanIs(members, j); } else { Weightless(members, FromMean(j, m)); }
    }
  }

  lemma {:induction false} Weightless(members: seq<Observation>, f: Observation -> real)
    requires (forall i :: 0 <= i < |members| ==> members[i].weight >= 0.0) && Weight(members) <= 0.0
    requires forall o: Observation :: o.weight == 0.0 ==> f(o) == 0.0
    ensures SumBy(members, f) == 0.0
  {
    if members != [] {
      WeightlessScatter(members[..|members| - 1], 0, 0.0);
      Weightless(members[..|members| - 1], f);
    }
  }
}
