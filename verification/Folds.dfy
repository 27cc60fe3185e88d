/** Experiment-level splits (generate_oof_fingerprinting_results.py,
    experiment_stratified_splits). Labels and experiments are known by their
    places in the sorted order of their names. */
module Folds {
  import opened Results
  import opened Division
  import opened Seqs
  import opened Randomness
  import opened Dealing

  datatype Row = Row(target: nat, group: nat)

  /** One fold: the rows to train on and the rows to test. */
  datatype Split = Split(train: seq<nat>, test: seq<nat>)

  /** The exceptions: an experiment with several labels, no fold to start in, a
      fold that lacks a class, an experiment on both sides. */
  datatype SplitError = MultipleLabels | NoFolds | InvalidFold | Leakage

  predicate OneLabelEach(rows: seq<Row>) {
    forall i, j :: 0 <= i < |rows| && 0 <= j < |rows| && rows[i].group == rows[j].group ==> rows[i].target == rows[j].target
  }

  function Labels(rows: seq<Row>): set<nat> {
    set r | r in rows :: r.target
  }

  function Groups(rows: seq<Row>): set<nat> {
    set r | r in rows :: r.group
  }

  function GroupsOf(rows: seq<Row>, name: nat): set<nat> {
    set r | r in rows && r.target == name :: r.group
  }

  function LabelsOf(rows: seq<Row>, group: nat): set<nat> {
    set r | r in rows && r.group == group :: r.target
  }

  /** Every class has an experiment for each of at least two folds. */
  predicate Enough(rows: seq<Row>, n: int) {
    2 <= n && forall l :: l in Labels(rows) ==> n <= |GroupsOf(rows, l)|
  }

  /** A number above all labels and experiments. */
  function Bound(rows: seq<Row>): (b: nat)
    ensures forall r :: r in rows ==> r.target < b && r.group < b
  {
    if rows == [] then 0 else
      var before, last := Bound(rows[..|rows| - 1]), rows[|rows| - 1];
      var top := if last.group > last.target then last.group + 1 else last.target + 1;
      assert forall r :: r in rows ==> r in rows[..|rows| - 1] || r == last;
      if before < top then top else before
  }

  function InSet(s: set<nat>): nat -> bool {
    (x: nat) => x in s
  }

  /** The elements of s below b, in order. */
  function Ascending(s: set<nat>, b: nat): seq<nat> {
    Filter(Range(b), InSet(s))
  }

  lemma AscendingNext(s: set<nat>, b: nat)
    ensures Ascending(s, b + 1) == Ascending(s, b) + if b in s then [b] else []
  {
    assert Range(b + 1) == Range(b) + [b];
    FilterLast(Range(b), b, InSet(s));
  }

  lemma {:induction false} AscendingIs(s: set<nat>, b: nat)
    ensures Distinct(Ascending(s, b))
    ensures forall x :: x in Ascending(s, b) <==> x in s && x < b
  {
    if b > 0 {
      AscendingIs(s, b - 1);
      AscendingNext(s, b - 1);
    }
  }

  /** The experiments of each class, class by class. */
  function ByClass(rows: seq<Row>): seq<seq<nat>> {
    Lists(rows, Ascending(Labels(rows), Bound(rows)))
  }

  function Lists(rows: seq<Row>, labels: seq<nat>): (lists: seq<seq<nat>>)
    ensures |lists| == |labels|
  {
    seq(|labels|, c requires 0 <= c < |labels| => Ascending(GroupsOf(rows, labels[c]), Bound(rows)))
  }

  function GroupIn(rows: seq<Row>, groups: set<nat>): nat -> bool {
    (i: nat) => i < |rows| && rows[i].group in groups
  }

  function GroupOutside(rows: seq<Row>, groups: set<nat>): nat -> bool {
    (i: nat) => i < |rows| && rows[i].group !in groups
  }

  /** The fold that tests the experiments in groups. */
  function SplitOf(rows: seq<Row>, groups: set<nat>): Split {
    Split(Filter(Range(|rows|), GroupOutside(rows, groups)), Filter(Range(|rows|), GroupIn(rows, groups)))
  }

  function LabelsAt(rows: seq<Row>, index: seq<nat>): set<nat> {
    set i | i in index && i < |rows| :: rows[i].target
  }

  function GroupsAt(rows: seq<Row>, index: seq<nat>): set<nat> {
    set i | i in index && i < |rows| :: rows[i].group
  }

  // ----- grouping the rows -----

  method GroupLabels(rows: seq<Row>) returns (labelsOf: map<nat, set<nat>>)
    ensures labelsOf.Keys == Groups(rows)
    ensures forall g :: g in labelsOf ==> labelsOf[g] == LabelsOf(rows, g)
  {
    labelsOf := map[];
    for i := 0 to |rows|
      invariant labelsOf.Keys == Groups(rows[..i])
      invariant forall g :: g in labelsOf ==> labelsOf[g] == LabelsOf(rows[..i], g)
    {
      LabelsNext(rows[..i], rows[i]);
      assert rows[..i + 1] == rows[..i] + [rows[i]];
      var group := rows[i].group;
      labelsOf := labelsOf[group := (if group in labelsOf then labelsOf[group] else {}) + {rows[i].target}];
    }
    assert rows[..|rows|] == rows;
  }

  lemma LabelsNext(rows: seq<Row>, r: Row)
    ensures Groups(rows + [r]) == Groups(rows) + {r.group}
    ensures forall g :: LabelsOf(rows + [r], g) == LabelsOf(rows, g) + if g == r.group then {r.target} else {}
    ensures r.group !in Groups(rows) ==> LabelsOf(rows, r.group) == {}
  {
    assert forall x :: x in rows + [r] <==> x in rows || x == r;
  }

  lemma LabelCount(rows: seq<Row>, g: nat)
    requires g in Groups(rows)
    ensures |LabelsOf(rows, g)| == 1 <==> forall r, q :: r in rows && q in rows && r.group == g == q.group ==> r.target == q.target
  {
    var r :| r in rows && r.group == g;
    assert r.target in LabelsOf(rows, g);
    if |LabelsOf(rows, g)| == 1 {
      assert |LabelsOf(rows, g) - {r.target}| == 0;
      forall q | q in rows && q.group == g ensures q.target == r.target { assert q.target in LabelsOf(rows, g); }
    }
    assert (forall q :: q in rows && q.group == g ==> q.target == r.target) ==> LabelsOf(rows, g) == {r.target};
  }

  lemma OneLabelEachIff(rows: seq<Row>)
    ensures OneLabelEach(rows) <==> forall g :: g in Groups(rows) ==> |LabelsOf(rows, g)| == 1
  {
    forall g | g in Groups(rows)
      ensures |LabelsOf(rows, g)| == 1 <==> forall r, q :: r in rows && q in rows && r.group == g == q.group ==> r.target == q.target
    {
      LabelCount(rows, g);
    }
    if forall g :: g in Groups(rows) ==> |LabelsOf(rows, g)| == 1 {
      forall i, j | 0 <= i < |rows| && 0 <= j < |rows| && rows[i].group == rows[j].group ensures rows[i].target == rows[j].target {
        assert rows[i] in rows && rows[j] in rows && rows[i].group in Groups(rows);
      }
    }
  }

  /** The experiments filed under a class so far. */
  function Filed(byClass: map<nat, seq<nat>>, name: nat): seq<nat> {
    if name in byClass then byClass[name] else []
  }

  /** File every experiment, in order, under its label. */
  method FileByClass(rows: seq<Row>, labelsOf: map<nat, set<nat>>) returns (classes: seq<seq<nat>>)
    requires OneLabelEach(rows) && labelsOf.Keys == Groups(rows)
    requires forall g :: g in labelsOf ==> labelsOf[g] == LabelsOf(rows, g)
    ensures classes == ByClass(rows)
  {
    hide OneLabelEach, Ascending, GroupsOf, Groups, LabelsOf, Labels, Bound, FiledUpTo;
    var byClass: map<nat, seq<nat>> := map[];
    NothingFiled(rows);
    for g := 0 to Bound(rows)
      invariant FiledUpTo(rows, byClass, g)
    {
      FilingNext(rows, g, byClass);
      if g in labelsOf {
        var l :| l in labelsOf[g];
        byClass := byClass[l := Filed(byClass, l) + [g]];
      }
    }
    classes := [];
    for l := 0 to Bound(rows)
      invariant classes == Lists(rows, Ascending(Labels(rows), l))
    {
      AscendingNext(Labels(rows), l);
      ClassIsFiled(rows, l, byClass);
      if l in byClass { classes := classes + [byClass[l]]; }
    }
  }

  /** Each class lists its experiments below g, in order. */
  ghost predicate FiledUpTo(rows: seq<Row>, byClass: map<nat, seq<nat>>, g: nat) {
    && (forall l: nat :: Filed(byClass, l) == Ascending(GroupsOf(rows, l), g))
    && (forall l :: l in byClass ==> byClass[l] != [])
  }

  lemma NothingFiled(rows: seq<Row>)
    ensures FiledUpTo(rows, map[], 0)
    ensures Ascending(Labels(rows), 0) == []
  {
  }

  lemma FilingNext(rows: seq<Row>, g: nat, byClass: map<nat, seq<nat>>)
    requires OneLabelEach(rows) && FiledUpTo(rows, byClass, g)
    ensures g !in Groups(rows) ==> FiledUpTo(rows, byClass, g + 1)
    ensures g in Groups(rows) ==> LabelsOf(rows, g) != {}
    ensures forall l :: g in Groups(rows) && l in LabelsOf(rows, g) ==>
                          FiledUpTo(rows, byClass[l := Filed(byClass, l) + [g]], g + 1)
  {
    forall l: nat
      ensures Ascending(GroupsOf(rows, l), g + 1) ==
              Ascending(GroupsOf(rows, l), g) + if g in Groups(rows) && l in LabelsOf(rows, g) then [g] else []
    {
      AscendingNext(GroupsOf(rows, l), g);
    }
    if g in Groups(rows) {
      var r :| r in rows && r.group == g;
      assert r.target in LabelsOf(rows, g);
    }
  }

  lemma ClassIsFiled(rows: seq<Row>, l: nat, byClass: map<nat, seq<nat>>)
    requires FiledUpTo(rows, byClass, Bound(rows))
    ensures l in Labels(rows) <==> l in byClass
    ensures l in byClass ==> byClass[l] == Ascending(GroupsOf(rows, l), Bound(rows))
  {
    var filed := Filed(byClass, l);
    AscendingIs(GroupsOf(rows, l), Bound(rows));
    assert filed != [] ==> filed[0] in GroupsOf(rows, l);
    if l in Labels(rows) {
      var r :| r in rows && r.target == l;
      assert r.group in GroupsOf(rows, l) && r.group < Bound(rows);
      assert r.group in filed;
    }
  }

  // ----- the folds -----

  /** The rows a fold trains on and tests, and what they cover. */
  lemma SplitIs(rows: seq<Row>, groups: set<nat>)
    ensures var s := SplitOf(rows, groups);
            && Distinct(s.train) && Distinct(s.test)
            && (forall i: nat :: i in s.test <==> i < |rows| && rows[i].group in groups)
            && (forall i: nat :: i in s.train <==> i < |rows| && rows[i].group !in groups)
  {
    forall i: nat ensures i in SplitOf(rows, groups).test <==> i < |rows| && rows[i].group in groups {
      FilterMember(Range(|rows|), GroupIn(rows, groups), i);
      assert i < |rows| ==> Range(|rows|)[i] == i;
    }
    forall i: nat ensures i in SplitOf(rows, groups).train <==> i < |rows| && rows[i].group !in groups {
      FilterMember(Range(|rows|), GroupOutside(rows, groups), i);
      assert i < |rows| ==> Range(|rows|)[i] == i;
    }
    FilterDistinct(Range(|rows|), GroupIn(rows, groups));
    FilterDistinct(Range(|rows|), GroupOutside(rows, groups));
  }

  lemma {:induction false} FilterDistinct(s: seq<nat>, keep: nat -> bool)
    requires Distinct(s)
    ensures Distinct(Filter(s, keep))
  {
    if s != [] {
      var before, last := s[..|s| - 1], s[|s| - 1];
      FilterDistinct(before, keep);
      FilterMember(before, keep, last);
      assert last !in before;
    }
  }

  /** What the check of one fold decides: the classes on both sides are all the
      classes just when each class has an experiment in the fold and one outside. */
  predicate Covers(rows: seq<Row>, groups: set<nat>) {
    forall l :: l in Labels(rows) ==> GroupsOf(rows, l) * groups != {} && GroupsOf(rows, l) - groups != {}
  }

  lemma CoverageCheck(rows: seq<Row>, groups: set<nat>)
    ensures var s := SplitOf(rows, groups);
            && (LabelsAt(rows, s.train) == Labels(rows) && LabelsAt(rows, s.test) == Labels(rows) <==> Covers(rows, groups))
            && GroupsAt(rows, s.train) * GroupsAt(rows, s.test) == {}
  {
    var s := SplitOf(rows, groups);
    SplitIs(rows, groups);
    forall l | l in Labels(rows)
      ensures l in LabelsAt(rows, s.test) <==> GroupsOf(rows, l) * groups != {}
      ensures l in LabelsAt(rows, s.train) <==> GroupsOf(rows, l) - groups != {}
    {
      SideCheck(rows, groups, s.test, l, true);
      SideCheck(rows, groups, s.train, l, false);
    }
    assert LabelsAt(rows, s.test) <= Labels(rows) && LabelsAt(rows, s.train) <= Labels(rows);
  }

  lemma SideCheck(rows: seq<Row>, groups: set<nat>, index: seq<nat>, l: nat, inside: bool)
    requires forall i: nat :: i in index <==> i < |rows| && (rows[i].group in groups) == inside
    ensures l in LabelsAt(rows, index) <==> (if inside then GroupsOf(rows, l) * groups else GroupsOf(rows, l) - groups) != {}
  {
    var side := if inside then GroupsOf(rows, l) * groups else GroupsOf(rows, l) - groups;
    if l in LabelsAt(rows, index) {
      var i :| i in index && i < |rows| && rows[i].target == l;
      assert rows[i] in rows && rows[i].group in side;
    }
    if side != {} {
      var g :| g in side;
      var r :| r in rows && r.target == l && r.group == g;
      var i: nat :| i < |rows| && rows[i] == r;
      assert i in index;
    }
  }

  /** The generator of the folds: those it yields, and the exception it raises
      after them, if any. */
  method ExperimentStratifiedSplits(rows: seq<Row>, n: int, rng: Rng) returns (splits: seq<Split>, raised: Option<SplitError>)
    ensures raised == Some(MultipleLabels) <==> !OneLabelEach(rows)
    ensures raised == Some(NoFolds) <==> OneLabelEach(rows) && rows != [] && n <= 0
    ensures raised != Some(Leakage)
    ensures raised.None? <==> OneLabelEach(rows) && (rows == [] || Enough(rows, n))
    ensures raised.None? ==> |splits| == if n < 0 then 0 else n
    ensures raised == Some(MultipleLabels) || raised == Some(NoFolds) ==> splits == []
    ensures forall k: nat :: k < |splits| ==>
              n > 0 && splits[k] == SplitOf(rows, Tested(rows, n, rng, k)) && Covers(rows, Tested(rows, n, rng, k))
    ensures raised == Some(InvalidFold) ==> |splits| < n && !Covers(rows, Tested(rows, n, rng, |splits|))
  {
    hide OneLabelEach, Labels, Groups, LabelsOf, LabelsAt, GroupsAt, SplitOf, Covers, TestFold, ByClass, Tested;
    splits := [];
    var labelsOf := GroupLabels(rows);
    OneLabelEachIff(rows);
    if exists g :: g in labelsOf && |labelsOf[g]| != 1 { return splits, Some(MultipleLabels); }
    var classes := FileByClass(rows, labelsOf);
    NoClasses(rows);
    var folds := MakeTestFolds(classes, n, rng);
    if folds.Err? { return splits, Some(NoFolds); }
    if n <= 0 { return splits, None; }
    FoldsCover(rows, n, rng);
    forall k: nat { TestedIs(rows, n, rng, k); }
    for k := 0 to n
      invariant |splits| == k
      invariant forall i: nat :: i < k ==> splits[i] == SplitOf(rows, folds.value[i]) && Covers(rows, folds.value[i])
    {
      var split := SplitOf(rows, folds.value[k]);
      CoverageCheck(rows, folds.value[k]);
      if LabelsAt(rows, split.train) != Labels(rows) || LabelsAt(rows, split.test) != Labels(rows) {
        return splits, Some(InvalidFold);
      }
      if GroupsAt(rows, split.train) * GroupsAt(rows, split.test) != {} { return splits, Some(Leakage); }
      splits := splits + [split];
    }
    raised := None;
  }

  /** The experiments that fold k tests. */
  function Tested(rows: seq<Row>, n: nat, rng: Rng, k: nat): set<nat> {
    if n == 0 then {} else TestFold(ByClass(rows), rng, n, k)
  }

  lemma TestedIs(rows: seq<Row>, n: nat, rng: Rng, k: nat)
    requires n > 0
    ensures Tested(rows, n, rng, k) == TestFold(ByClass(rows), rng, n, k)
  {
  }

  lemma NoClasses(rows: seq<Row>)
    ensures ByClass(rows) == [] <==> rows == []
  {
    var labels := Ascending(Labels(rows), Bound(rows));
    AscendingIs(Labels(rows), Bound(rows));
    if rows != [] {
      assert rows[0] in rows && rows[0].target in Labels(rows);
      assert rows[0].target in labels;
    }
    assert labels != [] ==> labels[0] in Labels(rows);
  }

  // ----- one class in one fold -----

  /** What class c deals to fold k is what fold k holds of class c. */
  lemma FoldOfClass(rows: seq<Row>, n: nat, rng: Rng, k: nat, c: nat)
    requires OneLabelEach(rows) && n > 0 && c < |ByClass(rows)|
    ensures var classes, l := ByClass(rows), Ascending(Labels(rows), Bound(rows))[c];
            GroupsOf(rows, l) * Tested(rows, n, rng, k) == Share(Order(classes, rng, c), Start(rng, c, n), n, k)
  {
    hide Share, Order, Start;
    var classes, labels := ByClass(rows), Ascending(Labels(rows), Bound(rows));
    var l := labels[c];
    AscendingIs(Labels(rows), Bound(rows));
    forall g | g in GroupsOf(rows, l)
      ensures g in Tested(rows, n, rng, k) <==> g in Share(Order(classes, rng, c), Start(rng, c, n), n, k)
    {
      DealtOnlyBy(rows, |classes|, n, rng, k, c, g);
    }
    forall g | g in Share(Order(classes, rng, c), Start(rng, c, n), n, k) ensures g in GroupsOf(rows, l) {
      SharedBelongs(rows, n, rng, k, c, g);
    }
  }

  lemma SharedBelongs(rows: seq<Row>, n: nat, rng: Rng, k: nat, c: nat, g: nat)
    requires n > 0 && c < |ByClass(rows)|
    requires g in Share(Order(ByClass(rows), rng, c), Start(rng, c, n), n, k)
    ensures g in GroupsOf(rows, Ascending(Labels(rows), Bound(rows))[c])
  {
    var order, filed := Order(ByClass(rows), rng, c), ByClass(rows)[c];
    assert g in order;
    assert g in multiset(order) && g in multiset(filed);
    AscendingIs(GroupsOf(rows, Ascending(Labels(rows), Bound(rows))[c]), Bound(rows));
  }

  /** An experiment of class c reaches a fold from class c alone. */
  lemma {:induction false} DealtOnlyBy(rows: seq<Row>, m: nat, n: nat, rng: Rng, k: nat, c: nat, g: nat)
    requires OneLabelEach(rows) && n > 0 && c < |ByClass(rows)| && m <= |ByClass(rows)|
    requires g in GroupsOf(rows, Ascending(Labels(rows), Bound(rows))[c])
    ensures g in DealtBy(ByClass(rows), m, rng, n, k) <==>
            c < m && g in Share(Order(ByClass(rows), rng, c), Start(rng, c, n), n, k)
  {
    hide Share, Order, Start, ByClass;
    if m > 0 {
      DealtOnlyBy(rows, m - 1, n, rng, k, c, g);
      if m - 1 != c && g in Share(Order(ByClass(rows), rng, m - 1), Start(rng, m - 1, n), n, k) {
        SharedBelongs(rows, n, rng, k, m - 1, g);
        OneClass(rows, g, c, m - 1);
      }
    }
  }

  lemma OneClass(rows: seq<Row>, g: nat, c: nat, d: nat)
    requires OneLabelEach(rows) && c < |ByClass(rows)| && d < |ByClass(rows)|
    requires g in GroupsOf(rows, Ascending(Labels(rows), Bound(rows))[c])
    requires g in GroupsOf(rows, Ascending(Labels(rows), Bound(rows))[d])
    ensures c == d
  {
    AscendingIs(Labels(rows), Bound(rows));
    var labels := Ascending(Labels(rows), Bound(rows));
    var r :| r in rows && r.target == labels[c] && r.group == g;
    var q :| q in rows && q.target == labels[d] && q.group == g;
  }

  lemma PermutedDistinct(s: seq<nat>, t: seq<nat>)
    requires Distinct(s) && multiset(s) == multiset(t)
    ensures Distinct(t)
  {
    DistinctMultiplicity(s);
    forall x ensures multiset(t)[x] <= 1 { assert x in multiset(s) <==> x in s; }
    MultiplicityDistinct(t);
  }

  lemma GroupsBelow(rows: seq<Row>, l: nat)
    ensures forall g :: g in GroupsOf(rows, l) ==> g < Bound(rows)
  {
  }

  /** How many experiments of class c fold k tests. */
  lemma ClassInFold(rows: seq<Row>, n: nat, rng: Rng, k: nat, c: nat)
    requires OneLabelEach(rows) && k < n && c < |ByClass(rows)|
    ensures var groups := GroupsOf(rows, Ascending(Labels(rows), Bound(rows))[c]);
            |groups * Tested(rows, n, rng, k)| == EvenPart(|groups|, n, Offset(Start(rng, c, n), n, k))
  {
    hide Share, Offset, GroupsOf, Ascending, Tested, Hits, EvenPart;
    var groups := GroupsOf(rows, Ascending(Labels(rows), Bound(rows))[c]);
    var order := Order(ByClass(rows), rng, c);
    FoldOfClass(rows, n, rng, k, c);
    AscendingIs(groups, Bound(rows));
    GroupsBelow(rows, Ascending(Labels(rows), Bound(rows))[c]);
    DistinctSize(ByClass(rows)[c]);
    assert Elements(ByClass(rows)[c]) == groups;
    PermutedDistinct(ByClass(rows)[c], order);
    ShareSize(order, Start(rng, c, n), n, k);
  }

  lemma SomeInside(m: nat, n: nat, d: nat)
    requires 2 <= n <= m
    ensures 0 < EvenPart(m, n, d) < m
  {
    var q := m / n;
    assert m == q * n + m % n;
    assert q * n >= q * 2 by { assert q * (n - 2) >= 0; }
  }

  /** Every fold covers every class exactly when there are at least two folds and
      no class has fewer experiments than folds. */
  lemma FoldsCover(rows: seq<Row>, n: nat, rng: Rng)
    requires OneLabelEach(rows) && n > 0
    ensures (forall k :: 0 <= k < n ==> Covers(rows, Tested(rows, n, rng, k))) <==> rows == [] || Enough(rows, n)
  {
    hide Tested, GroupsOf, ByClass;
    if rows == [] || Enough(rows, n) {
      forall k | 0 <= k < n ensures Covers(rows, Tested(rows, n, rng, k)) { EnoughCovers(rows, n, rng, k); }
    } else {
      var k := NotEnough(rows, n, rng);
      assert !Covers(rows, Tested(rows, n, rng, k));
    }
  }

  /** The place of a label among the labels. */
  lemma ClassOf(rows: seq<Row>, l: nat) returns (c: nat)
    requires l in Labels(rows)
    ensures c < |ByClass(rows)| && Ascending(Labels(rows), Bound(rows))[c] == l
  {
    AscendingIs(Labels(rows), Bound(rows));
    assert l in Ascending(Labels(rows), Bound(rows));
    c :| c < |ByClass(rows)| && Ascending(Labels(rows), Bound(rows))[c] == l;
  }

  lemma EnoughCovers(rows: seq<Row>, n: nat, rng: Rng, k: nat)
    requires OneLabelEach(rows) && k < n && (rows == [] || Enough(rows, n))
    ensures Covers(rows, Tested(rows, n, rng, k))
  {
    hide Tested, GroupsOf, ByClass, Offset, Ascending, EvenPart;
    forall l | l in Labels(rows)
      ensures GroupsOf(rows, l) * Tested(rows, n, rng, k) != {} && GroupsOf(rows, l) - Tested(rows, n, rng, k) != {}
    {
      var c := ClassOf(rows, l);
      ClassInFold(rows, n, rng, k, c);
      var groups, tested := GroupsOf(rows, l), Tested(rows, n, rng, k);
      SomeInside(|groups|, n, Offset(Start(rng, c, n), n, k));
      assert groups == groups * tested + (groups - tested);
    }
  }

  /** Otherwise a fold misses a class, or trains on nothing. */
  lemma NotEnough(rows: seq<Row>, n: nat, rng: Rng) returns (k: nat)
    requires OneLabelEach(rows) && n > 0 && rows != [] && !Enough(rows, n)
    ensures k < n && !Covers(rows, Tested(rows, n, rng, k))
  {
    hide Tested, GroupsOf, ByClass, Ascending;
    if n == 1 {
      k := 0;
      var l := rows[0].target;
      assert l in Labels(rows);
      var c := ClassOf(rows, l);
      ClassInFold(rows, n, rng, k, c);
      SameSize(GroupsOf(rows, l), Tested(rows, n, rng, k));
    } else {
      var l :| l in Labels(rows) && |GroupsOf(rows, l)| < n;
      var c := ClassOf(rows, l);
      var start, m := Start(rng, c, n), |GroupsOf(rows, l)|;
      k := if start + m < n then start + m else start + m - n;
      ClassInFold(rows, n, rng, k, c);
      QuotientIs(m, n, 0, m);
    }
  }

  lemma SameSize(a: set<nat>, b: set<nat>)
    ensures |a * b| == |a| ==> a - b == {}
  {
    assert a == a * b + (a - b);
    assert |a| == |a * b| + |a - b|;
  }

  // ----- what the folds guarantee -----

  /** In each fold every class is tested and trained on, no experiment is on both
      sides, and train and test together are all rows. */
  lemma FoldIsSound(rows: seq<Row>, n: nat, rng: Rng, k: nat)
    requires OneLabelEach(rows) && Enough(rows, n) && k < n
    ensures var s := SplitOf(rows, Tested(rows, n, rng, k));
            && LabelsAt(rows, s.train) == Labels(rows) == LabelsAt(rows, s.test)
            && (forall i, j :: i in s.train && i < |rows| && j in s.test && j < |rows| ==> rows[i].group != rows[j].group)
            && (forall i: nat :: i < |rows| ==> (i in s.train) != (i in s.test))
  {
    hide Tested;
    EnoughCovers(rows, n, rng, k);
    CoverageCheck(rows, Tested(rows, n, rng, k));
    SplitIs(rows, Tested(rows, n, rng, k));
  }

  /** Two folds hold nearly the same number of experiments of a class. */
  lemma FoldsAreBalanced(rows: seq<Row>, n: nat, rng: Rng, j: nat, k: nat, l: nat)
    requires OneLabelEach(rows) && j < n && k < n && l in Labels(rows)
    ensures |GroupsOf(rows, l) * Tested(rows, n, rng, j)| <= |GroupsOf(rows, l) * Tested(rows, n, rng, k)| + 1
  {
    hide Tested, GroupsOf, ByClass, Ascending;
    var c := ClassOf(rows, l);
    ClassInFold(rows, n, rng, j, c);
    ClassInFold(rows, n, rng, k, c);
  }

  /** Every experiment is tested in exactly one fold. */
  lemma TestedOnce(rows: seq<Row>, n: nat, rng: Rng, i: nat) returns (k: nat)
    requires OneLabelEach(rows) && n > 0 && i < |rows|
    ensures k < n && forall j :: 0 <= j < n ==> (rows[i].group in Tested(rows, n, rng, j) <==> j == k)
  {
    hide Share, ByClass, Ascending, Order, Start;
    var g, l := rows[i].group, rows[i].target;
    assert rows[i] in rows;
    var c := ClassOf(rows, l);
    var order, start := Order(ByClass(rows), rng, c), Start(rng, c, n);
    forall j: nat | j < n ensures g in Tested(rows, n, rng, j) <==> g in Share(order, start, n, j) {
      DealtOnlyBy(rows, |ByClass(rows)|, n, rng, j, c, g);
    }
    InOrder(rows, rng, c, g);
    k := SharedOnce(order, start, n, g);
  }

  lemma InOrder(rows: seq<Row>, rng: Rng, c: nat, g: nat)
    requires c < |ByClass(rows)| && g in GroupsOf(rows, Ascending(Labels(rows), Bound(rows))[c])
    ensures g in Order(ByClass(rows), rng, c) && Distinct(Order(ByClass(rows), rng, c))
  {
    AscendingIs(GroupsOf(rows, Ascending(Labels(rows), Bound(rows))[c]), Bound(rows));
    var filed, order := ByClass(rows)[c], Order(ByClass(rows), rng, c);
    var r :| r in rows && r.group == g;
    assert g in filed && g in multiset(filed) && g in multiset(order);
    PermutedDistinct(filed, order);
  }

  lemma SharedOnce(order: seq<nat>, start: nat, n: nat, g: nat) returns (k: nat)
    requires Distinct(order) && g in order && n > 0
    ensures k < n && forall j :: 0 <= j < n ==> (g in Share(order, start, n, j) <==> j == k)
  {
    var p: nat :| p < |order| && order[p] == g;
    k := (start + p) % n;
  }
}
