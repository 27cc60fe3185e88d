/** Turning class probabilities into twenty copies of a sample
    (run_endpoint_assisted_fingerprinting.py, distilled_training_set), over exact
    reals. Classes are known by their places in the list of classes. */
module Apportionment {
  import opened Seqs
  import opened Sorting
  import opened Sums

  const REPS := 20

  function Itself(): real -> real {
    (x: real) => x
  }

  function Sum(s: seq<real>): real {
    SumBy(s, Itself())
  }

  /** Numbers that add up to one. A mix with alpha outside 0..1 can make some of
      them negative. */
  predicate Parts(p: seq<real>) {
    p != [] && Sum(p) == 1.0
  }

  function Total(counts: seq<int>): int {
    if counts == [] then 0 else Total(counts[..|counts| - 1]) + counts[|counts| - 1]
  }

  // ----- whole parts and remainder -----

  function Whole(x: real): int {
    (REPS as real * x).Floor
  }

  function Fraction(x: real): real {
    REPS as real * x - Whole(x) as real
  }

  lemma WholeIs(x: real)
    ensures 0.0 <= Fraction(x) < 1.0
    ensures REPS as real * x == Whole(x) as real + Fraction(x)
  {
  }

  function Wholes(p: seq<real>): (counts: seq<int>)
    ensures |counts| == |p|
  {
    seq(|p|, j requires 0 <= j < |p| => Whole(p[j]))
  }

  lemma {:induction false} WholesBelow(p: seq<real>)
    ensures Total(Wholes(p)) as real <= REPS as real * Sum(p)
    ensures p != [] ==> REPS as real * Sum(p) < (Total(Wholes(p)) + |p|) as real
  {
    hide Whole, Fraction;
    if p != [] {
      var before, x := p[..|p| - 1], p[|p| - 1];
      WholesBelow(before);
      WholeIs(x);
      assert Wholes(p)[..|p| - 1] == Wholes(before);
    }
  }

  /** The copies left over after the whole parts: fewer than there are classes. */
  function Remainder(p: seq<real>): (r: nat)
    requires Parts(p)
    ensures r < |p| && Total(Wholes(p)) + r == REPS
  {
    WholesBelow(p);
    REPS - Total(Wholes(p))
  }

  // ----- who gets the rest -----

  /** A listing of the classes by descending fraction; ties in any order. */
  ghost predicate IsArgsort(order: seq<nat>, p: seq<real>) {
    && multiset(order) == multiset(Range(|p|))
    && forall a, b :: 0 <= a < b < |order| && order[a] < |p| && order[b] < |p| ==> Fraction(p[order[a]]) >= Fraction(p[order[b]])
  }

  lemma ArgsortLists(order: seq<nat>, p: seq<real>)
    requires IsArgsort(order, p)
    ensures |order| == |p| && Distinct(order)
    ensures forall j: nat :: j in order <==> j < |p|
  {
    assert |multiset(order)| == |multiset(Range(|p|))|;
    forall j: nat ensures j in order <==> j < |p| {
      assert j in multiset(order) <==> j in multiset(Range(|p|));
      assert j < |p| ==> Range(|p|)[j] == j;
    }
    DistinctMultiplicity(Range(|p|));
    forall x ensures multiset(order)[x] <= 1 { assert x in multiset(Range(|p|)) <==> x in Range(|p|); }
    MultiplicityDistinct(order);
  }

  /** One more for each listed class. */
  function Bumped(counts: seq<int>, classes: seq<nat>): (r: seq<int>)
    ensures |r| == |counts|
  {
    if classes == [] then counts else
      var r, last := Bumped(counts, classes[..|classes| - 1]), classes[|classes| - 1];
      if last < |r| then r[last := r[last] + 1] else r
  }

  lemma {:induction false} BumpedAt(counts: seq<int>, classes: seq<nat>, j: nat)
    requires j < |counts| && Distinct(classes)
    ensures Bumped(counts, classes)[j] == counts[j] + if j in classes then 1 else 0
  {
    if classes != [] {
      var before, last := classes[..|classes| - 1], classes[|classes| - 1];
      BumpedAt(counts, before, j);
      assert last !in before && classes == before + [last];
    }
  }

  lemma {:induction false} TotalUpdated(counts: seq<int>, k: nat)
    requires k < |counts|
    ensures Total(counts[k := counts[k] + 1]) == Total(counts) + 1
  {
    var updated := counts[k := counts[k] + 1];
    if k < |counts| - 1 {
      assert updated[..|counts| - 1] == counts[..|counts| - 1][k := counts[k] + 1];
      TotalUpdated(counts[..|counts| - 1], k);
    } else {
      assert updated[..|counts| - 1] == counts[..|counts| - 1];
    }
  }

  lemma {:induction false} BumpedTotal(counts: seq<int>, classes: seq<nat>)
    requires forall j: nat :: j in classes ==> j < |counts|
    ensures Total(Bumped(counts, classes)) == Total(counts) + |classes|
  {
    if classes != [] {
      var before := classes[..|classes| - 1];
      assert classes[|classes| - 1] in classes;
      forall j: nat | j in before ensures j < |counts| { assert j in classes; }
      BumpedTotal(counts, before);
      TotalUpdated(Bumped(counts, before), classes[|classes| - 1]);
    }
  }

  /** The final counts, when the classes are listed in this order. */
  function Counts(p: seq<real>, order: seq<nat>): seq<int>
    requires Parts(p) && |order| == |p|
  {
    Bumped(Wholes(p), order[..Remainder(p)])
  }

  ghost predicate Apportioned(p: seq<real>, counts: seq<int>)
    requires Parts(p)
  {
    exists order :: |order| == |p| && IsArgsort(order, p) && counts == Counts(p, order)
  }

  // ----- what the apportionment guarantees -----

  function FractionAt(p: seq<real>): nat -> real {
    (j: nat) => if j < |p| then Fraction(p[j]) else 0.0
  }

  lemma {:induction false} FractionsTogether(p: seq<real>, n: nat)
    requires n <= |p|
    ensures SumBy(Range(n), FractionAt(p)) == REPS as real * Sum(p[..n]) - Total(Wholes(p[..n])) as real
  {
    hide Whole, Fraction;
    if n > 0 {
      FractionsTogether(p, n - 1);
      WholeIs(p[n - 1]);
      assert Range(n)[..n - 1] == Range(n - 1);
      assert p[..n][..n - 1] == p[..n - 1];
      assert Wholes(p[..n])[..n - 1] == Wholes(p[..n - 1]);
    }
  }

  lemma {:induction false} FractionsBelow(s: seq<nat>, p: seq<real>)
    ensures SumBy(s, FractionAt(p)) <= |s| as real
  {
    hide Whole, Fraction;
    if s != [] {
      FractionsBelow(s[..|s| - 1], p);
      if s[|s| - 1] < |p| { WholeIs(p[s[|s| - 1]]); }
    }
  }

  lemma RestIsFractions(p: seq<real>)
    requires Parts(p)
    ensures SumBy(Range(|p|), FractionAt(p)) == Remainder(p) as real
  {
    hide Whole, Fraction, FractionAt;
    FractionsTogether(p, |p|);
    assert p[..|p|] == p;
  }

  lemma ArgsortPermutes(order: seq<nat>, p: seq<real>)
    requires IsArgsort(order, p)
    ensures multiset(order) == multiset(Range(|p|))
  {
  }

  /** Only classes with a fraction get one of the copies left over. */
  lemma ExtraHasFraction(p: seq<real>, order: seq<nat>, a: nat)
    requires Parts(p) && |order| == |p| && IsArgsort(order, p) && a < Remainder(p)
    ensures order[a] < |p| && Fraction(p[order[a]]) > 0.0
  {
    hide Whole, Fraction, Remainder, SumBy, FractionAt, IsArgsort;
    ArgsortLists(order, p);
    assert order[a] in order;
    WholeIs(p[order[a]]);
    if Fraction(p[order[a]]) == 0.0 {
      RestIsFractions(p);
      ArgsortPermutes(order, p);
      SumByPermuted(order, Range(|p|), FractionAt(p));
      assert order == order[..a] + order[a..];
      SumByAppend(order[..a], order[a..], FractionAt(p));
      FractionsBelow(order[..a], p);
      NoneAfter(p, order, a);
      SumByConstant(order[a..], FractionAt(p), 0.0);
    }
  }

  lemma NoneAfter(p: seq<real>, order: seq<nat>, a: nat)
    requires |order| == |p| && IsArgsort(order, p) && a < |order| && (forall j :: j in order ==> j < |p|)
    requires order[a] < |p| && Fraction(p[order[a]]) == 0.0
    ensures forall j :: j in order[a..] ==> FractionAt(p)(j) == 0.0
  {
    hide Whole, Fraction;
    forall j | j in order[a..] ensures FractionAt(p)(j) == 0.0 {
      var b :| 0 <= b < |order| - a && order[a..][b] == j;
      assert order[a + b] == j && j in order;
      WholeIs(p[j]);
      assert b > 0 ==> Fraction(p[order[a]]) >= Fraction(p[order[a + b]]);
    }
  }

  /** The counts add up to twenty, and each is less than one from its quota. */
  lemma Exact(p: seq<real>, counts: seq<int>)
    requires Parts(p) && Apportioned(p, counts)
    ensures |counts| == |p| && Total(counts) == REPS
    ensures forall j :: 0 <= j < |p| ==> REPS as real * p[j] - 1.0 < counts[j] as real < REPS as real * p[j] + 1.0
  {
    hide Whole, Fraction, Remainder, IsArgsort, Bumped, Total;
    var order :| |order| == |p| && IsArgsort(order, p) && counts == Counts(p, order);
    ArgsortLists(order, p);
    var extra := order[..Remainder(p)];
    forall j: nat | j in extra ensures j < |p| { assert j in order; }
    BumpedTotal(Wholes(p), extra);
    forall j | 0 <= j < |p|
      ensures REPS as real * p[j] - 1.0 < counts[j] as real < REPS as real * p[j] + 1.0
    {
      BumpedAt(Wholes(p), extra, j);
      WholeIs(p[j]);
      if j in extra {
        var a :| 0 <= a < |extra| && extra[a] == j;
        ExtraHasFraction(p, order, a);
      }
    }
  }

  /** A strictly likelier class never gets fewer copies. */
  lemma Monotone(p: seq<real>, counts: seq<int>, i: nat, j: nat)
    requires Parts(p) && Apportioned(p, counts)
    requires i < |p| && j < |p| && p[i] > p[j]
    ensures |counts| == |p| && counts[i] >= counts[j]
  {
    hide Whole, Fraction, Remainder;
    var order :| |order| == |p| && IsArgsort(order, p) && counts == Counts(p, order);
    ArgsortLists(order, p);
    BumpedAt(Wholes(p), order[..Remainder(p)], i);
    BumpedAt(Wholes(p), order[..Remainder(p)], j);
    WholeMonotone(p[i], p[j]);
    if Whole(p[i]) == Whole(p[j]) && j in order[..Remainder(p)] { LikelierFirst(p, order, Remainder(p), i, j); }
  }

  lemma WholeMonotone(x: real, y: real)
    requires x > y
    ensures Whole(x) >= Whole(y)
    ensures Whole(x) == Whole(y) ==> Fraction(x) > Fraction(y)
  {
  }

  lemma LikelierFirst(p: seq<real>, order: seq<nat>, r: nat, i: nat, j: nat)
    requires |order| == |p| && IsArgsort(order, p) && r <= |order| && i < |p| && i in order
    requires j in order[..r] && j < |p| && Fraction(p[i]) > Fraction(p[j])
    ensures i in order[..r]
  {
    hide Fraction;
    var b :| 0 <= b < r && order[b] == j;
    var a :| 0 <= a < |order| && order[a] == i;
    assert order[..r][if a < b then a else b] == order[if a < b then a else b];
  }

  // ----- the mixed target -----

  /** One at the true class, zero elsewhere. */
  function OneHot(n: nat, truth: nat): (r: seq<real>)
    ensures |r| == n
  {
    seq(n, j => if j == truth then 1.0 else 0.0)
  }

  function Mix(alpha: real, hard: real, soft: real): real {
    alpha * hard + (1.0 - alpha) * soft
  }

  lemma MixIs(alpha: real, hard: real, soft: real)
    ensures Mix(1.0, hard, soft) == hard && Mix(alpha, 1.0, 1.0) == 1.0
    ensures 0.0 <= alpha <= 1.0 && hard >= 0.0 && soft >= 0.0 ==> Mix(alpha, hard, soft) >= 0.0
  {
    assert alpha * 1.0 + (1.0 - alpha) * 1.0 == 1.0;
    if 0.0 <= alpha <= 1.0 && hard >= 0.0 && soft >= 0.0 { assert alpha * hard >= 0.0 && (1.0 - alpha) * soft >= 0.0; }
  }

  lemma MixPlus(alpha: real, a: real, b: real, c: real, d: real)
    ensures Mix(alpha, a + b, c + d) == Mix(alpha, a, c) + Mix(alpha, b, d)
  {
    assert alpha * (a + b) == alpha * a + alpha * b;
    assert (1.0 - alpha) * (c + d) == (1.0 - alpha) * c + (1.0 - alpha) * d;
  }

  /** The true label and the teacher, mixed. */
  function Target(alpha: real, n: nat, truth: nat, teacher: seq<real>): (r: seq<real>)
    requires |teacher| == n
    ensures |r| == n
  {
    seq(n, j requires 0 <= j < n => Mix(alpha, OneHot(n, truth)[j], teacher[j]))
  }

  lemma {:induction false} OneHotSum(n: nat, truth: nat)
    ensures Sum(OneHot(n, truth)) == if truth < n then 1.0 else 0.0
  {
    if n > 0 {
      OneHotSum(n - 1, truth);
      assert OneHot(n, truth)[..n - 1] == OneHot(n - 1, truth);
    }
  }

  lemma {:induction false} TargetSum(alpha: real, n: nat, truth: nat, teacher: seq<real>)
    requires |teacher| == n
    ensures Sum(Target(alpha, n, truth, teacher)) == Mix(alpha, Sum(OneHot(n, truth)), Sum(teacher))
  {
    hide Mix;
    if n == 0 {
      NothingMixed(alpha);
    } else {
      var hard, target := OneHot(n, truth), Target(alpha, n, truth, teacher);
      TargetSum(alpha, n - 1, truth, teacher[..n - 1]);
      assert hard[..n - 1] == OneHot(n - 1, truth);
      assert target[..n - 1] == Target(alpha, n - 1, truth, teacher[..n - 1]);
      MixPlus(alpha, Sum(hard[..n - 1]), hard[n - 1], Sum(teacher[..n - 1]), teacher[n - 1]);
    }
  }

  lemma NothingMixed(alpha: real)
    ensures Mix(alpha, 0.0, 0.0) == 0.0
  {
  }

  /** The true class is one of the teacher's, whose parts make one. */
  predicate Mixes(truth: nat, teacher: seq<real>) {
    truth < |teacher| && Sum(teacher) == 1.0
  }

  /** Any mix of the two, whatever alpha is, consists of parts of one. */
  lemma TargetIsParts(alpha: real, truth: nat, teacher: seq<real>)
    requires Mixes(truth, teacher)
    ensures Parts(Target(alpha, |teacher|, truth, teacher))
  {
    hide Mix, Sum;
    OneHotSum(|teacher|, truth);
    TargetSum(alpha, |teacher|, truth, teacher);
    MixIs(alpha, 1.0, 1.0);
  }

  /** With alpha one, all twenty copies carry the true label. */
  lemma OnlyTrueLabel(truth: nat, teacher: seq<real>, counts: seq<int>)
    requires Mixes(truth, teacher) && Parts(Target(1.0, |teacher|, truth, teacher))
    requires Apportioned(Target(1.0, |teacher|, truth, teacher), counts)
    ensures |counts| == |teacher|
    ensures forall j :: 0 <= j < |counts| ==> counts[j] == if j == truth then REPS else 0
  {
    hide Apportioned, Mix;
    var p := Target(1.0, |teacher|, truth, teacher);
    Exact(p, counts);
    forall j | 0 <= j < |counts| ensures counts[j] == if j == truth then REPS else 0 {
      MixIs(1.0, OneHot(|teacher|, truth)[j], teacher[j]);
      assert p[j] == if j == truth then 1.0 else 0.0;
    }
  }

  // ----- the loops -----

  function ByFraction(p: seq<real>): (nat, nat) -> bool {
    (i: nat, j: nat) => FractionAt(p)(i) >= FractionAt(p)(j)
  }

  /** The classes by descending fraction. */
  function Listing(p: seq<real>): seq<nat> {
    Sort(Range(|p|), ByFraction(p))
  }

  lemma ListingSorts(p: seq<real>)
    ensures IsArgsort(Listing(p), p) && |Listing(p)| == |p|
  {
    SortIs(Range(|p|), ByFraction(p));
    var order := Listing(p);
    assert multiset(order) == multiset(Range(|p|));
    forall a, b | 0 <= a < b < |order| && order[a] < |p| && order[b] < |p|
      ensures Fraction(p[order[a]]) >= Fraction(p[order[b]])
    {
      assert ByFraction(p)(order[a], order[b]);
      assert FractionAt(p)(order[a]) >= FractionAt(p)(order[b]);
    }
  }

  /** The counts of one sample. */
  method ApportionSample(p: seq<real>) returns (counts: seq<int>)
    requires Parts(p)
    ensures Apportioned(p, counts)
  {
    hide Listing, Remainder, IsArgsort;
    ListingSorts(p);
    RemainderIs(p);
    counts := Wholes(p);
    var remainder := REPS - Total(counts);
    var order := Listing(p);
    if remainder > 0 {
      for t := 0 to remainder
        invariant counts == Bumped(Wholes(p), order[..t])
      {
        assert order[..t + 1][..t] == order[..t];
        ListedBelow(order, p, t);
        counts := counts[order[t] := counts[order[t]] + 1];
      }
    }
    assert counts == Counts(p, order);
  }

  lemma RemainderIs(p: seq<real>)
    requires Parts(p)
    ensures Remainder(p) == REPS - Total(Wholes(p)) < |p|
  {
  }

  lemma ListedBelow(order: seq<nat>, p: seq<real>, t: nat)
    requires IsArgsort(order, p) && t < |order|
    ensures order[t] < |p|
  {
    ArgsortLists(order, p);
    assert order[t] in order;
  }

  /** One copy: the row it repeats and the class it is labelled with. */
  datatype Copy = Copy(row: nat, name: nat)

  /** [i] * count: nothing for a negative count. */
  function Times(count: int): nat {
    if count > 0 then count else 0
  }

  function TotalTimes(counts: seq<int>): nat {
    if counts == [] then 0 else TotalTimes(counts[..|counts| - 1]) + Times(counts[|counts| - 1])
  }

  predicate NoneNegative(counts: seq<int>) {
    forall j :: 0 <= j < |counts| ==> counts[j] >= 0
  }

  lemma {:induction false} TimesTotal(counts: seq<int>)
    ensures TotalTimes(counts) >= Total(counts)
    ensures TotalTimes(counts) == Total(counts) <==> NoneNegative(counts)
  {
    if counts != [] {
      var before := counts[..|counts| - 1];
      TimesTotal(before);
      assert NoneNegative(counts) <==> NoneNegative(before) && counts[|counts| - 1] >= 0 by {
        assert forall j :: 0 <= j < |before| ==> before[j] == counts[j];
      }
    }
  }

  /** The copies of row i, class by class. */
  function CopiesOf(i: nat, counts: seq<int>): seq<Copy> {
    if counts == [] then [] else
      CopiesOf(i, counts[..|counts| - 1]) + seq(Times(counts[|counts| - 1]), _ => Copy(i, |counts| - 1))
  }

  /** The copies of all rows. */
  function AllCopies(table: seq<seq<int>>): seq<Copy> {
    if table == [] then [] else AllCopies(table[..|table| - 1]) + CopiesOf(|table| - 1, table[|table| - 1])
  }

  function Rows(copies: seq<Copy>): (rows: seq<nat>)
    ensures |rows| == |copies|
  {
    seq(|copies|, k requires 0 <= k < |copies| => copies[k].row)
  }

  function Names(copies: seq<Copy>): (names: seq<nat>)
    ensures |names| == |copies|
  {
    seq(|copies|, k requires 0 <= k < |copies| => copies[k].name)
  }

  lemma {:induction false} CopiesCount(i: nat, counts: seq<int>, x: Copy)
    ensures |CopiesOf(i, counts)| == TotalTimes(counts)
    ensures multiset(CopiesOf(i, counts))[x] == if x.row == i && x.name < |counts| then Times(counts[x.name]) else 0
  {
    if counts != [] {
      var last := |counts| - 1;
      CopiesCount(i, counts[..last], x);
      Repeated(Times(counts[last]), Copy(i, last), x);
    }
  }

  lemma {:induction false} Repeated(n: nat, y: Copy, x: Copy)
    ensures multiset(seq(n, _ => y))[x] == if x == y then n else 0
  {
    if n > 0 {
      Repeated(n - 1, y, x);
      assert seq(n, _ => y) == seq(n - 1, _ => y) + [y];
    }
  }

  /** Every row appears with each label as often as apportioned. */
  lemma {:induction false} CopiesAreApportioned(table: seq<seq<int>>, x: Copy)
    ensures multiset(AllCopies(table))[x] ==
            if x.row < |table| && x.name < |table[x.row]| then Times(table[x.row][x.name]) else 0
  {
    if table != [] {
      CopiesAreApportioned(table[..|table| - 1], x);
      CopiesCount(|table| - 1, table[|table| - 1], x);
    }
  }

  /** An apportioned row appears at least twenty times, and exactly twenty times if
      and only if no class has a negative count. */
  lemma CopiesWithoutNegatives(p: seq<real>, counts: seq<int>, i: nat)
    requires Parts(p) && Apportioned(p, counts)
    ensures |CopiesOf(i, counts)| >= REPS
    ensures |CopiesOf(i, counts)| == REPS <==> NoneNegative(counts)
  {
    hide Apportioned;
    Exact(p, counts);
    TimesTotal(counts);
    CopiesCount(i, counts, Copy(i, 0));
  }

  // ----- which targets give twenty copies -----

  /** The classes that can come before class j in a listing. */
  function Rivals(p: seq<real>, j: nat): set<nat>
    requires j < |p|
  {
    set i: nat | i < |p| && i != j && Fraction(p[i]) >= Fraction(p[j])
  }

  /** Class j is within one copy of zero, and however ties fall it is given one of
      the copies left over. */
  predicate Recovers(p: seq<real>, j: nat)
    requires Parts(p) && j < |p|
  {
    REPS as real * p[j] >= -1.0 && |Rivals(p, j)| < Remainder(p)
  }

  /** Everything listed before class j is one of its rivals. */
  lemma PlaceWithinRivals(p: seq<real>, order: seq<nat>, a: nat)
    requires IsArgsort(order, p) && a < |order| && order[a] < |p|
    ensures a <= |Rivals(p, order[a])|
  {
    hide Fraction;
    ArgsortLists(order, p);
    DistinctSize(order[..a]);
    forall x | x in Elements(order[..a]) ensures x in Rivals(p, order[a]) {
      var b :| 0 <= b < a && order[..a][b] == x;
      assert order[b] == x && x in order;
    }
    SubsetSize(Elements(order[..a]), Rivals(p, order[a]));
  }

  lemma {:induction false} SubsetSize(s: set<nat>, t: set<nat>)
    requires s <= t
    ensures |s| <= |t|
  {
    if s != {} {
      var x :| x in s;
      SubsetSize(s - {x}, t - {x});
    }
  }

  /** By descending fraction, with class j behind its ties. */
  function Behind(p: seq<real>, j: nat): (nat, nat) -> bool {
    (x: nat, y: nat) =>
      FractionAt(p)(x) > FractionAt(p)(y) || (FractionAt(p)(x) == FractionAt(p)(y) && (x == j ==> y == j))
  }

  /** A listing with every rival of class j before it. */
  lemma LastOfTies(p: seq<real>, j: nat) returns (order: seq<nat>, a: nat)
    requires j < |p|
    ensures |order| == |p| && IsArgsort(order, p) && a < |order| && order[a] == j && |Rivals(p, j)| <= a
  {
    hide Fraction, Sort;
    order := Sort(Range(|p|), Behind(p, j));
    SortIs(Range(|p|), Behind(p, j));
    BehindSorts(p, j, order);
    ArgsortLists(order, p);
    assert j in order;
    a :| 0 <= a < |order| && order[a] == j;
    DistinctSize(order[..a]);
    forall x | x in Rivals(p, j) ensures x in Elements(order[..a]) {
      assert x in order;
      var b :| 0 <= b < |order| && order[b] == x;
      assert FractionAt(p)(x) >= FractionAt(p)(j);
      assert !Behind(p, j)(j, x);
      assert !(a < b);
      assert order[..a][b] == x;
    }
    SubsetSize(Rivals(p, j), Elements(order[..a]));
  }

  lemma BehindSorts(p: seq<real>, j: nat, order: seq<nat>)
    requires multiset(order) == multiset(Range(|p|)) && Sorted(order, Behind(p, j))
    ensures IsArgsort(order, p)
  {
    hide Fraction;
    forall a, b | 0 <= a < b < |order| && order[a] < |p| && order[b] < |p|
      ensures Fraction(p[order[a]]) >= Fraction(p[order[b]])
    {
      assert Behind(p, j)(order[a], order[b]);
      assert FractionAt(p)(order[a]) >= FractionAt(p)(order[b]);
    }
  }

  /** The count of the class in place a of the listing. */
  lemma CountOfPlace(p: seq<real>, order: seq<nat>, a: nat)
    requires Parts(p) && |order| == |p| && IsArgsort(order, p) && a < |p|
    ensures order[a] < |p| && |Counts(p, order)| == |p|
    ensures Counts(p, order)[order[a]] == Whole(p[order[a]]) + if a < Remainder(p) then 1 else 0
  {
    hide Fraction, Whole, Remainder, IsArgsort;
    ArgsortLists(order, p);
    RemainderIs(p);
    var extra := order[..Remainder(p)];
    assert order[a] in order;
    assert Distinct(extra);
    BumpedAt(Wholes(p), extra, order[a]);
    if a < Remainder(p) { assert extra[a] == order[a]; }
  }

  /** The whole part of a negative part is minus one exactly when it lies within one
      copy of zero. */
  lemma NegativeWhole(x: real)
    requires x < 0.0
    ensures Whole(x) <= -1 && (Whole(x) == -1 <==> REPS as real * x >= -1.0)
  {
  }

  lemma EveryCountRecovers(p: seq<real>, counts: seq<int>)
    requires Parts(p) && Apportioned(p, counts)
    requires forall j: nat :: j < |p| && p[j] < 0.0 ==> Recovers(p, j)
    ensures NoneNegative(counts)
  {
    hide Fraction, Whole, Remainder, IsArgsort, Rivals, Counts;
    var order :| |order| == |p| && IsArgsort(order, p) && counts == Counts(p, order);
    Exact(p, counts);
    ArgsortLists(order, p);
    forall j | 0 <= j < |counts| ensures counts[j] >= 0 {
      if p[j] < 0.0 {
        assert j in order;
        var a :| 0 <= a < |order| && order[a] == j;
        CountOfPlace(p, order, a);
        PlaceWithinRivals(p, order, a);
        NegativeWhole(p[j]);
        assert Recovers(p, order[a]);
      }
    }
  }

  /** A negative part that does not recover is negative in some listing. */
  lemma SomeCountNegative(p: seq<real>, j: nat) returns (counts: seq<int>)
    requires Parts(p) && j < |p| && p[j] < 0.0 && !Recovers(p, j)
    ensures Apportioned(p, counts) && !NoneNegative(counts)
  {
    hide Fraction, Whole, Remainder, IsArgsort, Rivals, Counts;
    var order, a := LastOfTies(p, j);
    counts := Counts(p, order);
    CountOfPlace(p, order, a);
    NegativeWhole(p[j]);
    assert counts[j] < 0;
  }

  /** A row appears twenty times, however ties fall, if and only if every negative
      part of the target lies within one copy of zero and has fewer rivals than
      there are copies left over. */
  lemma TwentyCopiesExactly(p: seq<real>, i: nat)
    requires Parts(p)
    ensures (forall counts :: Apportioned(p, counts) ==> |CopiesOf(i, counts)| == REPS)
            <==> forall j: nat :: j < |p| && p[j] < 0.0 ==> REPS as real * p[j] >= -1.0 && |Rivals(p, j)| < Remainder(p)
  {
    hide Fraction, Remainder, Apportioned, Rivals, CopiesOf;
    if forall j: nat :: j < |p| && p[j] < 0.0 ==> Recovers(p, j) {
      forall counts | Apportioned(p, counts) ensures |CopiesOf(i, counts)| == REPS {
        EveryCountRecovers(p, counts);
        CopiesWithoutNegatives(p, counts, i);
      }
    } else {
      var j: nat :| j < |p| && p[j] < 0.0 && !Recovers(p, j);
      var counts := SomeCountNegative(p, j);
      CopiesWithoutNegatives(p, counts, i);
    }
  }

  /** With alpha between zero and one and a teacher without negative parts, the
      target has none either, and a row appears twenty times. */
  lemma WithinOneNoneNegative(alpha: real, truth: nat, teacher: seq<real>, counts: seq<int>, i: nat)
    requires Mixes(truth, teacher) && 0.0 <= alpha <= 1.0 && forall j :: 0 <= j < |teacher| ==> teacher[j] >= 0.0
    requires Parts(Target(alpha, |teacher|, truth, teacher)) && Apportioned(Target(alpha, |teacher|, truth, teacher), counts)
    ensures |CopiesOf(i, counts)| == REPS && NoneNegative(counts)
  {
    hide Apportioned, Mix, Parts, CopiesOf, Rivals, Remainder;
    var p := Target(alpha, |teacher|, truth, teacher);
    forall j | 0 <= j < |p| ensures p[j] >= 0.0 {
      MixIs(alpha, OneHot(|teacher|, truth)[j], teacher[j]);
    }
    TwentyCopiesExactly(p, i);
    CopiesWithoutNegatives(p, counts, i);
  }

  /** The counts of a row are within one of twenty times the mix: alpha at its true
      class, and the rest as the teacher divides it. */
  lemma CountsFollowMix(alpha: real, truth: nat, teacher: seq<real>, counts: seq<int>)
    requires Mixes(truth, teacher)
    requires Parts(Target(alpha, |teacher|, truth, teacher)) && Apportioned(Target(alpha, |teacher|, truth, teacher), counts)
    ensures |counts| == |teacher| && Total(counts) == 20
    ensures forall j :: 0 <= j < |counts| ==>
              var quota := 20.0 * ((if j == truth then alpha else 0.0) + (1.0 - alpha) * teacher[j]);
              quota - 1.0 < counts[j] as real < quota + 1.0
  {
    hide Apportioned, Parts, Total;
    Exact(Target(alpha, |teacher|, truth, teacher), counts);
  }

  /** With alpha two and an undecided teacher of two classes a row appears thirty
      times. */
  lemma AlphaTwo(counts: seq<int>, i: nat)
    requires Parts(Target(2.0, 2, 0, [0.5, 0.5])) && Apportioned(Target(2.0, 2, 0, [0.5, 0.5]), counts)
    ensures counts == [30, -10] && |CopiesOf(i, counts)| == 30
  {
    hide Apportioned, Parts, Total, Mix, CopiesOf;
    var p := Target(2.0, 2, 0, [0.5, 0.5]);
    Exact(p, counts);
    ThirtyAndMinusTen(p);
    CopiesCount(i, counts, Copy(i, 0));
    assert counts[..1] == [30] && counts[..1][..0] == [];
    assert TotalTimes(counts[..1]) == 30;
  }

  lemma ThirtyAndMinusTen(p: seq<real>)
    requires p == Target(2.0, 2, 0, [0.5, 0.5])
    ensures |p| == 2 && p[0] == 1.5 && p[1] == -0.5
  {
  }

  /** The rows and labels of the distilled training set. counts says how often
      each row got each label. */
  method DistilledTrainingSet(truths: seq<nat>, teacher: seq<seq<real>>, alpha: real)
    returns (rows: seq<nat>, labels: seq<nat>, counts: seq<seq<int>>)
    requires |truths| == |teacher| && forall i :: 0 <= i < |truths| ==> Mixes(truths[i], teacher[i])
    ensures |counts| == |truths|
    ensures forall i :: 0 <= i < |truths| ==>
              && Parts(Target(alpha, |teacher[i]|, truths[i], teacher[i]))
              && Apportioned(Target(alpha, |teacher[i]|, truths[i], teacher[i]), counts[i])
    ensures rows == Rows(AllCopies(counts)) && labels == Names(AllCopies(counts))
  {
    hide Apportioned, Mixes, Sum;
    rows, labels, counts := [], [], [];
    for i := 0 to |truths|
      invariant |counts| == i && rows == Rows(AllCopies(counts)) && labels == Names(AllCopies(counts))
      invariant forall k :: 0 <= k < i ==>
                  && Parts(Target(alpha, |teacher[k]|, truths[k], teacher[k]))
                  && Apportioned(Target(alpha, |teacher[k]|, truths[k], teacher[k]), counts[k])
    {
      var target := Target(alpha, |teacher[i]|, truths[i], teacher[i]);
      TargetIsParts(alpha, truths[i], teacher[i]);
      var total := Sum(target);
      var probs := seq(|target|, j requires 0 <= j < |target| => target[j] / total);
      assert probs == target;
      var sample := ApportionSample(probs);
      ghost var before := AllCopies(counts);
      for j := 0 to |sample|
        invariant rows == Rows(before + CopiesOf(i, sample[..j])) && labels == Names(before + CopiesOf(i, sample[..j]))
      {
        assert sample[..j + 1][..j] == sample[..j];
        rows := rows + seq(Times(sample[j]), _ => i);
        labels := labels + seq(Times(sample[j]), _ => j);
      }
      assert sample[..|sample|] == sample;
      assert (counts + [sample])[..i] == counts;
      counts := counts + [sample];
    }
  }
}
