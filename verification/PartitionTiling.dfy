/** The client partitions hold every sample exactly once, and nobody is left
    without samples if there are enough of them. */
module PartitionTiling {
  import opened Results
  import opened Seqs
  import opened Randomness
  import opened DataPartition

  /** All indices held by some bucket, with multiplicity. */
  function Held(buckets: seq<seq<nat>>): multiset<nat> {
    multiset(Flatten(buckets))
  }

  function Sizes(buckets: seq<seq<nat>>): nat {
    |Flatten(buckets)|
  }

  lemma HeldLast(buckets: seq<seq<nat>>)
    requires buckets != []
    ensures Held(buckets) == Held(buckets[..|buckets| - 1]) + multiset(buckets[|buckets| - 1])
  {
  }

  lemma {:induction false} HeldUpdate(buckets: seq<seq<nat>>, i: nat, bucket: seq<nat>)
    requires i < |buckets|
    ensures Held(buckets[i := bucket]) + multiset(buckets[i]) == Held(buckets) + multiset(bucket)
  {
    var last := |buckets| - 1;
    HeldLast(buckets);
    HeldLast(buckets[i := bucket]);
    if i == last {
      assert buckets[i := bucket][..last] == buckets[..last];
    } else {
      assert buckets[i := bucket][..last] == buckets[..last][i := bucket];
      HeldUpdate(buckets[..last], i, bucket);
      assert buckets[..last][i] == buckets[i];
      Regroup(Held(buckets[..last][i := bucket]), multiset(buckets[i]), Held(buckets[..last]), multiset(bucket),
              multiset(buckets[last]));
    }
  }

  lemma Regroup(a: multiset<nat>, x: multiset<nat>, b: multiset<nat>, y: multiset<nat>, c: multiset<nat>)
    requires a + x == b + y
    ensures (a + c) + x == (b + c) + y
  {
    assert (a + c) + x == (a + x) + c && (b + c) + y == (b + y) + c;
  }

  // ----- dealing -----

  lemma {:induction false} DealClassHeld(buckets: seq<seq<nat>>, indices: seq<nat>, counts: seq<nat>, n: nat)
    requires n <= |counts| == |buckets| && Total(counts[..n]) <= |indices|
    ensures Held(DealClass(buckets, indices, counts, n)) == Held(buckets) + multiset(indices[..Total(counts[..n])])
  {
    if n == 0 {
      assert indices[..Total(counts[..0])] == [];
    } else {
      TotalStep(counts, n - 1);
      DealClassHeld(buckets, indices, counts, n - 1);
      var before := DealClass(buckets, indices, counts, n - 1);
      var from, upto := Total(counts[..n - 1]), Total(counts[..n]);
      HeldUpdate(before, n - 1, before[n - 1] + indices[from..upto]);
      assert indices[..upto] == indices[..from] + indices[from..upto];
      Cancel(Held(DealClass(buckets, indices, counts, n)), multiset(before[n - 1]), Held(before) + multiset(indices[from..upto]));
    }
  }

  lemma Cancel(a: multiset<nat>, c: multiset<nat>, b: multiset<nat>)
    requires a + c == b + c
    ensures a == b
  {
    assert a == (a + c) - c && b == (b + c) - c;
  }

  lemma {:induction false} EmptyHeld(k: nat)
    ensures Held(NoBuckets(k)) == multiset{}
  {
    if k > 0 {
      assert NoBuckets(k)[..k - 1] == NoBuckets(k - 1);
      EmptyHeld(k - 1);
      HeldLast(NoBuckets(k));
    }
  }

  /** Selecting by either of two exclusive tests selects each part once. */
  lemma {:induction false} FilterSplits(s: seq<nat>, p: nat -> bool, q: nat -> bool, both: nat -> bool)
    requires forall x :: both(x) <==> p(x) || q(x)
    requires forall x :: !(p(x) && q(x))
    ensures multiset(Filter(s, both)) == multiset(Filter(s, p)) + multiset(Filter(s, q))
  {
    if s != [] { FilterSplits(s[..|s| - 1], p, q, both); }
  }

  lemma DealNextHeld(labels: seq<int>, n: nat, k: nat, rng: Rng)
    requires n < |Unique(labels)| && k > 0
    ensures Held(DealClasses(labels, n + 1, k, rng)) ==
            Held(DealClasses(labels, n, k, rng)) + multiset(ClassIndices(labels, Unique(labels)[n]))
  {
    var classes := Unique(labels);
    ClassCountsFit(labels, classes, n, k, rng);
    var order, counts := ClassOrder(labels, classes, n, rng), ClassCounts(labels, classes, n, k, rng);
    TotalAll(counts);
    DealClassHeld(DealClasses(labels, n, k, rng), order, counts, k);
    assert counts[..k] == counts && order[..|order|] == order;
  }

  /** The samples of the first n classes. */
  function OfClasses(labels: seq<int>, classes: seq<int>, n: nat): multiset<nat>
    requires n <= |classes|
  {
    multiset(Filter(Range(|labels|), HasLabel(labels, classes[..n])))
  }

  /** After n classes the buckets hold exactly the samples of those classes. */
  lemma {:induction false} DealClassesHeld(labels: seq<int>, classes: seq<int>, n: nat, k: nat, rng: Rng)
    requires classes == Unique(labels) && n <= |classes| && k > 0
    ensures Held(DealClasses(labels, n, k, rng)) == OfClasses(labels, classes, n)
  {
    if n == 0 {
      NothingDealt(labels, classes, k, rng);
    } else {
      var m := n - 1;
      DealClassesHeld(labels, classes, m, k, rng);
      assert Held(DealClasses(labels, m + 1, k, rng)) == OfClasses(labels, classes, m + 1) by {
        DealNextHeld(labels, m, k, rng);
        ClassJoins(labels, classes, m);
      }
    }
  }

  lemma NothingDealt(labels: seq<int>, classes: seq<int>, k: nat, rng: Rng)
    requires k > 0
    ensures Held(DealClasses(labels, 0, k, rng)) == OfClasses(labels, classes, 0)
  {
    EmptyHeld(k);
    FilterNothing(Range(|labels|), HasLabel(labels, classes[..0]));
  }

  lemma ClassJoins(labels: seq<int>, classes: seq<int>, n: nat)
    requires n < |classes| && Increasing(classes)
    ensures OfClasses(labels, classes, n + 1) == OfClasses(labels, classes, n) + multiset(ClassIndices(labels, classes[n]))
  {
    assert classes[..n + 1] == classes[..n] + [classes[n]];
    assert classes[n] !in classes[..n];
    FilterSplits(Range(|labels|), HasLabel(labels, classes[..n]), HasLabel(labels, [classes[n]]),
                 HasLabel(labels, classes[..n + 1]));
  }

  lemma AllDealt(labels: seq<int>, k: nat, rng: Rng)
    requires k > 0
    ensures Held(DealClasses(labels, |Unique(labels)|, k, rng)) == multiset(Range(|labels|))
  {
    var classes := Unique(labels);
    DealClassesHeld(labels, classes, |classes|, k, rng);
    assert classes[..|classes|] == classes;
    forall i | i in Range(|labels|) ensures HasLabel(labels, classes)(i) {
      assert labels[i] in labels;
    }
    FilterEverything(Range(|labels|), HasLabel(labels, classes));
  }

  // ----- who gets what of a class -----

  /** A client's bucket grows by its counts[i] next indices. */
  lemma {:induction false} DealtTo(buckets: seq<seq<nat>>, indices: seq<nat>, counts: seq<nat>, n: nat, i: nat)
    requires n <= |counts| == |buckets| && Total(counts[..n]) <= |indices| && i < n
    ensures Total(counts[..i]) <= Total(counts[..i + 1]) == Total(counts[..i]) + counts[i] <= |indices|
    ensures DealClass(buckets, indices, counts, n)[i] == buckets[i] + indices[Total(counts[..i])..Total(counts[..i + 1])]
  {
    TotalStep(counts, n - 1);
    TotalStep(counts, i);
    if i < n - 1 { DealtTo(buckets, indices, counts, n - 1, i); }
  }

  function HasLabelAt(labels: seq<int>, name: int): nat -> bool {
    (x: nat) => x < |labels| && labels[x] == name
  }

  lemma {:induction false} ClassIndicesHave(labels: seq<int>, classes: seq<int>, c: nat, rng: Rng, x: nat)
    requires c < |classes| && x in ClassOrder(labels, classes, c, rng)
    ensures x < |labels| && labels[x] == classes[c]
  {
    var indices := ClassIndices(labels, classes[c]);
    assert x in multiset(ClassOrder(labels, classes, c, rng)) && x in multiset(indices);
    FilterMember(Range(|labels|), HasLabel(labels, [classes[c]]), x);
  }

  /** Of class c, client i gets the next counts[i] of the class's shuffled samples,
      after those of the clients before it. */
  lemma {:induction false} DealtOfClass(labels: seq<int>, n: nat, k: nat, rng: Rng, c: nat, i: nat)
    requires c < n <= |Unique(labels)| && k > 0 && i < k
    ensures var classes := Unique(labels);
            var order, counts := ClassOrder(labels, classes, c, rng), ClassCounts(labels, classes, c, k, rng);
            && i < |counts| && Total(counts[..i]) + counts[i] <= |order|
            && Filter(DealClasses(labels, n, k, rng)[i], HasLabelAt(labels, classes[c])) ==
               order[Total(counts[..i])..Total(counts[..i]) + counts[i]]
  {
    hide Unique, DealClass, ClassOrder, ClassCounts, Slice, DealClasses, HasLabelAt;
    SliceOfClass(labels, n - 1, k, rng, i, c);
    if c < n - 1 { DealtOfClass(labels, n - 1, k, rng, c, i); } else { NoneOfClass(labels, c, k, rng, c, i); }
  }

  /** What client i has after n classes, from what it had before the last of them. */
  lemma ClassSlice(labels: seq<int>, n: nat, k: nat, rng: Rng, i: nat)
    requires 0 < n <= |Unique(labels)| && k > 0 && i < k
    ensures DealClasses(labels, n, k, rng)[i] == DealClasses(labels, n - 1, k, rng)[i] + Slice(labels, n - 1, k, rng, i)
  {
    hide Unique, ClassOrder, ClassCounts;
    ClassCountsFit(labels, Unique(labels), n - 1, k, rng);
    var order, counts := ClassOrder(labels, Unique(labels), n - 1, rng), ClassCounts(labels, Unique(labels), n - 1, k, rng);
    TotalAll(counts);
    DealtTo(DealClasses(labels, n - 1, k, rng), order, counts, k, i);
  }

  /** The part of class c that client i gets. */
  function Slice(labels: seq<int>, c: nat, k: nat, rng: Rng, i: nat): (slice: seq<nat>)
    requires c < |Unique(labels)| && i < k
    ensures forall x :: x in slice ==> x in ClassOrder(labels, Unique(labels), c, rng)
    ensures var order, counts := ClassOrder(labels, Unique(labels), c, rng), ClassCounts(labels, Unique(labels), c, k, rng);
            && i < |counts| && Total(counts[..i]) + counts[i] <= |order|
            && slice == order[Total(counts[..i])..Total(counts[..i]) + counts[i]]
  {
    var order, counts := ClassOrder(labels, Unique(labels), c, rng), ClassCounts(labels, Unique(labels), c, k, rng);
    ClassCountsFit(labels, Unique(labels), c, k, rng);
    TotalStep(counts, i);
    TotalAll(counts);
    TotalMonotone(counts, i + 1);
    order[Total(counts[..i])..Total(counts[..i + 1])]
  }

  lemma SliceOfClass(labels: seq<int>, n: nat, k: nat, rng: Rng, i: nat, c: nat)
    requires c < |Unique(labels)| && n < |Unique(labels)| && k > 0 && i < k
    ensures Filter(DealClasses(labels, n + 1, k, rng)[i], HasLabelAt(labels, Unique(labels)[c])) ==
            Filter(DealClasses(labels, n, k, rng)[i], HasLabelAt(labels, Unique(labels)[c]))
            + if c == n then Slice(labels, n, k, rng, i) else []
  {
    hide Unique, DealClasses;
    var classes, slice := Unique(labels), Slice(labels, n, k, rng, i);
    ClassSlice(labels, n + 1, k, rng, i);
    FilterAppend<nat>(DealClasses(labels, n, k, rng)[i], slice, HasLabelAt(labels, classes[c]));
    forall x: nat | x in slice ensures x < |labels| && labels[x] == classes[n] { ClassIndicesHave(labels, classes, n, rng, x); }
    if c == n { FilterEverything(slice, HasLabelAt(labels, classes[c])); }
    else { FilterNothing(slice, HasLabelAt(labels, classes[c])); }
  }

  lemma {:induction false} NoneOfClass(labels: seq<int>, n: nat, k: nat, rng: Rng, c: nat, i: nat)
    requires n <= c < |Unique(labels)| && k > 0 && i < k
    ensures Filter(DealClasses(labels, n, k, rng)[i], HasLabelAt(labels, Unique(labels)[c])) == []
  {
    hide Unique, ClassOrder, ClassCounts, DealClass;
    if n > 0 {
      hide DealClasses;
      NoneOfClass(labels, n - 1, k, rng, c, i);
      SliceOfClass(labels, n - 1, k, rng, i, c);
    }
  }

  // ----- repair -----

  lemma MoveHeld(buckets: seq<seq<nat>>, donor: nat, target: nat, position: nat)
    requires donor < |buckets| && target < |buckets| && position < |buckets[donor]|
    ensures Held(Move(buckets, donor, target, position)) == Held(buckets)
  {
    var rest, moved := Without(buckets[donor], position), buckets[donor][position];
    var popped := buckets[donor := rest];
    HeldUpdate(buckets, donor, rest);
    HeldUpdate(popped, target, popped[target] + [moved]);
    Cancel(Held(popped) + multiset{moved}, multiset(rest), Held(buckets));
    Cancel(Held(Move(buckets, donor, target, position)), multiset(popped[target]), Held(buckets));
  }

  /** The repair loop only moves indices between buckets. */
  lemma {:induction false} RepairHeld(buckets: seq<seq<nat>>, empties: seq<nat>, rng: Rng, call: nat)
    requires forall j :: 0 <= j < |empties| ==> empties[j] < |buckets|
    ensures Held(Repair(buckets, empties, rng, call)) == Held(buckets)
    decreases |empties|
  {
    if empties != [] {
      assert empties[0] < |buckets|;
      var donor := Largest(buckets);
      if |buckets[donor]| > 1 {
        var position := rng.Below(call, |buckets[donor]|);
        MoveHeld(buckets, donor, empties[0], position);
        RepairHeld(Move(buckets, donor, empties[0], position), empties[1..], rng, call + 1);
      }
    }
  }

  predicate AllSmall(buckets: seq<seq<nat>>) {
    forall i :: 0 <= i < |buckets| ==> |buckets[i]| <= 1
  }

  predicate NoneEmpty(buckets: seq<seq<nat>>) {
    forall i :: 0 <= i < |buckets| ==> buckets[i] != []
  }

  lemma {:induction false} SmallBucketsHoldLittle(buckets: seq<seq<nat>>)
    requires AllSmall(buckets)
    ensures Sizes(buckets) <= |buckets|
    ensures (exists i :: 0 <= i < |buckets| && buckets[i] == []) ==> Sizes(buckets) < |buckets|
  {
    if buckets != [] {
      var before := buckets[..|buckets| - 1];
      SmallBucketsHoldLittle(before);
      if i :| 0 <= i < |buckets| - 1 && buckets[i] == [] { assert before[i] == []; }
    }
  }

  lemma {:induction false} FullBucketsHoldMuch(buckets: seq<seq<nat>>)
    requires NoneEmpty(buckets)
    ensures Sizes(buckets) >= |buckets|
  {
    if buckets != [] {
      FullBucketsHoldMuch(buckets[..|buckets| - 1]);
    }
  }

  /** What remains to be repaired: the listed buckets, which are still empty, and
      no others. */
  ghost predicate ToRepair(buckets: seq<seq<nat>>, empties: seq<nat>) {
    && Distinct(empties)
    && (forall j :: 0 <= j < |empties| ==> empties[j] < |buckets| && buckets[empties[j]] == [])
    && (forall i: nat :: i < |buckets| && buckets[i] == [] ==> i in empties)
  }

  /** With at least as many samples as buckets, the largest bucket has two
      indices while one is empty: the break of the loop is never taken. */
  lemma DonorHasTwo(buckets: seq<seq<nat>>, empty: nat)
    requires Sizes(buckets) >= |buckets| && empty < |buckets| && buckets[empty] == []
    ensures |buckets[Largest(buckets)]| >= 2
  {
    if |buckets[Largest(buckets)]| <= 1 {
      assert AllSmall(buckets);
      SmallBucketsHoldLittle(buckets);
    }
  }

  /** The repair loop fills every empty bucket and never empties another. */
  lemma {:induction false} RepairFills(buckets: seq<seq<nat>>, empties: seq<nat>, rng: Rng, call: nat)
    requires ToRepair(buckets, empties) && Sizes(buckets) >= |buckets|
    ensures NoneEmpty(Repair(buckets, empties, rng, call))
    decreases |empties|
  {
    if empties != [] {
      var target, donor := empties[0], Largest(buckets);
      DonorHasTwo(buckets, target);
      var position := rng.Below(call, |buckets[donor]|);
      var moved := Move(buckets, donor, target, position);
      MoveHeld(buckets, donor, target, position);
      assert |multiset(Flatten(moved))| == |multiset(Flatten(buckets))|;
      MovedToRepair(buckets, empties, donor, position);
      RepairFills(moved, empties[1..], rng, call + 1);
    } else {
      assert NoneEmpty(buckets);
    }
  }

  /** A repaired bucket ends with exactly one index; every other only loses some. */
  lemma {:induction false} RepairMovesOne(buckets: seq<seq<nat>>, empties: seq<nat>, rng: Rng, call: nat)
    requires ToRepair(buckets, empties) && Sizes(buckets) >= |buckets|
    ensures forall i: nat :: i < |buckets| ==>
              var r := Repair(buckets, empties, rng, call);
              if i in empties then |r[i]| == 1 else multiset(r[i]) <= multiset(buckets[i])
    decreases |empties|
  {
    hide Flatten;
    if empties != [] {
      var target, donor := empties[0], Largest(buckets);
      DonorHasTwo(buckets, target);
      var position := rng.Below(call, |buckets[donor]|);
      var moved := Move(buckets, donor, target, position);
      MoveHeld(buckets, donor, target, position);
      assert |multiset(Flatten(moved))| == |multiset(Flatten(buckets))|;
      MovedToRepair(buckets, empties, donor, position);
      RepairMovesOne(moved, empties[1..], rng, call + 1);
      RepairFills(moved, empties[1..], rng, call + 1);
      MovedOne(buckets, empties, donor, position, Repair(moved, empties[1..], rng, call + 1));
    }
  }

  lemma MovedOne(buckets: seq<seq<nat>>, empties: seq<nat>, donor: nat, position: nat, r: seq<seq<nat>>)
    requires ToRepair(buckets, empties) && empties != [] && NoneEmpty(r) && |r| == |buckets|
    requires donor < |buckets| && |buckets[donor]| >= 2 && position < |buckets[donor]|
    requires forall i: nat :: i < |buckets| ==>
               if i in empties[1..] then |r[i]| == 1 else multiset(r[i]) <= multiset(Move(buckets, donor, empties[0], position)[i])
    ensures forall i: nat :: i < |buckets| ==> if i in empties then |r[i]| == 1 else multiset(r[i]) <= multiset(buckets[i])
  {
    var target := empties[0];
    forall i: nat | i < |buckets| ensures if i in empties then |r[i]| == 1 else multiset(r[i]) <= multiset(buckets[i]) {
      assert i in empties <==> i == target || i in empties[1..];
      if i == target {
        assert target !in empties[1..];
        SmallerSize(r[i], Move(buckets, donor, target, position)[i]);
      }
    }
  }

  lemma SmallerSize(a: seq<nat>, b: seq<nat>)
    requires multiset(a) <= multiset(b)
    ensures |a| <= |b|
  {
    assert multiset(b) == multiset(a) + (multiset(b) - multiset(a));
    assert |multiset(b)| == |b| && |multiset(a)| == |a|;
  }

  lemma MovedToRepair(buckets: seq<seq<nat>>, empties: seq<nat>, donor: nat, position: nat)
    requires ToRepair(buckets, empties) && empties != []
    requires donor < |buckets| && |buckets[donor]| >= 2 && position < |buckets[donor]|
    ensures ToRepair(Move(buckets, donor, empties[0], position), empties[1..])
  {
    var moved := Move(buckets, donor, empties[0], position);
    assert moved[empties[0]] != [] && moved[donor] != [];
    forall j | 0 <= j < |empties[1..]| ensures moved[empties[1..][j]] == [] {
      assert empties[1..][j] == empties[j + 1] != empties[0];
    }
    forall i: nat | i < |moved| && moved[i] == [] ensures i in empties[1..] {
      assert buckets[i] == [] && i in empties && empties == [empties[0]] + empties[1..];
    }
  }

  lemma {:induction false} ShuffleEachHeld(buckets: seq<seq<nat>>, rng: Rng, call: nat, n: nat)
    requires n <= |buckets|
    ensures Held(ShuffleEach(buckets, rng, call)[..n]) == Held(buckets[..n])
    ensures forall i :: 0 <= i < n ==> |ShuffleEach(buckets, rng, call)[i]| == |buckets[i]|
  {
    hide Held;
    if n == 0 {
      assert buckets[..0] == [] == ShuffleEach(buckets, rng, call)[..0];
    } else {
      ShuffleEachHeld(buckets, rng, call, n - 1);
      var shuffled := ShuffleEach(buckets, rng, call);
      HeldLast(shuffled[..n]);
      HeldLast(buckets[..n]);
      assert shuffled[..n][..n - 1] == shuffled[..n - 1] && buckets[..n][..n - 1] == buckets[..n - 1];
      assert |multiset(shuffled[n - 1])| == |multiset(buckets[n - 1])|;
    }
  }

  lemma RepairedHeld(labels: seq<int>, k: nat, rng: Rng)
    requires k > 0
    ensures Held(Repaired(labels, k, rng)) == multiset(Range(|labels|))
    ensures |labels| >= k ==> NoneEmpty(Repaired(labels, k, rng))
  {
    var dealt := DealClasses(labels, |Unique(labels)|, k, rng);
    AllDealt(labels, k, rng);
    if |labels| >= k {
      RepairHeld(dealt, EmptyOnes(dealt), rng, 2 * |Unique(labels)|);
      assert |Held(dealt)| == |multiset(Range(|labels|))|;
      RepairFills(dealt, EmptyOnes(dealt), rng, 2 * |Unique(labels)|);
    }
  }

  /** The Dirichlet partitions hold every index exactly once, and none is empty
      exactly when there are at least as many samples as clients. */
  lemma DirichletPartitionsTile(labels: seq<int>, k: nat, rng: Rng)
    requires k > 0
    ensures Held(DirichletPartitions(labels, k, rng)) == multiset(Range(|labels|))
    ensures NoneEmpty(DirichletPartitions(labels, k, rng)) <==> |labels| >= k
  {
    hide Unique, Repaired, ShuffleEach;
    RepairedHeld(labels, k, rng);
    ShuffledBuckets(Repaired(labels, k, rng), rng, 2 * |Unique(labels)| + k);
    var parts := DirichletPartitions(labels, k, rng);
    if NoneEmpty(parts) {
      FullBucketsHoldMuch(parts);
      assert |Held(parts)| == |multiset(Range(|labels|))|;
    }
  }

  /** With fewer samples than clients nothing is repaired: every client keeps what it
      was dealt. With enough, a client that was dealt nothing gets one sample, and
      the others only give some away. */
  lemma PartsFromDealt(labels: seq<int>, k: nat, rng: Rng, i: nat)
    requires k > 0 && i < k
    ensures var dealt, part := DealClasses(labels, |Unique(labels)|, k, rng)[i], DirichletPartitions(labels, k, rng)[i];
            if |labels| < k then multiset(part) == multiset(dealt)
            else if dealt == [] then |part| == 1
            else multiset(part) <= multiset(dealt)
  {
    hide Unique, DealClasses, Repair, Flatten;
    var dealt := DealClasses(labels, |Unique(labels)|, k, rng);
    if |labels| >= k {
      AllDealt(labels, k, rng);
      assert Sizes(dealt) == |Held(dealt)| == |multiset(Range(|labels|))|;
      RepairMovesOne(dealt, EmptyOnes(dealt), rng, 2 * |Unique(labels)|);
    }
    assert |multiset(DirichletPartitions(labels, k, rng)[i])| == |multiset(Repaired(labels, k, rng)[i])|;
  }

  lemma ShuffledBuckets(buckets: seq<seq<nat>>, rng: Rng, call: nat)
    ensures Held(ShuffleEach(buckets, rng, call)) == Held(buckets)
    ensures NoneEmpty(buckets) ==> NoneEmpty(ShuffleEach(buckets, rng, call))
  {
    ShuffleEachHeld(buckets, rng, call, |buckets|);
    var shuffled := ShuffleEach(buckets, rng, call);
    assert buckets[..|buckets|] == buckets && shuffled[..|buckets|] == shuffled;
  }

  lemma IidNoneEmpty(n: nat, k: nat, rng: Rng)
    requires k > 0
    ensures Held(IidPartitions(n, k, rng)) == multiset(Range(n))
    ensures NoneEmpty(IidPartitions(n, k, rng)) <==> n >= k
  {
    IidPartitionsTile(n, k, rng);
    var parts := IidPartitions(n, k, rng);
    assert Sizes(parts) == n by { assert |multiset(Flatten(parts))| == |multiset(Range(n))|; }
    if NoneEmpty(parts) { FullBucketsHoldMuch(parts); }
    if n >= k && !NoneEmpty(parts) {
      var e :| 0 <= e < k && parts[e] == [];
      assert AllSmall(parts);
      SmallBucketsHoldLittle(parts);
    }
  }

  // ----- make_partition_assignment -----

  datatype Kind = Iid | NonIid(alpha: real)

  datatype PartitionError = ClientCountNotPositive | ClientIndexOutOfRange | EmptyDataset | AlphaNotPositive

  /** All partitions that a kind of split produces. */
  function Partitions(labels: seq<int>, kind: Kind, k: nat, rng: Rng): (parts: seq<seq<nat>>)
    requires k > 0
    ensures |parts| == k
  {
    match kind
    case Iid => IidPartitions(|labels|, k, rng)
    case NonIid(_) => DirichletPartitions(labels, k, rng)
  }

  /** The checks of make_partition_assignment, in order. */
  function Refused(labels: seq<int>, kind: Kind, clientIndex: int, clientCount: int): Option<PartitionError> {
    if clientCount <= 0 then Some(ClientCountNotPositive)
    else if !(0 <= clientIndex < clientCount) then Some(ClientIndexOutOfRange)
    else if labels == [] then Some(EmptyDataset)
    else if kind.NonIid? && kind.alpha <= 0.0 then Some(AlphaNotPositive)
    else None
  }

  method MakePartitionAssignment(labels: seq<int>, kind: Kind, clientIndex: int, clientCount: int, rng: Rng)
    returns (r: Result<seq<nat>, PartitionError>)
    ensures match Refused(labels, kind, clientIndex, clientCount)
            case Some(error) => r == Err(error)
            case None => r == Ok(Partitions(labels, kind, clientCount, rng)[clientIndex])
    ensures r.Ok? <==> clientCount > 0 && 0 <= clientIndex < clientCount && labels != [] && (kind.NonIid? ==> kind.alpha > 0.0)
    ensures r == Err(AlphaNotPositive) <==> 0 <= clientIndex < clientCount && labels != [] && kind.NonIid? && kind.alpha <= 0.0
    ensures r == Err(EmptyDataset) <==> 0 <= clientIndex < clientCount && labels == []
    ensures r == Err(ClientIndexOutOfRange) <==> clientCount > 0 && (clientIndex < 0 || clientIndex >= clientCount)
  {
    if clientCount <= 0 { return Err(ClientCountNotPositive); }
    if !(0 <= clientIndex < clientCount) { return Err(ClientIndexOutOfRange); }
    if labels == [] { return Err(EmptyDataset); }
    var partitions: seq<seq<nat>>;
    match kind {
      case Iid =>
        partitions := IidPartitions(|labels|, clientCount, rng);
      case NonIid(alpha) =>
        if alpha <= 0.0 { return Err(AlphaNotPositive); }
        partitions := ComputeDirichletPartitions(labels, clientCount, rng);
    }
    return Ok(partitions[clientIndex]);
  }

  lemma PartitionsTile(labels: seq<int>, kind: Kind, k: nat, rng: Rng)
    requires k > 0
    ensures Held(Partitions(labels, kind, k, rng)) == multiset(Range(|labels|))
    ensures NoneEmpty(Partitions(labels, kind, k, rng)) <==> |labels| >= k
  {
    match kind
    case Iid => IidNoneEmpty(|labels|, k, rng);
    case NonIid(_) => DirichletPartitionsTile(labels, k, rng);
  }
}
