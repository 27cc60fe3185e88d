/** Client partitions of a dataset (ai_fingerprint/data_partition.py). Every
    client computes all partitions from the shared seed and keeps its own. */
module DataPartition {
  import opened Results
  import opened Seqs
  import opened Randomness

  function Flatten(parts: seq<seq<nat>>): seq<nat> {
    if parts == [] then [] else Flatten(parts[..|parts| - 1]) + parts[|parts| - 1]
  }

  // ----- IID -----

  /** Where part i of k starts when n elements are split as evenly as possible,
      the longer parts first. */
  function Cut(n: nat, k: nat, i: nat): nat
    requires k > 0
  {
    i * (n / k) + if i < n % k then i else n % k
  }

  lemma CutStep(n: nat, k: nat, i: nat)
    requires k > 0 && i < k
    ensures Cut(n, k, i + 1) - Cut(n, k, i) == n / k + if i < n % k then 1 else 0
    ensures Cut(n, k, i) <= Cut(n, k, i + 1)
  {
    assert (i + 1) * (n / k) == i * (n / k) + n / k;
  }

  lemma CutEnd(n: nat, k: nat)
    requires k > 0
    ensures Cut(n, k, k) == n
  {
    assert n == k * (n / k) + n % k;
  }

  lemma {:induction false} CutGrows(n: nat, k: nat, i: nat, j: nat)
    requires k > 0 && i <= j <= k
    ensures Cut(n, k, i) <= Cut(n, k, j)
    decreases j - i
  {
    if i < j {
      CutStep(n, k, i);
      CutGrows(n, k, i + 1, j);
    }
  }

  /** numpy.array_split. */
  function ArraySplit(s: seq<nat>, k: nat): (parts: seq<seq<nat>>)
    requires k > 0
    ensures |parts| == k
  {
    CutEnd(|s|, k);
    seq(k, i requires 0 <= i < k =>
      CutStep(|s|, k, i); CutGrows(|s|, k, i + 1, k); s[Cut(|s|, k, i)..Cut(|s|, k, i + 1)])
  }

  function IidPartitions(n: nat, k: nat, rng: Rng): (parts: seq<seq<nat>>)
    requires k > 0
    ensures |parts| == k
  {
    ArraySplit(rng.Shuffle(0, Range(n)), k)
  }

  lemma {:induction false} FlattenSplit(s: seq<nat>, k: nat, i: nat)
    requires k > 0 && i <= k
    ensures Cut(|s|, k, i) <= |s| && Flatten(ArraySplit(s, k)[..i]) == s[..Cut(|s|, k, i)]
  {
    CutEnd(|s|, k);
    CutGrows(|s|, k, i, k);
    if i == 0 {
      assert s[..Cut(|s|, k, 0)] == [];
    } else {
      FlattenSplit(s, k, i - 1);
      CutStep(|s|, k, i - 1);
      assert ArraySplit(s, k)[..i][..i - 1] == ArraySplit(s, k)[..i - 1];
    }
  }

  /** The parts hold every index below n exactly once: one after the other they are
      the shuffled indices, and of k parts the first n % k hold one more than the
      others. */
  lemma IidPartitionsTile(n: nat, k: nat, rng: Rng)
    requires k > 0
    ensures var parts := IidPartitions(n, k, rng);
            && Flatten(parts) == rng.Shuffle(0, Range(n))
            && multiset(Flatten(parts)) == multiset(Range(n))
            && (forall i :: 0 <= i < k ==> |parts[i]| == n / k + if i < n % k then 1 else 0)
            && forall i, j :: 0 <= i < k && 0 <= j < k ==> |parts[i]| <= |parts[j]| + 1
  {
    var s := rng.Shuffle(0, Range(n));
    assert |s| == n by { assert |multiset(s)| == |multiset(Range(n))|; }
    SplitIsWhole(s, k);
    SplitSizes(s, k);
  }

  lemma SplitIsWhole(s: seq<nat>, k: nat)
    requires k > 0
    ensures Flatten(ArraySplit(s, k)) == s
  {
    FlattenSplit(s, k, k);
    CutEnd(|s|, k);
    assert ArraySplit(s, k)[..k] == ArraySplit(s, k) && s[..|s|] == s;
  }

  lemma PartSize(s: seq<nat>, k: nat, i: nat)
    requires k > 0 && i < k
    ensures |ArraySplit(s, k)[i]| == Cut(|s|, k, i + 1) - Cut(|s|, k, i)
  {
    CutEnd(|s|, k);
    CutStep(|s|, k, i);
    CutGrows(|s|, k, i + 1, k);
  }

  lemma SplitSizes(s: seq<nat>, k: nat)
    requires k > 0
    ensures forall i :: 0 <= i < k ==> |ArraySplit(s, k)[i]| == |s| / k + if i < |s| % k then 1 else 0
  {
    forall i | 0 <= i < k ensures |ArraySplit(s, k)[i]| == |s| / k + if i < |s| % k then 1 else 0 {
      PartSize(s, k, i);
      CutStep(|s|, k, i);
    }
  }

  // ----- Dirichlet -----

  function InsertUnique(s: seq<int>, x: int): seq<int> {
    if s == [] then [x]
    else if x < s[0] then [x] + s
    else if x == s[0] then s
    else [s[0]] + InsertUnique(s[1..], x)
  }

  lemma {:induction false} InsertUniqueIs(s: seq<int>, x: int)
    ensures forall y :: y in InsertUnique(s, x) <==> y in s || y == x
    ensures Increasing(s) ==> Increasing(InsertUnique(s, x))
  {
    if s != [] && x > s[0] {
      var rest := InsertUnique(s[1..], x);
      InsertUniqueIs(s[1..], x);
      assert s == [s[0]] + s[1..];
      if Increasing(s) {
        forall k | 0 <= k < |rest| ensures s[0] < rest[k] { assert rest[k] in rest; }
      }
    }
  }

  /** numpy.unique. */
  function Unique(labels: seq<int>): (r: seq<int>)
    ensures forall y :: y in r <==> y in labels
    ensures Increasing(r)
  {
    if labels == [] then [] else
      assert labels == labels[..|labels| - 1] + [labels[|labels| - 1]];
      InsertUniqueIs(Unique(labels[..|labels| - 1]), labels[|labels| - 1]);
      InsertUnique(Unique(labels[..|labels| - 1]), labels[|labels| - 1])
  }

  function HasLabel(labels: seq<int>, classes: seq<int>): nat -> bool {
    (i: nat) => i < |labels| && labels[i] in classes
  }

  /** numpy.flatnonzero(labels == label). */
  function ClassIndices(labels: seq<int>, name: int): seq<nat> {
    Filter(Range(|labels|), HasLabel(labels, [name]))
  }

  /** One class is dealt out: client i receives the next counts[i] indices. */
  function DealClass(buckets: seq<seq<nat>>, indices: seq<nat>, counts: seq<nat>, n: nat): (r: seq<seq<nat>>)
    requires n <= |counts| == |buckets| && Total(counts[..n]) <= |indices|
    ensures |r| == |buckets|
    ensures forall j :: n <= j < |buckets| ==> r[j] == buckets[j]
  {
    if n == 0 then buckets else
      TotalStep(counts, n - 1);
      var before := DealClass(buckets, indices, counts, n - 1);
      before[n - 1 := before[n - 1] + indices[Total(counts[..n - 1])..Total(counts[..n])]]
  }

  lemma TotalStep(counts: seq<nat>, n: nat)
    requires n < |counts|
    ensures Total(counts[..n + 1]) == Total(counts[..n]) + counts[n]
  {
    assert counts[..n + 1][..n] == counts[..n];
  }

  lemma TotalAll(counts: seq<nat>)
    ensures Total(counts[..|counts|]) == Total(counts)
  {
    assert counts[..|counts|] == counts;
  }

  /** The order and the counts that the generator gives the c-th class. */
  function ClassOrder(labels: seq<int>, classes: seq<int>, c: nat, rng: Rng): seq<nat>
    requires c < |classes|
  {
    rng.Shuffle(2 * c, ClassIndices(labels, classes[c]))
  }

  function ClassCounts(labels: seq<int>, classes: seq<int>, c: nat, k: nat, rng: Rng): seq<nat>
    requires c < |classes| && k > 0
  {
    rng.Multinomial(2 * c + 1, |ClassIndices(labels, classes[c])|, k)
  }

  lemma ClassCountsFit(labels: seq<int>, classes: seq<int>, c: nat, k: nat, rng: Rng)
    requires c < |classes| && k > 0
    ensures var counts := ClassCounts(labels, classes, c, k, rng);
            |counts| == k && Total(counts) == |ClassOrder(labels, classes, c, rng)|
  {
    var indices := ClassIndices(labels, classes[c]);
    assert |multiset(rng.Shuffle(2 * c, indices))| == |multiset(indices)|;
  }

  function NoBuckets(k: nat): (r: seq<seq<nat>>)
    ensures |r| == k
  {
    seq(k, i => [])
  }

  /** The buckets after the first n classes. */
  function DealClasses(labels: seq<int>, n: nat, k: nat, rng: Rng): (r: seq<seq<nat>>)
    requires n <= |Unique(labels)| && k > 0
    ensures |r| == k
  {
    if n == 0 then NoBuckets(k) else
      var classes := Unique(labels);
      ClassCountsFit(labels, classes, n - 1, k, rng);
      TotalAll(ClassCounts(labels, classes, n - 1, k, rng));
      DealClass(DealClasses(labels, n - 1, k, rng), ClassOrder(labels, classes, n - 1, rng),
                ClassCounts(labels, classes, n - 1, k, rng), k)
  }

  /** The first largest bucket. */
  function Largest(buckets: seq<seq<nat>>): (d: nat)
    requires buckets != []
    ensures d < |buckets|
    ensures forall i :: 0 <= i < |buckets| ==> |buckets[i]| <= |buckets[d]|
    ensures forall i :: 0 <= i < d ==> |buckets[i]| < |buckets[d]|
  {
    if |buckets| == 1 then 0 else
      var d := Largest(buckets[..|buckets| - 1]);
      assert buckets[..|buckets| - 1][d] == buckets[d];
      assert forall i :: 0 <= i < |buckets| - 1 ==> buckets[..|buckets| - 1][i] == buckets[i];
      if |buckets[|buckets| - 1]| > |buckets[d]| then |buckets| - 1 else d
  }

  /** The empty buckets, in order. */
  function EmptyOnes(buckets: seq<seq<nat>>): (r: seq<nat>)
    ensures forall j :: 0 <= j < |r| ==> r[j] < |buckets| && buckets[r[j]] == []
    ensures forall i: nat :: i < |buckets| && buckets[i] == [] ==> i in r
    ensures Distinct(r)
  {
    if buckets == [] then [] else
      var before, last := EmptyOnes(buckets[..|buckets| - 1]), |buckets| - 1;
      assert forall i :: 0 <= i < last ==> buckets[..last][i] == buckets[i];
      if buckets[last] == [] then before + [last] else before
  }

  /** buckets[target].append(buckets[donor].pop(position)). */
  function Move(buckets: seq<seq<nat>>, donor: nat, target: nat, position: nat): (r: seq<seq<nat>>)
    requires donor < |buckets| && target < |buckets| && position < |buckets[donor]|
    ensures |r| == |buckets|
  {
    var popped := buckets[donor := Without(buckets[donor], position)];
    popped[target := popped[target] + [buckets[donor][position]]]
  }

  /** The repair loop over the buckets found empty; call numbers the draws. */
  function Repair(buckets: seq<seq<nat>>, empties: seq<nat>, rng: Rng, call: nat): (r: seq<seq<nat>>)
    requires forall j :: 0 <= j < |empties| ==> empties[j] < |buckets|
    ensures |r| == |buckets|
    decreases |empties|
  {
    if empties == [] then buckets else
      assert empties[0] < |buckets|;
      var donor := Largest(buckets);
      if |buckets[donor]| <= 1 then buckets else
        Repair(Move(buckets, donor, empties[0], rng.Below(call, |buckets[donor]|)), empties[1..], rng, call + 1)
  }

  function ShuffleEach(buckets: seq<seq<nat>>, rng: Rng, call: nat): (r: seq<seq<nat>>)
    ensures |r| == |buckets|
  {
    seq(|buckets|, i requires 0 <= i < |buckets| => rng.Shuffle(call + i, buckets[i]))
  }

  /** The buckets once every class is dealt and, if there are enough samples,
      the empty ones are repaired. */
  function Repaired(labels: seq<int>, k: nat, rng: Rng): (r: seq<seq<nat>>)
    requires k > 0
    ensures |r| == k
  {
    var dealt := DealClasses(labels, |Unique(labels)|, k, rng);
    if |labels| >= k then Repair(dealt, EmptyOnes(dealt), rng, 2 * |Unique(labels)|) else dealt
  }

  /** What _dirichlet_partitions computes; it ends by shuffling every bucket. */
  function DirichletPartitions(labels: seq<int>, k: nat, rng: Rng): (parts: seq<seq<nat>>)
    requires k > 0
    ensures |parts| == k
  {
    ShuffleEach(Repaired(labels, k, rng), rng, 2 * |Unique(labels)| + k)
  }

  /** _dirichlet_partitions, with its lists reassigned in place. */
  method ComputeDirichletPartitions(labels: seq<int>, k: nat, rng: Rng) returns (parts: seq<seq<nat>>)
    requires k > 0
    ensures parts == DirichletPartitions(labels, k, rng)
  {
    hide Unique, DealClasses, Repair, EmptyOnes, ShuffleEach;
    var classes := Unique(labels);
    var buckets := DealAll(labels, classes, k, rng);
    if |labels| >= k {
      buckets := RepairEmpty(buckets, rng, 2 * |classes|);
    }
    parts := ShuffleBuckets(buckets, rng, 2 * |classes| + k);
  }

  /** The loop over the classes. */
  method DealAll(labels: seq<int>, classes: seq<int>, k: nat, rng: Rng) returns (buckets: seq<seq<nat>>)
    requires classes == Unique(labels) && k > 0
    ensures buckets == DealClasses(labels, |classes|, k, rng)
  {
    hide DealClass, ClassOrder, ClassCounts, Unique;
    buckets := NoBuckets(k);
    for c := 0 to |classes|
      invariant buckets == DealClasses(labels, c, k, rng)
    {
      ClassCountsFit(labels, classes, c, k, rng);
      var classIndices, counts := ClassOrder(labels, classes, c, rng), ClassCounts(labels, classes, c, k, rng);
      TotalAll(counts);
      buckets := DealOne(buckets, classIndices, counts);
    }
  }

  /** The inner loop: cursor walks over the indices of one class. */
  method DealOne(before: seq<seq<nat>>, classIndices: seq<nat>, counts: seq<nat>) returns (buckets: seq<seq<nat>>)
    requires |counts| == |before| && Total(counts[..|counts|]) == |classIndices|
    ensures buckets == DealClass(before, classIndices, counts, |counts|)
  {
    buckets := before;
    var cursor := 0;
    for i := 0 to |counts|
      invariant cursor == Total(counts[..i]) <= |classIndices|
      invariant buckets == DealClass(before, classIndices, counts, i)
    {
      TotalStep(counts, i);
      TotalMonotone(counts, i + 1);
      if counts[i] != 0 {
        buckets := buckets[i := buckets[i] + classIndices[cursor..cursor + counts[i]]];
      } else {
        assert buckets[i] + classIndices[cursor..cursor + counts[i]] == buckets[i];
      }
      cursor := cursor + counts[i];
    }
  }

  lemma {:induction false} TotalMonotone(counts: seq<nat>, n: nat)
    requires n <= |counts|
    ensures Total(counts[..n]) <= Total(counts[..|counts|])
    decreases |counts| - n
  {
    if n < |counts| {
      TotalStep(counts, n);
      TotalMonotone(counts, n + 1);
    }
  }

  /** The repair loop over the buckets found empty before it. */
  method RepairEmpty(before: seq<seq<nat>>, rng: Rng, call: nat) returns (buckets: seq<seq<nat>>)
    ensures buckets == Repair(before, EmptyOnes(before), rng, call)
  {
    hide Repair, Largest, Move;
    buckets := before;
    var empties := EmptyOnes(buckets);
    assert empties[0..] == empties;
    for n := 0 to |empties|
      invariant |buckets| == |before|
      invariant Repair(buckets, empties[n..], rng, call + n) == Repair(before, empties, rng, call)
    {
      RepairStep(buckets, empties, n, rng, call + n);
      var donor := Largest(buckets);
      if |buckets[donor]| <= 1 { return; }
      buckets := Move(buckets, donor, empties[n], rng.Below(call + n, |buckets[donor]|));
    }
    RepairNone(buckets, empties[|empties|..], rng, call + |empties|);
  }

  lemma RepairNone(buckets: seq<seq<nat>>, empties: seq<nat>, rng: Rng, call: nat)
    requires empties == []
    ensures Repair(buckets, empties, rng, call) == buckets
  {
  }

  lemma RepairStep(buckets: seq<seq<nat>>, empties: seq<nat>, n: nat, rng: Rng, call: nat)
    requires n < |empties| && forall j :: 0 <= j < |empties| ==> empties[j] < |buckets|
    ensures buckets != []
    ensures var donor := Largest(buckets);
            Repair(buckets, empties[n..], rng, call) ==
            if |buckets[donor]| <= 1 then buckets
            else Repair(Move(buckets, donor, empties[n], rng.Below(call, |buckets[donor]|)), empties[n + 1..], rng, call + 1)
  {
    assert empties[n] < |buckets|;
    assert empties[n..][1..] == empties[n + 1..];
  }

  method ShuffleBuckets(buckets: seq<seq<nat>>, rng: Rng, call: nat) returns (parts: seq<seq<nat>>)
    ensures parts == ShuffleEach(buckets, rng, call)
  {
    parts := [];
    for i := 0 to |buckets|
      invariant parts == ShuffleEach(buckets, rng, call)[..i]
    {
      parts := parts + [rng.Shuffle(call + i, buckets[i])];
    }
  }
}
