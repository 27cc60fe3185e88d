/** Dealing the experiments of every class over the folds in turn: one loop in
    generate_oof_fingerprinting_results.py (experiment_stratified_splits) and the
    same in train_packet_cross_vantage.py (make_test_folds). */
module Dealing {
  import opened Division
  import opened Results
  import opened Seqs
  import opened Randomness

  /** The experiments of class c in the order they are dealt. */
  function Order(classes: seq<seq<nat>>, rng: Rng, c: nat): (order: seq<nat>)
    requires c < |classes|
    ensures multiset(order) == multiset(classes[c]) && |order| == |classes[c]|
  {
    rng.Shuffle(2 * c, classes[c])
  }

  /** The fold that gets the first experiment of class c. */
  function Start(rng: Rng, c: nat, n: nat): (start: nat)
    requires n > 0
    ensures start < n
  {
    rng.Below(2 * c + 1, n)
  }

  /** What fold k gets when order is dealt in turn, from fold start on. */
  function Share(order: seq<nat>, start: nat, n: nat, k: nat): set<nat>
    requires n > 0
  {
    set i: nat | i < |order| && (start + i) % n == k :: order[i]
  }

  /** What fold k gets from all classes. */
  function TestFold(classes: seq<seq<nat>>, rng: Rng, n: nat, k: nat): set<nat>
    requires n > 0
  {
    DealtBy(classes, |classes|, rng, n, k)
  }

  /** What fold k gets from the first c classes. */
  function DealtBy(classes: seq<seq<nat>>, c: nat, rng: Rng, n: nat, k: nat): set<nat>
    requires n > 0 && c <= |classes|
  {
    if c == 0 then {} else DealtBy(classes, c - 1, rng, n, k) + Share(Order(classes, rng, c - 1), Start(rng, c - 1, n), n, k)
  }

  lemma ShareNext(order: seq<nat>, i: nat, start: nat, n: nat, k: nat)
    requires n > 0 && i < |order|
    ensures Share(order[..i + 1], start, n, k) ==
            Share(order[..i], start, n, k) + if (start + i) % n == k then {order[i]} else {}
  {
    var wide, narrow := order[..i + 1], order[..i];
    forall g
      ensures g in Share(wide, start, n, k) <==> g in Share(narrow, start, n, k) || ((start + i) % n == k && g == order[i])
    {
      if g in Share(wide, start, n, k) {
        var j: nat :| j < |wide| && (start + j) % n == k && wide[j] == g;
        assert j < i ==> narrow[j] == g;
      }
      if g in Share(narrow, start, n, k) {
        var j: nat :| j < |narrow| && (start + j) % n == k && narrow[j] == g;
        assert wide[j] == g;
      }
      if (start + i) % n == k && g == order[i] { assert wide[i] == g; }
    }
  }

  /** The exception of the random start. */
  datatype DealError = EmptyRange

  /** Deal every class in turn over n folds. With no fold there is no start to draw
      for the first class. */
  method MakeTestFolds(classes: seq<seq<nat>>, n: int, rng: Rng) returns (r: Result<seq<set<nat>>, DealError>)
    ensures r.Err? <==> classes != [] && n <= 0
    ensures r.Ok? ==> |r.value| == if n < 0 then 0 else n
    ensures r.Ok? ==> forall k: nat :: k < |r.value| ==> r.value[k] == TestFold(classes, rng, n, k)
  {
    hide Share;
    if n <= 0 { return if classes == [] then Ok([]) else Err(EmptyRange); }
    var folds: seq<set<nat>> := seq(n, k => {});
    for c := 0 to |classes|
      invariant |folds| == n
      invariant forall k: nat :: k < n ==> folds[k] == DealtBy(classes, c, rng, n, k)
    {
      var order := Order(classes, rng, c);
      var start := Start(rng, c, n);
      NothingDealt(order, start, n);
      for i := 0 to |order|
        invariant |folds| == n
        invariant forall k: nat :: k < n ==>
                    folds[k] == DealtBy(classes, c, rng, n, k) + Share(order[..i], start, n, k)
      {
        forall k: nat { ShareNext(order, i, start, n, k); }
        var to := (start + i) % n;
        folds := folds[to := folds[to] + {order[i]}];
      }
      assert order[..|order|] == order;
    }
    return Ok(folds);
  }

  lemma NothingDealt(order: seq<nat>, start: nat, n: nat)
    requires n > 0
    ensures forall k: nat :: Share(order[..0], start, n, k) == {}
  {
  }

  // ----- how many -----

  /** How far past start fold k is. */
  function Offset(start: nat, n: nat, k: nat): (d: nat)
    requires start < n && k < n
    ensures d < n
  {
    if start <= k then k - start else k + n - start
  }

  /** Position i falls to fold k just when i is Offset beyond a whole round. */
  lemma FallsTo(start: nat, i: nat, n: nat, k: nat)
    requires start < n && k < n
    ensures (start + i) % n == k <==> i % n == Offset(start, n, k)
  {
    var q, rest := i / n, i % n;
    assert i == q * n + rest;
    if start + rest < n {
      QuotientIs(start + i, n, q, start + rest);
    } else {
      assert (q + 1) * n == q * n + n;
      QuotientIs(start + i, n, q + 1, start + rest - n);
    }
  }

  /** How many of m positions are d beyond a whole round. */
  function Hits(m: nat, n: nat, d: nat): nat
    requires n > 0
  {
    if m == 0 then 0 else Hits(m - 1, n, d) + if (m - 1) % n == d then 1 else 0
  }

  /** An even part of m, one more for the first folds of the round. */
  function EvenPart(m: nat, n: nat, d: nat): nat
    requires n > 0
  {
    m / n + if m % n > d then 1 else 0
  }

  lemma {:induction false} HitsIs(m: nat, n: nat, d: nat)
    requires d < n
    ensures Hits(m, n, d) == EvenPart(m, n, d)
  {
    if m == 0 {
      QuotientIs(0, n, 0, 0);
    } else {
      HitsIs(m - 1, n, d);
      NextQuotient(m - 1, n);
    }
  }

  lemma NextQuotient(m: nat, n: nat)
    requires n > 0
    ensures m % n < n && (m + 1) / n == m / n + (if m % n == n - 1 then 1 else 0)
    ensures (m + 1) % n == if m % n == n - 1 then 0 else m % n + 1
  {
    var q, rest := m / n, m % n;
    assert m == q * n + rest;
    if rest + 1 < n {
      QuotientIs(m + 1, n, q, rest + 1);
    } else {
      assert (q + 1) * n == q * n + n;
      QuotientIs(m + 1, n, q + 1, 0);
    }
  }

  lemma {:induction false} ShareHits(order: seq<nat>, start: nat, n: nat, k: nat)
    requires Distinct(order) && start < n && k < n
    ensures |Share(order, start, n, k)| == Hits(|order|, n, Offset(start, n, k))
  {
    if order == [] {
      assert Share(order, start, n, k) == {};
    } else {
      var i := |order| - 1;
      ShareHits(order[..i], start, n, k);
      ShareNext(order, i, start, n, k);
      assert order[..i + 1] == order;
      FallsTo(start, i, n, k);
      assert order[i] !in Share(order[..i], start, n, k);
    }
  }

  /** Dealing m experiments over n folds gives each fold m/n of them, and one more
      to the first m%n folds of the round. */
  lemma ShareSize(order: seq<nat>, start: nat, n: nat, k: nat)
    requires Distinct(order) && start < n && k < n
    ensures |Share(order, start, n, k)| == EvenPart(|order|, n, Offset(start, n, k))
  {
    ShareHits(order, start, n, k);
    HitsIs(|order|, n, Offset(start, n, k));
  }

  // ----- in turn -----

  /** Experiment number i of class c is tested by fold (start + i) mod n, and a fold
      tests nothing else. */
  lemma {:induction false} DealtInTurn(classes: seq<seq<nat>>, m: nat, rng: Rng, n: nat, k: nat, x: nat)
    requires n > 0 && m <= |classes|
    ensures x in DealtBy(classes, m, rng, n, k) <==>
            exists c, i :: && 0 <= c < m && 0 <= i < |classes[c]| && Order(classes, rng, c)[i] == x
                           && (Start(rng, c, n) + i) % n == k
  {
    hide Order, Start;
    if m > 0 {
      DealtInTurn(classes, m - 1, rng, n, k, x);
      var order, start := Order(classes, rng, m - 1), Start(rng, m - 1, n);
      if x in Share(order, start, n, k) {
        var i: nat :| i < |order| && (start + i) % n == k && order[i] == x;
        assert Order(classes, rng, m - 1)[i] == x;
      }
    }
  }
}
