/** Whole-number division, in the few steps that proofs about it need. */
module Division {

  lemma Multiplied(x: nat, y: nat, k: nat)
    requires x <= y
    ensures x * k <= y * k
  {
    assert y * k == x * k + (y - x) * k;
  }

  lemma QuotientIs(x: nat, n: nat, q: nat, rest: nat)
    requires n > 0 && x == q * n + rest && rest < n
    ensures x / n == q && x % n == rest
  {
    assert (x / n) * n + x % n == x;
    var p := x / n;
    assert p < q ==> (p + 1) * n <= q * n;
    assert p > q ==> (q + 1) * n <= p * n;
  }
}
