/** The integer strata of the sampled builder
    (build_packet_cross_vantage_atomic_sampled.py, stratified_positions): stratum
    i of cap over n units runs from i*n/cap up to, not including, (i+1)*n/cap. */
module Strata {
  import opened Division

  /** The first position of stratum i. */
  function Low(n: nat, cap: nat, i: nat): nat
    requires cap > 0
  {
    i * n / cap
  }

  predicate InStratum(n: nat, cap: nat, i: nat, p: int)
    requires cap > 0
  {
    Low(n, cap, i) <= p < Low(n, cap, i + 1)
  }

  /** The strata are not empty and end at n. */
  lemma StrataTile(n: nat, cap: nat, i: nat)
    requires 0 < cap <= n && i < cap
    ensures Low(n, cap, 0) == 0 && Low(n, cap, cap) == n
    ensures Low(n, cap, i) < Low(n, cap, i + 1) <= n
  {
    assert (i + 1) * n == i * n + n;
    QuotientMonotone(i * n + cap, (i + 1) * n, cap);
    QuotientOneMore(i * n, cap);
    QuotientMonotone((i + 1) * n, cap * n, cap) by { assert (i + 1) * n <= cap * n; }
    QuotientIs(cap * n, cap, n, 0);
  }

  lemma QuotientOneMore(x: nat, cap: nat)
    requires cap > 0
    ensures (x + cap) / cap == x / cap + 1
  {
    var q := x / cap;
    assert x == q * cap + x % cap;
    assert (q + 1) * cap == q * cap + cap;
    QuotientIs(x + cap, cap, q + 1, x % cap);
  }

  lemma QuotientMonotone(x: nat, y: nat, cap: nat)
    requires cap > 0 && x <= y
    ensures x / cap <= y / cap
  {
    var p, q := x / cap, y / cap;
    assert x == p * cap + x % cap && y == q * cap + y % cap;
    assert q + 1 <= p ==> (q + 1) * cap <= p * cap;
    assert (q + 1) * cap == q * cap + cap;
  }

  lemma LowIs(n: nat, cap: nat, i: nat)
    requires cap > 0
    ensures Low(n, cap, i) == i * n / cap && Low(n, cap, i + 1) == (i + 1) * n / cap
  {
  }

  lemma {:induction false} LowOrdered(n: nat, cap: nat, i: nat, j: nat)
    requires 0 < cap <= n && i <= j <= cap
    ensures Low(n, cap, i) <= Low(n, cap, j)
    decreases j
  {
    hide Low;
    if i < j {
      LowOrdered(n, cap, i, j - 1);
      StrataTile(n, cap, j - 1);
    }
  }

  lemma StrataOrdered(n: nat, cap: nat, i: nat, j: nat, p: nat, q: nat)
    requires i < j < cap <= n && InStratum(n, cap, i, p) && InStratum(n, cap, j, q)
    ensures p < q
  {
    LowOrdered(n, cap, i + 1, j);
  }

  /** Every unit lies in exactly one stratum. */
  lemma {:induction false} StratumOf(n: nat, cap: nat, m: nat, p: nat) returns (i: nat)
    requires 0 < cap <= n && m <= cap && p < Low(n, cap, m)
    ensures i < m && InStratum(n, cap, i, p)
    ensures forall j :: 0 <= j < cap ==> (InStratum(n, cap, j, p) <==> j == i)
    decreases m
  {
    hide Low;
    StrataTile(n, cap, 0);
    if Low(n, cap, m - 1) <= p { i := m - 1; } else { i := StratumOf(n, cap, m - 1, p); }
    forall j | 0 <= j < cap && j != i ensures !InStratum(n, cap, j, p) {
      if j < i { LowOrdered(n, cap, j + 1, i); } else { LowOrdered(n, cap, i + 1, j); }
    }
  }

  /** Position p lies in stratum i exactly when i*n < (p + 1)*cap <= (i + 1)*n. */
  lemma StratumExactly(n: nat, cap: nat, i: nat, p: nat)
    requires cap > 0
    ensures InStratum(n, cap, i, p) <==> i * n < (p + 1) * cap <= (i + 1) * n
  {
    FloorAtMost(i * n, cap, p);
    FloorAtMost((i + 1) * n, cap, p);
  }

  lemma FloorAtMost(x: nat, cap: nat, p: nat)
    requires cap > 0
    ensures x / cap <= p <==> x < (p + 1) * cap
  {
    var q := x / cap;
    assert x == q * cap + x % cap;
    if q <= p { Multiplied(q + 1, p + 1, cap); } else { Multiplied(p + 1, q, cap); }
  }
}
