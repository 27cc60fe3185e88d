/** Rounding of reals to integers. */
module Rounding {

  /** Round to the nearest integer, halves to even. */
  function Rint(x: real): int {
    var below := x.Floor;
    var part := x - below as real;
    if part < 0.5 || (part == 0.5 && below % 2 == 0) then below else below + 1
  }

  /** n is an integer nearest to x, the even one of two. */
  predicate NearestEven(n: int, x: real) {
    -0.5 <= n as real - x <= 0.5 && (n as real - x == 0.5 || n as real - x == -0.5 ==> n % 2 == 0)
  }

  lemma RintExactly(x: real, n: int)
    ensures Rint(x) == n <==> NearestEven(n, x)
  {
    var below := x.Floor;
    assert below as real <= x < (below + 1) as real;
    if NearestEven(n, x) { assert below - 1 < n < below + 2; }
  }

  lemma FloorAbove(x: real, n: int)
    requires n as real <= x
    ensures n <= x.Floor
  {
    assert x < (x.Floor + 1) as real;
    assert (n as real) < (x.Floor + 1) as real;
  }

  lemma RintWithin(x: real, low: int, high: int)
    requires low as real <= x <= high as real
    ensures low <= Rint(x) <= high
  {
    FloorAbove(x, low);
    if x.Floor >= high { assert x == high as real; }
  }
}
