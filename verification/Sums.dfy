/** Sums of reals over lists. */
module Sums {
  import opened Seqs

  /** The sum of f over s. */
  function SumBy<T>(s: seq<T>, f: T -> real): real {
    if s == [] then 0.0 else SumBy(s[..|s| - 1], f) + f(s[|s| - 1])
  }

  lemma {:induction false} SumByAppend<T>(a: seq<T>, b: seq<T>, f: T -> real)
    ensures SumBy(a + b, f) == SumBy(a, f) + SumBy(b, f)
  {
    if b == [] {
      assert a + b == a;
    } else {
      SumByAppend(a, b[..|b| - 1], f);
      assert (a + b)[..|a + b| - 1] == a + b[..|b| - 1];
    }
  }

  lemma {:induction false} SumByWithout<T>(s: seq<T>, k: nat, f: T -> real)
    requires k < |s|
    ensures SumBy(s, f) == SumBy(Without(s, k), f) + f(s[k])
  {
    assert s == s[..k] + ([s[k]] + s[k + 1..]);
    SumByAppend(s[..k], [s[k]] + s[k + 1..], f);
    SumByAppend([s[k]], s[k + 1..], f);
    SumByAppend(s[..k], s[k + 1..], f);
    assert SumBy([s[k]], f) == f(s[k]) by { assert [s[k]][..0] == []; }
  }

  /** A sum does not depend on the order of its terms. */
  lemma {:induction false} SumByPermuted<T>(a: seq<T>, b: seq<T>, f: T -> real)
    requires multiset(a) == multiset(b)
    ensures SumBy(a, f) == SumBy(b, f)
    decreases |a|
  {
    if a == [] {
      assert |multiset(b)| == 0;
    } else {
      var x := a[|a| - 1];
      assert x in multiset(b);
      var k :| 0 <= k < |b| && b[k] == x;
      assert a == a[..|a| - 1] + [x];
      assert multiset(a[..|a| - 1]) + multiset{x} == multiset(b);
      assert multiset(a[..|a| - 1]) == multiset(b) - multiset{x} == multiset(Without(b, k));
      SumByPermuted(a[..|a| - 1], Without(b, k), f);
      SumByWithout(b, k, f);
    }
  }

  lemma {:induction false} SumByConstant<T>(s: seq<T>, f: T -> real, c: real)
    requires forall x :: x in s ==> f(x) == c
    ensures SumBy(s, f) == |s| as real * c
  {
    if s != [] { SumByConstant(s[..|s| - 1], f, c); }
  }
}

/** Sums over the classes of a labelling. */
module ClassSums {
  import opened Seqs
  import opened Sums

  function InClass<X, K(==)>(g: X -> K, k: K): X -> bool {
    (x: X) => g(x) == k
  }

  /** The sum of f over the elements of one class. */
  function ClassSum<X, K(==)>(s: seq<X>, f: X -> real, g: X -> K, k: K): real {
    SumBy(Filter(s, InClass(g, k)), f)
  }

  /** The sum over the classes ks of the sums over each class. */
  function SumOverClasses<X, K(==)>(s: seq<X>, f: X -> real, g: X -> K, ks: seq<K>): real {
    if ks == [] then 0.0
    else SumOverClasses(s, f, g, ks[..|ks| - 1]) + ClassSum(s, f, g, ks[|ks| - 1])
  }

  lemma {:induction false} NoElements<X, K>(f: X -> real, g: X -> K, ks: seq<K>)
    ensures SumOverClasses([], f, g, ks) == 0.0
  {
    if ks != [] { NoElements(f, g, ks[..|ks| - 1]); }
  }

  /** One more element adds its value to its own class only. */
  lemma {:induction false} OneMore<X, K>(s: seq<X>, x: X, f: X -> real, g: X -> K, ks: seq<K>)
    requires Distinct(ks)
    ensures SumOverClasses(s + [x], f, g, ks) == SumOverClasses(s, f, g, ks) + if g(x) in ks then f(x) else 0.0
  {
    if ks != [] {
      var before, last := ks[..|ks| - 1], ks[|ks| - 1];
      OneMore(s, x, f, g, before);
      FilterLast(s, x, InClass(g, last));
      if g(x) == last {
        SumByAppend(Filter(s, InClass(g, last)), [x], f);
        assert [x][..0] == [];
        assert last !in before;
      }
      assert ks == before + [last];
    }
  }

  /** A sum is the sum over its classes of the sums over each class. */
  lemma {:induction false} SumByClasses<X, K>(s: seq<X>, f: X -> real, g: X -> K, ks: seq<K>)
    requires Distinct(ks) && forall x :: x in s ==> g(x) in ks
    ensures SumBy(s, f) == SumOverClasses(s, f, g, ks)
  {
    hide SumOverClasses, Distinct;
    if s == [] {
      NoElements(f, g, ks);
    } else {
      var before, x := s[..|s| - 1], s[|s| - 1];
      SumByClasses(before, f, g, ks);
      OneMore(before, x, f, g, ks);
      assert s == before + [x];
    }
  }

  /** The elements of s, each once, in order of first appearance. */
  function Dedupe<K(==)>(s: seq<K>): (r: seq<K>)
    ensures Distinct(r)
    ensures forall k :: 0 <= k < |r| ==> r[k] in s
    ensures forall k :: 0 <= k < |s| ==> s[k] in r
    ensures |r| == 0 <==> |s| == 0
  {
    if s == [] then [] else
      var before := Dedupe(s[..|s| - 1]);
      assert forall k :: 0 <= k < |before| ==> before[k] in s[..|s| - 1];
      assert forall k :: 0 <= k < |s| - 1 ==> s[k] == s[..|s| - 1][k] && s[k] in before;
      if s[|s| - 1] in before then before else before + [s[|s| - 1]]
  }
}
