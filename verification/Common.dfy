/** Values shared by every module: a result type for the program's exceptions,
    and the few facts about sequences and sums that several proofs use. */
module Results {

  /** A computed value, or the exception the program raises instead. */
  datatype Result<+T, +E> = Ok(value: T) | Err(error: E)

  datatype Option<+T> = None | Some(value: T)
}

module Seqs {

  function Range(n: nat): (r: seq<nat>)
    ensures |r| == n && forall i :: 0 <= i < n ==> r[i] == i
  {
    seq(n, i => i)
  }

  /** The elements of s that satisfy keep, in order. */
  function Filter<T>(s: seq<T>, keep: T -> bool): seq<T> {
    if s == [] then [] else
    var rest := Filter(s[..|s| - 1], keep);
    if keep(s[|s| - 1]) then rest + [s[|s| - 1]] else rest
  }

  lemma {:induction false} FilterAppend<T>(a: seq<T>, b: seq<T>, keep: T -> bool)
    ensures Filter(a + b, keep) == Filter(a, keep) + Filter(b, keep)
  {
    hide Filter;
    if b == [] {
      assert a + b == a;
      FilterNothing(b, keep);
    } else {
      var before, x := b[..|b| - 1], b[|b| - 1];
      FilterAppend(a, before, keep);
      FilterLast(a + before, x, keep);
      FilterLast(before, x, keep);
      assert b == before + [x];
      assert a + b == (a + before) + [x];
      assert Filter(a, keep) + (Filter(before, keep) + [x]) == (Filter(a, keep) + Filter(before, keep)) + [x];
    }
  }

  lemma FilterLast<T>(s: seq<T>, x: T, keep: T -> bool)
    ensures Filter(s + [x], keep) == if keep(x) then Filter(s, keep) + [x] else Filter(s, keep)
  {
    assert (s + [x])[..|s + [x]| - 1] == s;
  }

  lemma {:induction false} FilterMember<T>(s: seq<T>, keep: T -> bool, x: T)
    ensures x in Filter(s, keep) <==> x in s && keep(x)
  {
    if s != [] {
      FilterMember(s[..|s| - 1], keep, x);
      assert s == s[..|s| - 1] + [s[|s| - 1]];
    }
  }

  lemma {:induction false} FilterNothing<T>(s: seq<T>, keep: T -> bool)
    requires forall x :: x in s ==> !keep(x)
    ensures Filter(s, keep) == []
  {
    if s != [] { FilterNothing(s[..|s| - 1], keep); }
  }

  lemma {:induction false} FilterEverything<T>(s: seq<T>, keep: T -> bool)
    requires forall x :: x in s ==> keep(x)
    ensures Filter(s, keep) == s
  {
    if s != [] { FilterEverything(s[..|s| - 1], keep); }
  }

  /** Selecting twice is selecting once when the second test is the narrower. */
  lemma {:induction false} FilterTwice<T>(s: seq<T>, wide: T -> bool, narrow: T -> bool)
    requires forall x :: x in s && narrow(x) ==> wide(x)
    ensures Filter(Filter(s, wide), narrow) == Filter(s, narrow)
  {
    if s != [] {
      var before, x := s[..|s| - 1], s[|s| - 1];
      FilterTwice(before, wide, narrow);
      FilterLast(Filter(before, wide), x, narrow);
    }
  }

  predicate Increasing(s: seq<int>) {
    forall i, j :: 0 <= i < j < |s| ==> s[i] < s[j]
  }

  predicate Distinct<T(==)>(s: seq<T>) {
    forall i, j :: 0 <= i < j < |s| ==> s[i] != s[j]
  }

  function Elements<T(==)>(s: seq<T>): set<T> {
    set x | x in s
  }

  /** A list without repetition has as many entries as elements. */
  lemma {:induction false} DistinctSize<T>(s: seq<T>)
    requires Distinct(s)
    ensures |Elements(s)| == |s|
  {
    if s == [] {
      assert Elements(s) == {};
    } else {
      var before, x := s[..|s| - 1], s[|s| - 1];
      DistinctSize(before);
      assert s == before + [x];
      assert x !in before;
      assert Elements(s) == Elements(before) + {x};
    }
  }

  /** s without the element at k. */
  function Without<T>(s: seq<T>, k: nat): (r: seq<T>)
    requires k < |s|
    ensures multiset(r) + multiset{s[k]} == multiset(s)
  {
    assert s == s[..k] + [s[k]] + s[k + 1..];
    s[..k] + s[k + 1..]
  }

  lemma DistinctMultiplicity<T>(s: seq<T>)
    requires Distinct(s)
    ensures forall x :: x in s ==> multiset(s)[x] == 1
  {
    forall x | x in s ensures multiset(s)[x] == 1 {
      var k :| 0 <= k < |s| && s[k] == x;
      assert s == s[..k] + [s[k]] + s[k + 1..];
      assert x !in s[..k] && x !in s[k + 1..];
      assert multiset(s) == multiset(s[..k]) + multiset([s[k]]) + multiset(s[k + 1..]);
    }
  }

  lemma MultiplicityDistinct<T>(s: seq<T>)
    requires forall x :: multiset(s)[x] <= 1
    ensures Distinct(s)
  {
    forall i, j | 0 <= i < j < |s| ensures s[i] != s[j] {
      assert s == s[..j] + [s[j]] + s[j + 1..];
      assert multiset(s) == multiset(s[..j]) + multiset([s[j]]) + multiset(s[j + 1..]);
      assert s[..j][i] == s[i];
      assert multiset(s[..j])[s[i]] >= 1;
      assert s[i] == s[j] ==> multiset(s)[s[i]] >= 2;
    }
  }

  // ----- places -----

  /** The selected elements stand at exactly the places that satisfy keep, in
      order. */
  lemma {:induction false} FilterPlaces<T>(s: seq<T>, keep: T -> bool) returns (at: seq<nat>)
    ensures |at| == |Filter(s, keep)| && Increasing(at)
    ensures forall i :: 0 <= i < |at| ==> at[i] < |s| && s[at[i]] == Filter(s, keep)[i]
    ensures forall k: nat :: k in at <==> k < |s| && keep(s[k])
  {
    hide Filter;
    at := [];
    if s == [] {
      FilterNothing(s, keep);
    } else {
      var last, before := |s| - 1, s[..|s| - 1];
      at := FilterPlaces(before, keep);
      assert s == before + [s[last]];
      FilterLast(before, s[last], keep);
      if keep(s[last]) { at := OnePlaceMore(at, last); }
    }
  }

  lemma OnePlaceMore(before: seq<nat>, last: nat) returns (at: seq<nat>)
    requires Increasing(before) && forall k: nat :: k in before ==> k < last
    ensures at == before + [last] && Increasing(at)
    ensures forall k: nat :: k in at <==> k in before || k == last
  {
    at := before + [last];
    forall i | 0 <= i < |before| ensures before[i] < last { assert before[i] in before; }
  }

  /** A permutation takes each of its elements from a place of its own. */
  lemma {:induction false} PermutationPlaces<T>(s: seq<T>, t: seq<T>) returns (at: seq<nat>)
    requires multiset(s) == multiset(t)
    ensures |at| == |s| == |t| && Distinct(at)
    ensures forall i :: 0 <= i < |at| ==> at[i] < |t| && t[at[i]] == s[i]
    decreases |s|
  {
    assert |multiset(s)| == |s| && |multiset(t)| == |t|;
    at := [];
    if s != [] {
      var before, x := s[..|s| - 1], s[|s| - 1];
      assert s == before + [x];
      var k := PlaceOf(x, t, s);
      OneLess(before, x, t, k);
      var rest := PermutationPlaces(before, Without(t, k));
      at := PlacesPast(rest, k, t);
      at := at + [k];
    }
  }

  lemma PlaceOf<T>(x: T, t: seq<T>, s: seq<T>) returns (k: nat)
    requires x in s && multiset(s) == multiset(t)
    ensures k < |t| && t[k] == x
  {
    assert x in multiset(t);
    k :| k < |t| && t[k] == x;
  }

  lemma OneLess<T>(before: seq<T>, x: T, t: seq<T>, k: nat)
    requires k < |t| && t[k] == x && multiset(before + [x]) == multiset(t)
    ensures multiset(before) == multiset(Without(t, k))
  {
    assert multiset(before) == multiset(t) - multiset{x};
  }

  /** Places in t without its element at k, as places in t. */
  lemma PlacesPast<T>(rest: seq<nat>, k: nat, t: seq<T>) returns (at: seq<nat>)
    requires k < |t| && Distinct(rest) && forall i :: 0 <= i < |rest| ==> rest[i] < |t| - 1
    ensures |at| == |rest| && Distinct(at + [k])
    ensures forall i :: 0 <= i < |rest| ==> at[i] < |t| && |Without(t, k)| == |t| - 1 && t[at[i]] == Without(t, k)[rest[i]]
  {
    at := seq(|rest|, i requires 0 <= i < |rest| => if rest[i] < k then rest[i] else rest[i] + 1);
  }

  /** As many different places as there are leave none out. */
  lemma AllPlaces(at: seq<nat>, n: nat)
    requires Distinct(at) && |at| == n && forall i :: 0 <= i < n ==> at[i] < n
    ensures forall k: nat :: k in at <==> k < n
  {
    DistinctSize(at);
    DistinctSize(Range(n));
    assert Elements(at) <= Elements(Range(n)) by {
      forall x | x in at ensures x in Range(n) { assert Range(n)[x] == x; }
    }
    assert |Elements(Range(n)) - Elements(at)| == 0;
    forall k: nat | k < n ensures k in at { assert Range(n)[k] == k && k in Elements(Range(n)); }
  }
}
