/** Stable sorting by an order on the elements. */
module Sorting {
  import opened Seqs

  ghost predicate IsOrder<T(!new)>(le: (T, T) -> bool) {
    && (forall x, y :: le(x, y) || le(y, x))
    && (forall x, y, z :: le(x, y) && le(y, z) ==> le(x, z))
  }

  ghost predicate Sorted<T>(s: seq<T>, le: (T, T) -> bool) {
    forall i, j :: 0 <= i < j < |s| ==> le(s[i], s[j])
  }

  /** Put x behind everything that may come before it. */
  function Insert<T>(s: seq<T>, x: T, le: (T, T) -> bool): seq<T> {
    if s == [] || le(s[|s| - 1], x) then s + [x] else Insert(s[..|s| - 1], x, le) + [s[|s| - 1]]
  }

  function Sort<T>(s: seq<T>, le: (T, T) -> bool): seq<T> {
    if s == [] then [] else Insert(Sort(s[..|s| - 1], le), s[|s| - 1], le)
  }

  lemma SortNext<T>(s: seq<T>, x: T, le: (T, T) -> bool)
    ensures Sort(s + [x], le) == Insert(Sort(s, le), x, le)
  {
    assert (s + [x])[..|s|] == s;
  }

  lemma InsertBehind<T>(s: seq<T>, x: T, le: (T, T) -> bool)
    requires s != [] && le(s[|s| - 1], x)
    ensures Insert(s, x, le) == s + [x]
  {
  }

  lemma {:induction false} InsertIs<T(!new)>(s: seq<T>, x: T, le: (T, T) -> bool)
    requires IsOrder(le) && Sorted(s, le)
    ensures multiset(Insert(s, x, le)) == multiset(s) + multiset{x}
    ensures Sorted(Insert(s, x, le), le)
  {
    if s == [] {
    } else {
      var before, last := s[..|s| - 1], s[|s| - 1];
      assert s == before + [last];
      if le(last, x) {
        assert forall i :: 0 <= i < |before| ==> le(s[i], last) && le(s[i], x);
      } else {
        var r := Insert(before, x, le);
        InsertIs(before, x, le);
        forall i | 0 <= i < |r| ensures le(r[i], last) {
          assert r[i] in multiset(r);
          assert r[i] == x || r[i] in before;
        }
      }
    }
  }

  lemma {:induction false} SortIs<T(!new)>(s: seq<T>, le: (T, T) -> bool)
    requires IsOrder(le)
    ensures multiset(Sort(s, le)) == multiset(s) && |Sort(s, le)| == |s|
    ensures Sorted(Sort(s, le), le)
  {
    hide IsOrder;
    if s == [] {
    } else {
      SortIs(s[..|s| - 1], le);
      InsertIs(Sort(s[..|s| - 1], le), s[|s| - 1], le);
      assert s == s[..|s| - 1] + [s[|s| - 1]];
      assert |multiset(Sort(s, le))| == |multiset(s)|;
    }
  }

  // ----- stability -----

  /** The elements that may come on either side of p. */
  function TiedWith<T>(p: T, le: (T, T) -> bool): T -> bool {
    (x: T) => le(x, p) && le(p, x)
  }

  /** Inserting keeps tied elements in the order they came in. */
  lemma {:induction false} InsertStable<T(!new)>(s: seq<T>, x: T, p: T, le: (T, T) -> bool)
    requires IsOrder(le)
    ensures Filter(Insert(s, x, le), TiedWith(p, le)) == Filter(s + [x], TiedWith(p, le))
  {
    var tied := TiedWith(p, le);
    if s == [] || le(s[|s| - 1], x) {
    } else {
      var before, last := s[..|s| - 1], s[|s| - 1];
      InsertStable(before, x, p, le);
      FilterLast(Insert(before, x, le), last, tied);
      FilterLast(before, x, tied);
      FilterLast(before, last, tied);
      FilterLast(s, x, tied);
      assert s == before + [last];
    }
  }

  lemma {:induction false} SortStable<T(!new)>(s: seq<T>, p: T, le: (T, T) -> bool)
    requires IsOrder(le)
    ensures Filter(Sort(s, le), TiedWith(p, le)) == Filter(s, TiedWith(p, le))
  {
    hide IsOrder;
    if s != [] {
      var before, last := s[..|s| - 1], s[|s| - 1];
      SortStable(before, p, le);
      InsertStable(Sort(before, le), last, p, le);
      FilterLast(Sort(before, le), last, TiedWith(p, le));
      FilterLast(before, last, TiedWith(p, le));
      assert s == before + [last];
    }
  }

  /** No two elements of s may come in either order. */
  ghost predicate Decided<T>(s: seq<T>, le: (T, T) -> bool) {
    forall x, y :: x in s && y in s && le(x, y) && le(y, x) ==> x == y
  }

  lemma SameLast<T>(s: seq<T>, t: seq<T>, le: (T, T) -> bool)
    requires s != [] && t != [] && Sorted(s, le) && Sorted(t, le) && multiset(s) == multiset(t) && Decided(s, le)
    ensures s[|s| - 1] == t[|t| - 1]
  {
    var p, q := s[|s| - 1], t[|t| - 1];
    assert p in multiset(t) && q in multiset(s);
    var a :| 0 <= a < |t| && t[a] == p;
    var b :| 0 <= b < |s| && s[b] == q;
    assert a == |t| - 1 || le(p, q);
    assert b == |s| - 1 || le(q, p);
  }

  lemma ShorterSorted<T>(s: seq<T>, le: (T, T) -> bool)
    requires s != []
    ensures Sorted(s, le) ==> Sorted(s[..|s| - 1], le)
    ensures Decided(s, le) ==> Decided(s[..|s| - 1], le)
  {
    assert forall p :: p in s[..|s| - 1] ==> p in s;
  }

  lemma WithoutLast<T>(s: seq<T>)
    requires s != []
    ensures s == s[..|s| - 1] + [s[|s| - 1]]
    ensures multiset(s[..|s| - 1]) == multiset(s) - multiset{s[|s| - 1]}
  {
    assert s == s[..|s| - 1] + [s[|s| - 1]];
  }

  /** Elements whose order is decided have one sorted order. */
  lemma {:induction false} SortedUnique<T>(s: seq<T>, t: seq<T>, le: (T, T) -> bool)
    requires Sorted(s, le) && Sorted(t, le) && multiset(s) == multiset(t) && Decided(s, le)
    ensures s == t
    decreases |s|
  {
    hide Sorted, Decided;
    if s == [] {
      assert |multiset(t)| == 0;
    } else {
      assert |multiset(s)| == |multiset(t)| == |t|;
      SameLast(s, t, le);
      ShorterSorted(s, le);
      ShorterSorted(t, le);
      WithoutLast(s);
      WithoutLast(t);
      SortedUnique(s[..|s| - 1], t[..|t| - 1], le);
    }
  }
}
