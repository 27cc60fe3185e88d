/** The sampling cursor of a dataset (ai_fingerprint/dataset_manager.py, __len__,
    _next_index, reset, _next_index_for_anomaly): a walk over the first usable
    indices, which are reshuffled in place whenever the walk starts again. */
module SampleCursor {
  import opened Results
  import opened Seqs
  import opened Randomness

  /** The state of the walk; calls numbers the shuffles, and the last three
      stay fixed: how many indices are usable, and how to reshuffle. */
  datatype Cursor = Cursor(indices: seq<nat>, position: nat, calls: nat, usable: nat, shuffling: bool, rng: Rng)

  /** A walk over at least one index. */
  type Walk = s: Cursor | 0 < s.usable <= |s.indices| witness Cursor([0], 0, 0, 1, false, Rng(map[], map[], map[]))

  /** The indices the walk visits. */
  function Prefix(s: Walk): seq<nat> {
    s.indices[..s.usable]
  }

  /** min(len(indices), max_samples). */
  function Usable(available: nat, maxSamples: Option<int>): (n: int)
    ensures n <= available && (maxSamples.Some? ==> n <= maxSamples.value)
    ensures n == available || maxSamples == Some(n)
  {
    match maxSamples
    case None => available
    case Some(n) => if n < available then n else available
  }

  /** Where the walk stands once it has started again if it had to. */
  function Restarted(s: Walk): (t: Walk)
    ensures t.usable == s.usable && t.position < s.usable
    ensures multiset(Prefix(t)) == multiset(Prefix(s))
  {
    if s.position < s.usable then s
    else if !s.shuffling then s.(position := 0)
    else
      var prefix := s.rng.Shuffle(s.calls, s.indices[..s.usable]);
      var indices := prefix + s.indices[s.usable..];
      assert indices[..s.usable] == prefix;
      s.(indices := indices, position := 0, calls := s.calls + 1)
  }

  /** _next_index: the new state and the index. */
  function Next(s: Walk): (r: (Walk, nat))
    ensures r.0.usable == s.usable
  {
    var t := Restarted(s);
    (t.(position := t.position + 1), t.indices[t.position])
  }

  function Draw(s: Walk, n: nat): (r: (Walk, seq<nat>))
    ensures r.0.usable == s.usable && |r.1| == n
  {
    if n == 0 then (s, []) else
      var (before, drawn) := Draw(s, n - 1);
      var (after, index) := Next(before);
      (after, drawn + [index])
  }

  /** NegativeLength is what len() raises for a negative max_samples. */
  datatype CursorError = NegativeLength | DatasetEmpty | UnableToSample

  /** The attempts of _next_index_for_anomaly. */
  function Search(s: Walk, accepts: nat -> bool, attempts: nat): (Walk, Option<nat>)
    decreases attempts
  {
    if attempts == 0 then (s, None) else
      var (t, index) := Next(s);
      if accepts(index) then (t, Some(index)) else Search(t, accepts, attempts - 1)
  }

  function Attempts(usable: nat): (n: nat)
    ensures n >= 16 && n >= usable + usable && (n == 16 || n == usable + usable)
  {
    if 2 * usable > 16 then 2 * usable else 16
  }

  /** normal_only is None, True or False; only True rejects anything. */
  function Accepts(normalOnly: Option<bool>, isNormal: nat -> bool): nat -> bool {
    (index: nat) => normalOnly != Some(true) || isNormal(index)
  }

  class DatasetManager {
    const indices: array<nat>
    const maxSamples: Option<int>
    const shuffling: bool
    const rng: Rng
    var cursor: nat
    var calls: nat

    constructor (prepared: seq<nat>, maxSamples: Option<int>, shuffling: bool, rng: Rng)
      ensures fresh(indices)
      ensures this.maxSamples == maxSamples && this.shuffling == shuffling && this.rng == rng
      ensures indices[..] == (if shuffling then rng.Shuffle(0, prepared) else prepared)
      ensures cursor == 0 && calls == if shuffling then 1 else 0
    {
      var order := if shuffling then rng.Shuffle(0, prepared) else prepared;
      indices := new nat[|order|](k requires 0 <= k < |order| => order[k]);
      this.maxSamples, this.shuffling, this.rng := maxSamples, shuffling, rng;
      cursor, calls := 0, if shuffling then 1 else 0;
      new;
      assert indices[..] == order;
    }

    /** min(len(self._indices), max_samples). */
    function Len(): int {
      Usable(indices.Length, maxSamples)
    }

    function Abstract(): Walk
      requires Len() > 0
      reads this, indices
    {
      Cursor(indices[..], cursor, calls, Len(), shuffling, rng)
    }

    method Reset()
      modifies this`cursor
      ensures cursor == 0
    {
      cursor := 0;
    }

    method NextIndex() returns (r: Result<nat, CursorError>)
      modifies this, indices
      ensures Len() < 0 ==> r == Err(NegativeLength) && unchanged(this) && unchanged(indices)
      ensures Len() == 0 ==> r == Err(DatasetEmpty) && unchanged(this) && unchanged(indices)
      ensures Len() > 0 ==> r.Ok? && (Abstract(), r.value) == Next(old(Abstract()))
    {
      var usable := Len();
      if usable < 0 { return Err(NegativeLength); }
      if usable == 0 { return Err(DatasetEmpty); }
      ghost var before := Abstract();
      if cursor >= usable {
        cursor := 0;
        if shuffling { ShufflePrefix(usable); }
      }
      assert Abstract() == Restarted(before);
      var index := indices[cursor];
      cursor := cursor + 1;
      return Ok(index);
    }

    /** rng.shuffle(self._indices[:usable]): the slice is a view, so the array
        itself is permuted. */
    method ShufflePrefix(usable: nat)
      requires usable <= indices.Length
      modifies this`calls, indices
      ensures indices[..] == rng.Shuffle(old(calls), old(indices[..usable])) + old(indices[usable..])
      ensures calls == old(calls) + 1
    {
      var order := rng.Shuffle(calls, indices[..usable]);
      calls := calls + 1;
      for k := 0 to usable
        invariant calls == old(calls) + 1
        invariant forall i :: 0 <= i < k ==> indices[i] == order[i]
        invariant forall i :: k <= i < indices.Length ==> indices[i] == old(indices[i])
      {
        indices[k] := order[k];
      }
      assert indices[..] == order + old(indices[usable..]);
    }

    method NextIndexForAnomaly(normalOnly: Option<bool>, isNormal: nat -> bool) returns (r: Result<nat, CursorError>)
      modifies this, indices
      ensures Len() < 0 ==> r == Err(NegativeLength) && unchanged(this) && unchanged(indices)
      ensures Len() == 0 ==> r == Err(DatasetEmpty) && unchanged(this) && unchanged(indices)
      ensures Len() > 0 ==>
                var (after, found) := Search(old(Abstract()), Accepts(normalOnly, isNormal), Attempts(Len()));
                Abstract() == after && r == if found.Some? then Ok(found.value) else Err(UnableToSample)
    {
      hide Attempts, Next, Usable;
      var usable := Len();
      if usable < 0 { return Err(NegativeLength); }
      if usable == 0 { return Err(DatasetEmpty); }
      var attempts := Attempts(usable);
      ghost var accepts := Accepts(normalOnly, isNormal);
      ghost var result := Search(Abstract(), accepts, attempts);
      for attempt := 0 to attempts
        invariant Search(Abstract(), accepts, attempts - attempt) == result
      {
        var next := NextIndex();
        var index := next.value;
        if normalOnly != Some(true) || isNormal(index) { return Ok(index); }
      }
      return Err(UnableToSample);
    }
  }

  // ----- epochs -----

  lemma DrawStep(s: Walk, n: nat)
    ensures var (t, drawn) := Draw(s, n);
            Draw(s, n + 1) == (Next(t).0, drawn + [Next(t).1])
  {
  }

  lemma {:induction false} DrawAppend(s: Walk, m: nat, n: nat)
    ensures var (t, first) := Draw(s, m);
            var (u, rest) := Draw(t, n);
            Draw(s, m + n) == (u, first + rest)
  {
    hide Next, Restarted;
    var (t, first) := Draw(s, m);
    if n == 0 {
      assert first + [] == first;
    } else {
      DrawAppend(s, m, n - 1);
      DrawStep(s, m + (n - 1));
      DrawStep(t, n - 1);
      var (u, rest) := Draw(t, n - 1);
      assert first + (rest + [Next(u).1]) == (first + rest) + [Next(u).1];
    }
  }

  lemma NextWithin(s: Walk)
    requires s.position < s.usable
    ensures Next(s) == (s.(position := s.position + 1), s.indices[s.position])
  {
  }

  /** Inside an epoch the walk reads the indices off in order. */
  lemma {:induction false} DrawWithin(s: Walk, n: nat)
    requires s.position + n <= s.usable
    ensures Draw(s, n).0 == s.(position := s.position + n)
    ensures Draw(s, n).1 == s.indices[s.position..s.position + n]
  {
    hide Draw, Next, Restarted;
    if n == 0 {
      DrawNone(s);
      assert s.indices[s.position..s.position] == [];
    } else {
      var m := n - 1;
      DrawWithin(s, m);
      DrawStep(s, m);
      NextWithin(s.(position := s.position + m));
      assert s.indices[s.position..s.position + m] + [s.indices[s.position + m]] == s.indices[s.position..s.position + n];
    }
  }

  lemma {:induction false} DrawRestarted(s: Walk, n: nat)
    requires n >= 1
    ensures Draw(s, n) == Draw(Restarted(s), n)
  {
    var r := Restarted(s);
    assert Restarted(r) == r;
    if n > 1 {
      DrawRestarted(s, n - 1);
    } else {
      assert Draw(s, 0) == (s, []) && Draw(r, 0) == (r, []);
    }
    DrawStep(s, n - 1);
    DrawStep(r, n - 1);
  }

  /** A walk that starts an epoch draws every usable index exactly once in it, in
      the order of the indices, or of their next shuffle when the last epoch is used
      up, and ends ready to start the next epoch with the same indices. */
  lemma EpochFromBoundary(s: Walk)
    requires (s.position == 0 || s.position >= s.usable)
    ensures var (t, drawn) := Draw(s, s.usable);
            && multiset(drawn) == multiset(Prefix(s))
            && drawn == (if s.position >= s.usable && s.shuffling
                         then s.rng.Shuffle(s.calls, s.indices[..s.usable]) else s.indices[..s.usable])
            && t.position == s.usable
            && multiset(Prefix(t)) == multiset(Prefix(s))
  {
    hide Draw, Next;
    var r := Restarted(s);
    DrawRestarted(s, s.usable);
    DrawWithin(r, s.usable);
    assert r.indices[0..s.usable] == r.indices[..s.usable];
  }

  lemma DrawNone(s: Walk)
    ensures Draw(s, 0) == (s, [])
  {
  }

  lemma {:induction false} EpochsKeepIndices(s: Walk, epochs: nat, n: nat)
    requires (s.position == 0 || s.position >= s.usable) && n == epochs * s.usable
    ensures var t := Draw(s, n).0;
            && (t.position == 0 || t.position >= s.usable)
            && multiset(Prefix(t)) == multiset(Prefix(s))
  {
    hide Draw, Next, Restarted;
    if epochs == 0 {
      DrawNone(s);
    } else {
      var m := n - s.usable;
      assert m == (epochs - 1) * s.usable;
      EpochsKeepIndices(s, epochs - 1, m);
      DrawAppend(s, m, s.usable);
      EpochFromBoundary(Draw(s, m).0);
    }
  }

  /** Every epoch of any length of walk draws each usable index exactly once,
      however often the prefix has been reshuffled in place. */
  lemma EveryEpochIsAPermutation(s: Walk, epoch: nat, from: nat)
    requires s.position == 0 && from == epoch * s.usable
    ensures multiset(Draw(s, from + s.usable).1[from..]) == multiset(Prefix(s))
  {
    hide Draw, Next, Restarted, Prefix;
    EpochsKeepIndices(s, epoch, from);
    NextEpoch(s, from);
  }

  lemma NextEpoch(s: Walk, from: nat)
    requires var t := Draw(s, from).0; (t.position == 0 || t.position >= s.usable) && multiset(Prefix(t)) == multiset(Prefix(s))
    ensures multiset(Draw(s, from + s.usable).1[from..]) == multiset(Prefix(s))
  {
    hide Draw, Next, Restarted, Prefix;
    DrawAppend(s, from, s.usable);
    var (t, first) := Draw(s, from);
    EpochFromBoundary(t);
    assert (first + Draw(t, s.usable).1)[from..] == Draw(t, s.usable).1;
  }

  // ----- the bounded search -----

  /** From any position, the next 2 * usable draws contain a whole epoch. */
  lemma EpochWithinTwo(s: Walk, start: nat, more: nat)
    requires start == (if s.position < s.usable then s.usable - s.position else 0)
    requires start + more == s.usable
    ensures var drawn := Draw(s, start + s.usable + more).1;
            multiset(drawn[start..start + s.usable]) == multiset(Prefix(s))
  {
    hide Draw, Next, Restarted;
    StartOfEpoch(s, start);
    var t := Draw(s, start).0;
    EpochFromBoundary(t);
    DrawThree(s, start, s.usable, more);
    Middle(Draw(s, start).1, Draw(t, s.usable).1, Draw(Draw(t, s.usable).0, more).1);
  }

  lemma DrawThree(s: Walk, a: nat, b: nat, c: nat)
    ensures var t := Draw(s, a).0;
            var u := Draw(t, b).0;
            Draw(s, a + b + c).1 == (Draw(s, a).1 + Draw(t, b).1) + Draw(u, c).1
  {
    hide Draw, Next, Restarted;
    DrawAppend(s, a, b);
    DrawAppend(s, a + b, c);
  }

  lemma Middle(first: seq<nat>, epoch: seq<nat>, rest: seq<nat>)
    ensures ((first + epoch) + rest)[|first|..|first| + |epoch|] == epoch
  {
  }

  lemma StartOfEpoch(s: Walk, start: nat)
    requires start == if s.position < s.usable then s.usable - s.position else 0
    ensures var t := Draw(s, start).0;
            t.position >= s.usable && multiset(Prefix(t)) == multiset(Prefix(s))
  {
    if s.position < s.usable { DrawWithin(s, start); }
  }

  /** The draws after the first are the draws from the next state. */
  lemma DrawFirst(s: Walk, n: nat)
    requires n >= 1
    ensures Draw(s, n).1 == [Next(s).1] + Draw(Next(s).0, n - 1).1
  {
    hide Next, Restarted;
    assert Draw(s, 0) == (s, []);
    DrawStep(s, 0);
    DrawAppend(s, 1, n - 1);
  }

  /** The search finds something exactly when one of its draws is accepted. */
  lemma {:induction false} SearchIsDraw(s: Walk, accepts: nat -> bool, n: nat)
    ensures Search(s, accepts, n).1.Some? <==> exists k :: 0 <= k < n && accepts(Draw(s, n).1[k])
    decreases n
  {
    hide Draw, Next, Restarted;
    if n > 0 {
      var (t, index) := Next(s);
      DrawFirst(s, n);
      var all, rest := Draw(s, n).1, Draw(t, n - 1).1;
      if accepts(index) {
        assert accepts(all[0]);
      } else {
        SearchIsDraw(t, accepts, n - 1);
        Shifted(all, rest, accepts);
      }
    }
  }

  /** It finds the first of its draws that is accepted, and stops there. */
  lemma {:induction false} SearchFindsFirst(s: Walk, accepts: nat -> bool, n: nat) returns (k: nat)
    ensures var (t, found) := Search(s, accepts, n);
            && k <= n && (found.Some? <==> k < n)
            && (forall i :: 0 <= i < k ==> !accepts(Draw(s, n).1[i]))
            && (if k < n
                then accepts(Draw(s, n).1[k]) && found == Some(Draw(s, n).1[k]) && t == Draw(s, k + 1).0
                else t == Draw(s, n).0)
    decreases n
  {
    hide Draw, Next, Restarted;
    if n == 0 {
      k := 0;
      DrawNone(s);
    } else {
      var (t, index) := Next(s);
      DrawFirst(s, n);
      DrawNone(s);
      DrawStep(s, 0);
      if accepts(index) {
        k := 0;
      } else {
        k := SearchFindsFirst(t, accepts, n - 1);
        k := k + 1;
        DrawAppend(s, 1, n - 1);
        DrawAppend(s, 1, k);
      }
    }
  }

  /** Unless only normal samples are asked for, the search takes the next index. */
  lemma AnySampleIsNext(s: Walk, normalOnly: Option<bool>, isNormal: nat -> bool)
    requires normalOnly != Some(true)
    ensures Search(s, Accepts(normalOnly, isNormal), Attempts(s.usable)) == (Next(s).0, Some(Next(s).1))
  {
  }

  lemma Shifted(all: seq<nat>, rest: seq<nat>, accepts: nat -> bool)
    requires all != [] && all == [all[0]] + rest && !accepts(all[0])
    ensures (exists k :: 0 <= k < |all| && accepts(all[k])) <==> (exists k :: 0 <= k < |rest| && accepts(rest[k]))
  {
    if k :| 0 <= k < |rest| && accepts(rest[k]) { assert all[k + 1] == rest[k]; }
  }

  lemma {:induction false} DrawnAreUsable(s: Walk, n: nat)
    ensures multiset(Prefix(Draw(s, n).0)) == multiset(Prefix(s))
    ensures forall k :: 0 <= k < n ==> Draw(s, n).1[k] in Prefix(s)
  {
    if n > 0 {
      DrawnAreUsable(s, n - 1);
      var before := Draw(s, n - 1).0;
      var t := Restarted(before);
      assert t.indices[..s.usable][t.position] == t.indices[t.position];
      SameElements(t.indices[..s.usable], s.indices[..s.usable], t.indices[t.position]);
    }
  }

  lemma SameElements(a: seq<nat>, b: seq<nat>, x: nat)
    requires multiset(a) == multiset(b)
    ensures x in a <==> x in b
  {
    assert x in a <==> x in multiset(a);
    assert x in b <==> x in multiset(b);
  }

  /** _next_index_for_anomaly(True), from any position of the cursor, succeeds
      exactly when some usable index is normal; it never raises otherwise. */
  lemma SearchSucceedsIffSomeNormal(s: Walk, isNormal: nat -> bool)
    ensures Search(s, Accepts(Some(true), isNormal), Attempts(s.usable)).1.Some? <==>
            exists x :: x in Prefix(s) && isNormal(x)
  {
    hide Draw, Search, Next, Restarted;
    var accepts, n := Accepts(Some(true), isNormal), Attempts(s.usable);
    SearchIsDraw(s, accepts, n);
    DrawnAreUsable(s, n);
    if x :| x in Prefix(s) && isNormal(x) {
      var k := DrawnSoon(s, x);
      assert accepts(Draw(s, n).1[k]);
    }
  }

  /** Every usable index is among the draws that the search may make. */
  lemma DrawnSoon(s: Walk, x: nat) returns (k: nat)
    requires x in Prefix(s)
    ensures k < |Draw(s, Attempts(s.usable)).1| && Draw(s, Attempts(s.usable)).1[k] == x
  {
    hide Draw, Next, Restarted;
    var start := if s.position < s.usable then s.usable - s.position else 0;
    EpochWithinTwo(s, start, s.usable - start);
    DrawAppend(s, 2 * s.usable, Attempts(s.usable) - 2 * s.usable);
    var first := Draw(s, 2 * s.usable).1;
    SameElements(first[start..start + s.usable], s.indices[..s.usable], x);
    var j :| 0 <= j < s.usable && first[start..start + s.usable][j] == x;
    k := start + j;
  }
}
