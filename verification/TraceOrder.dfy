/** Which live traces are in reader order (ai_fingerprint/live_inference.py,
    register_connection): it is decided by the aliases that connections get. */
module TraceOrder {
  import opened Results
  import opened Seqs
  import opened Decimals
  import opened LiveRegistration

  // ----- who gets which alias -----

  datatype Registration = Registration(peer: Peer, explicit: string)

  predicate Known(registrations: seq<Registration>, peer: Peer) {
    exists k :: 0 <= k < |registrations| && registrations[k].peer == peer
  }

  predicate DistinctPeers(registrations: seq<Registration>) {
    forall j, k :: 0 <= j < k < |registrations| ==> registrations[j].peer != registrations[k].peer
  }

  /** The registrations of a run, each connection's first only, in order. */
  function Registrations(steps: seq<Step>): seq<Registration> {
    if steps == [] then [] else
      var before := Registrations(steps[..|steps| - 1]);
      match steps[|steps| - 1]
      case Accept(peer, explicit) => if Known(before, peer) then before else before + [Registration(peer, explicit)]
      case _ => before
  }

  /** The alias of registration number k, counted from zero. */
  function AliasOf(registrations: seq<Registration>, k: nat): Alias
    requires k < |registrations|
  {
    ChosenAlias(registrations[k].explicit, k)
  }

  /** The registrations of a run determine its aliases. */
  lemma {:induction false} AliasesAre(steps: seq<Step>)
    requires Run(steps).Some?
    ensures var registrations, aliases := Registrations(steps), Run(steps).value.table.aliases;
            && |aliases| == |registrations| && DistinctPeers(registrations)
            && (forall peer :: peer in aliases <==> Known(registrations, peer))
            && forall k :: 0 <= k < |registrations| ==>
                 registrations[k].peer in aliases && aliases[registrations[k].peer] == AliasOf(registrations, k)
  {
    hide ChosenAlias;
    if steps != [] {
      var before, last := steps[..|steps| - 1], steps[|steps| - 1];
      AliasesAre(before);
      if last.Accept? && !Known(Registrations(before), last.peer) {
        var earlier := Registrations(before);
        AliasesNext(earlier, Run(before).value.table.aliases, last.peer, last.explicit);
      }
    }
  }

  lemma AliasesNext(earlier: seq<Registration>, aliases: map<Peer, Alias>, peer: Peer, explicit: string)
    requires |aliases| == |earlier| && DistinctPeers(earlier) && !Known(earlier, peer)
    requires forall other :: other in aliases <==> Known(earlier, other)
    requires forall k :: 0 <= k < |earlier| ==> earlier[k].peer in aliases && aliases[earlier[k].peer] == AliasOf(earlier, k)
    ensures var later, aliases' := earlier + [Registration(peer, explicit)], aliases[peer := ChosenAlias(explicit, |aliases|)];
            && |aliases'| == |later| && DistinctPeers(later)
            && (forall other :: other in aliases' <==> Known(later, other))
            && forall k :: 0 <= k < |later| ==> later[k].peer in aliases' && aliases'[later[k].peer] == AliasOf(later, k)
  {
    hide ChosenAlias;
    var later := earlier + [Registration(peer, explicit)];
    assert later[|earlier|].peer == peer;
    forall other ensures Known(later, other) <==> Known(earlier, other) || other == peer {
      if Known(earlier, other) {
        var k :| 0 <= k < |earlier| && earlier[k].peer == other;
        assert later[k].peer == other;
      }
    }
  }

  /** The alias that registration number k gets when it asks for none. */
  function AutomaticName(k: nat): string {
    "trace_" + ThreeDigits(k + 1)
  }

  /** In every run: two automatic connections never share a trace; an automatic
      one shares with an explicit one exactly when the explicit text is its own
      numbered name; two explicit ones exactly when they ask for the same text. */
  lemma AliasesSharedExactly(steps: seq<Step>, j: nat, k: nat)
    requires Run(steps).Some? && j < |Registrations(steps)| && k < |Registrations(steps)| && j != k
    ensures var r, aliases := Registrations(steps), Run(steps).value.table.aliases;
            && r[j].peer in aliases && r[k].peer in aliases
            && var shared := aliases[r[j].peer] == aliases[r[k].peer];
               && (r[j].explicit == "" && r[k].explicit == "" ==> !shared)
               && (r[j].explicit == "" && r[k].explicit != "" ==> (shared <==> r[k].explicit == AutomaticName(j)))
               && (r[j].explicit != "" && r[k].explicit != "" ==> (shared <==> r[j].explicit == r[k].explicit))
  {
    hide ThreeDigits;
    AliasesAre(steps);
    AutomaticNamesDiffer(j, k);
  }

  lemma AutomaticNamesDiffer(j: nat, k: nat)
    ensures AutomaticName(j) == AutomaticName(k) ==> j == k
  {
    hide ThreeDigits;
    assert AutomaticName(j)[6..] == ThreeDigits(j + 1) && AutomaticName(k)[6..] == ThreeDigits(k + 1);
    ThreeDigitsInjective(j + 1, k + 1);
  }

  /** An explicit alias can take the name that the next automatic one gets. */
  lemma AutomaticNameTaken(a: Peer, b: Peer)
    requires a != b
    ensures var steps := [Accept(a, "trace_002")] + [Accept(b, "")];
            && Run(steps).Some?
            && a in Run(steps).value.table.aliases && b in Run(steps).value.table.aliases
            && Run(steps).value.table.aliases[a] == Run(steps).value.table.aliases[b] == Alias("trace_002")
  {
    var first := [Accept(a, "trace_002")];
    RunStep([], Accept(a, "trace_002"), START, first, Perform(START, Accept(a, "trace_002")));
    var s := Run(first).value;
    RunStep(first, Accept(b, ""), s, first + [Accept(b, "")], Perform(s, Accept(b, "")));
    assert ThreeDigits(2) == "002";
  }

  // ----- subsequences -----

  /** t is s with some elements left out. */
  ghost predicate Subsequence<T>(t: seq<T>, s: seq<T>) {
    if t == [] then true
    else if s == [] then false
    else (t[|t| - 1] == s[|s| - 1] && Subsequence(t[..|t| - 1], s[..|s| - 1])) || Subsequence(t, s[..|s| - 1])
  }

  lemma {:induction false} SubsequenceSkips<T>(t: seq<T>, s: seq<T>, more: seq<T>)
    requires Subsequence(t, s)
    ensures Subsequence(t, s + more)
  {
    if more == [] {
      assert s + more == s;
    } else {
      SubsequenceSkips(t, s, more[..|more| - 1]);
      assert (s + more)[..|s + more| - 1] == s + more[..|more| - 1];
    }
  }

  lemma {:induction false} SubsequencesJoin<T>(t: seq<T>, s: seq<T>, t': seq<T>, s': seq<T>)
    requires Subsequence(t, s) && Subsequence(t', s')
    ensures Subsequence(t + t', s + s')
    decreases |s'|
  {
    if t' == [] {
      assert t + t' == t;
      SubsequenceSkips(t, s, s');
    } else {
      assert (s + s')[..|s + s'| - 1] == s + s'[..|s'| - 1];
      if t'[|t'| - 1] == s'[|s'| - 1] && Subsequence(t'[..|t'| - 1], s'[..|s'| - 1]) {
        assert (t + t')[..|t + t'| - 1] == t + t'[..|t'| - 1];
        SubsequencesJoin(t, s, t'[..|t'| - 1], s'[..|s'| - 1]);
      } else {
        SubsequencesJoin(t, s, t', s'[..|s'| - 1]);
      }
    }
  }

  lemma {:induction false} SubsequenceItself<T>(s: seq<T>)
    ensures Subsequence(s, s)
  {
    if s != [] { SubsequenceItself(s[..|s| - 1]); }
  }

  lemma {:induction false} SubsequenceOfFilter<T>(t: seq<T>, s: seq<T>, keep: T -> bool)
    requires Subsequence(t, Filter(s, keep))
    ensures Subsequence(t, s)
    decreases |s|
  {
    if t != [] && s != [] {
      var before, last := s[..|s| - 1], s[|s| - 1];
      if keep(last) {
        assert Filter(s, keep)[..|Filter(s, keep)| - 1] == Filter(before, keep);
        if t[|t| - 1] == last && Subsequence(t[..|t| - 1], Filter(before, keep)) {
          SubsequenceOfFilter(t[..|t| - 1], before, keep);
        } else {
          SubsequenceOfFilter(t, before, keep);
        }
      } else {
        SubsequenceOfFilter(t, before, keep);
      }
    }
  }

  // ----- traces in reader order -----

  /** Every trace lists packets in the order in which the reader read them. */
  ghost predicate InReaderOrder(s: System) {
    forall name :: Subsequence(s.table.Trace(name), s.read)
  }

  predicate Shared(registrations: seq<Registration>) {
    exists j, k :: 0 <= j < k < |registrations| && AliasOf(registrations, j) == AliasOf(registrations, k)
  }

  lemma OwnedTraceIsSubsequence(steps: seq<Step>, peer: Peer)
    requires Run(steps).Some? && OwnsAlias(Run(steps).value.table, peer)
    ensures Subsequence(Run(steps).value.table.Trace(Run(steps).value.table.aliases[peer]), Run(steps).value.read)
  {
    hide Run, Subsequence;
    OwnedTraceInReaderOrder(steps, peer);
    var s := Run(steps).value;
    var v := ViewOf(s, peer);
    var front, back := v.delivered[..v.released], v.delivered[v.released..];
    SubsequenceItself(front);
    SubsequenceItself(back);
    NothingSubsequence(v.evicted);
    NothingSubsequence(v.pending);
    SubsequenceSkips(back, back, v.Flying());
    SubsequencesJoin([], v.pending, back, back + v.Flying());
    SubsequencesJoin(front, front, [] + back, v.pending + (back + v.Flying()));
    SubsequencesJoin([], v.evicted, front + ([] + back), front + (v.pending + (back + v.Flying())));
    assert [] + (front + ([] + back)) == v.delivered;
    SubsequenceOfFilter(v.delivered, s.read, From(peer));
  }

  lemma NothingSubsequence<T>(s: seq<T>)
    ensures Subsequence([], s)
  {
  }

  /** When no two connections share an alias every trace is in reader order. */
  lemma UnsharedInOrder(steps: seq<Step>)
    requires Run(steps).Some? && !Shared(Registrations(steps))
    ensures InReaderOrder(Run(steps).value)
  {
    hide Run, Subsequence, ChosenAlias, ViewOf;
    var s, r := Run(steps).value, Registrations(steps);
    AliasesAre(steps);
    forall name ensures Subsequence(s.table.Trace(name), s.read) {
      if k: nat :| k < |r| && AliasOf(r, k) == name {
        forall other | other in s.table.aliases && other != r[k].peer ensures s.table.aliases[other] != name {
          var j: nat :| j < |r| && r[j].peer == other;
          assert j < k ==> AliasOf(r, j) != AliasOf(r, k);
          assert k < j ==> AliasOf(r, k) != AliasOf(r, j);
        }
        OwnedTraceIsSubsequence(steps, r[k].peer);
      } else {
        NobodysTrace(steps, name);
        NothingSubsequence(s.read);
      }
    }
  }

  lemma NobodysTrace(steps: seq<Step>, name: Alias)
    requires Run(steps).Some? && forall peer :: peer in Run(steps).value.table.aliases ==> Run(steps).value.table.aliases[peer] != name
    ensures Run(steps).value.table.Trace(name) == []
  {
    hide Run;
    var trace := Run(steps).value.table.Trace(name);
    if trace != [] {
      var peer := trace[0].peer;
      NoPacketLostOrDuplicated(steps, peer);
      FilterMember(trace, From(peer), trace[0]);
    }
  }

  // ----- a shared alias breaks the order in some run -----

  function Accepts(registrations: seq<Registration>): (steps: seq<Step>)
    ensures |steps| == |registrations|
  {
    seq(|registrations|, k requires 0 <= k < |registrations| => Accept(registrations[k].peer, registrations[k].explicit))
  }

  lemma PrefixDistinct(registrations: seq<Registration>, last: Registration)
    requires DistinctPeers(registrations + [last])
    ensures DistinctPeers(registrations)
  {
    var all := registrations + [last];
    assert forall k :: 0 <= k < |registrations| ==> registrations[k] == all[k];
  }

  /** Registering connections without pending packets touches no trace. */
  lemma {:induction false} QuietRegistrations(steps: seq<Step>, more: seq<Registration>)
    requires Run(steps).Some? && DistinctPeers(Registrations(steps) + more)
    requires forall k :: 0 <= k < |more| ==> Run(steps).value.table.Pending(more[k].peer) == []
    ensures Run(steps + Accepts(more)).Some?
    ensures Registrations(steps + Accepts(more)) == Registrations(steps) + more
    ensures var s, t := Run(steps).value, Run(steps + Accepts(more)).value;
            && t.table.traces == s.table.traces && t.inFlight == s.inFlight && t.read == s.read
            && forall peer :: t.table.Pending(peer) == s.table.Pending(peer)
  {
    hide Run, Registrations, Perform, Known, DistinctPeers;
    if more == [] {
      assert steps + Accepts(more) == steps && Registrations(steps) + more == Registrations(steps);
    } else {
      var before, last := more[..|more| - 1], more[|more| - 1];
      assert Registrations(steps) + more == (Registrations(steps) + before) + [last];
      PrefixDistinct(Registrations(steps) + before, last);
      QuietRegistrations(steps, before);
      OneMoreRegistration(steps + Accepts(before), last);
      QuietRegistration(Run(steps + Accepts(before)).value, last);
      assert (Registrations(steps) + before) + [last] == Registrations(steps) + more;
      assert steps + Accepts(more) == (steps + Accepts(before)) + [Accept(last.peer, last.explicit)];
    }
  }

  lemma QuietRegistration(s: System, last: Registration)
    requires last.peer !in s.table.aliases && s.table.Pending(last.peer) == []
    ensures var t := Perform(s, Accept(last.peer, last.explicit));
            && t.table.traces == s.table.traces && t.inFlight == s.inFlight && t.read == s.read
            && forall peer :: t.table.Pending(peer) == s.table.Pending(peer)
  {
  }

  lemma NoRegistration(steps: seq<Step>, step: Step)
    requires !step.Accept?
    ensures Registrations(steps + [step]) == Registrations(steps)
  {
    assert (steps + [step])[..|steps|] == steps;
  }

  lemma OneMoreRegistration(steps: seq<Step>, last: Registration)
    requires Run(steps).Some? && DistinctPeers(Registrations(steps) + [last])
    ensures var longer := steps + [Accept(last.peer, last.explicit)];
            && Run(longer).Some? && Registrations(longer) == Registrations(steps) + [last]
            && Run(longer).value == Perform(Run(steps).value, Accept(last.peer, last.explicit))
            && last.peer !in Run(steps).value.table.aliases
  {
    var r, longer := Registrations(steps), steps + [Accept(last.peer, last.explicit)];
    assert longer[..|steps|] == steps;
    forall k | 0 <= k < |r| ensures r[k].peer != last.peer {
      assert (r + [last])[k] == r[k] && (r + [last])[|r|] == last;
    }
    AliasesAre(steps);
  }

  /** A run that has made the first n registrations, with at most one packet
      pending and none in flight. */
  ghost predicate Midway(steps: seq<Step>, registrations: seq<Registration>, n: nat, read: seq<Packet>,
                         name: Alias, trace: seq<Packet>, waiting: Option<Packet>)
  {
    && n <= |registrations| && Run(steps).Some? && Registrations(steps) == registrations[..n]
    && var s := Run(steps).value;
       && s.inFlight.None? && s.read == read && s.table.Trace(name) == trace
       && forall peer :: s.table.Pending(peer) == Waiting(waiting, peer)
  }

  function Waiting(waiting: Option<Packet>, peer: Peer): seq<Packet> {
    if waiting.Some? && waiting.value.peer == peer then [waiting.value] else []
  }

  lemma QuietStretch(steps: seq<Step>, registrations: seq<Registration>, m: nat, n: nat, read: seq<Packet>,
                     name: Alias, trace: seq<Packet>, waiting: Option<Packet>)
    requires m <= n <= |registrations| && DistinctPeers(registrations)
    requires Midway(steps, registrations, m, read, name, trace, waiting)
    requires waiting.Some? ==> forall k :: m <= k < n ==> registrations[k].peer != waiting.value.peer
    ensures Midway(steps + Accepts(registrations[m..n]), registrations, n, read, name, trace, waiting)
  {
    hide Run, Registrations, Accepts;
    assert registrations[..m] + registrations[m..n] == registrations[..n];
    QuietRegistrations(steps, registrations[m..n]);
  }

  /** A packet of the later connection waits while one of the earlier connection
      reaches their trace; then registration appends the older packet. */
  lemma SharedOutOfOrder(registrations: seq<Registration>, j: nat, k: nat) returns (steps: seq<Step>)
    requires DistinctPeers(registrations) && j < k < |registrations|
    requires AliasOf(registrations, j) == AliasOf(registrations, k)
    ensures Run(steps).Some? && Registrations(steps) == registrations && !InReaderOrder(Run(steps).value)
  {
    hide ChosenAlias, Run, Registrations, Perform, Accepts, Subsequence, DistinctPeers;
    var early, late, name := Packet(registrations[k].peer, 0), Packet(registrations[j].peer, 1), AliasOf(registrations, j);
    assert forall i :: 0 <= i < k ==> registrations[i].peer != early.peer by { DistinctFrom(registrations, k); }
    EarlyOnly(early, registrations, name);
    steps := [Read(early), Store];
    QuietStretch(steps, registrations, 0, k, [early], name, [], Some(early));
    steps := steps + Accepts(registrations[0..k]);
    LateArrives(steps, registrations, j, k, early, late, name);
    steps := steps + [Read(late), Store];
    PendingReleased(steps, registrations, k, early, late, name);
    steps := steps + [Accept(registrations[k].peer, registrations[k].explicit)];
    QuietStretch(steps, registrations, k + 1, |registrations|, [early, late], name, [late, early], None);
    steps := steps + Accepts(registrations[k + 1..|registrations|]);
    assert registrations[..|registrations|] == registrations;
    Reversed(early, late);
  }

  lemma DistinctFrom(registrations: seq<Registration>, k: nat)
    requires DistinctPeers(registrations) && k < |registrations|
    ensures forall i :: 0 <= i < k ==> registrations[i].peer != registrations[k].peer
  {
  }

  lemma Reversed(early: Packet, late: Packet)
    requires early != late
    ensures !Subsequence([late, early], [early, late])
  {
    assert [early, late][..1] == [early] && [late, early][..1] == [late] && [early][..0] == [];
    assert !Subsequence([late], []) && !Subsequence([late, early], []);
    assert !Subsequence([late, early], [early]);
  }

  lemma EarlyOnly(early: Packet, registrations: seq<Registration>, name: Alias)
    ensures Midway([Read(early), Store], registrations, 0, [early], name, [], Some(early))
  {
    EarlyPacketStored(early);
    var both := [Read(early), Store];
    assert both[..1] == [Read(early)] && [Read(early)][..0] == [];
    assert Registrations([]) == [];
    assert Registrations([Read(early)]) == [];
  }

  lemma LateArrives(steps: seq<Step>, registrations: seq<Registration>, j: nat, k: nat, early: Packet, late: Packet, name: Alias)
    requires j < k < |registrations| && late.peer == registrations[j].peer && name == AliasOf(registrations, j)
    requires Midway(steps, registrations, k, [early], name, [], Some(early))
    ensures Midway(steps + [Read(late), Store], registrations, k, [early, late], name, [late], Some(early))
  {
    hide Run, ChosenAlias, Registrations;
    AliasesAre(steps);
    assert registrations[..k][j] == registrations[j];
    NoRegistration(steps, Read(late));
    NoRegistration(steps + [Read(late)], Store);
    var s, middle, longer := Run(steps).value, steps + [Read(late)], steps + [Read(late), Store];
    assert longer == middle + [Store];
    var t := Perform(s, Read(late));
    RunStep(steps, Read(late), s, middle, t);
    assert [early] + [late] == [early, late] && [] + [late] == [late];
    assert t.inFlight == Some(InFlight(late, Some(name)));
    RunStep(middle, Store, t, longer, Perform(t, Store));
    forall peer ensures Perform(t, Store).table.Pending(peer) == s.table.Pending(peer) {}
  }

  lemma PendingReleased(steps: seq<Step>, registrations: seq<Registration>, k: nat, early: Packet, late: Packet, name: Alias)
    requires k < |registrations| && DistinctPeers(registrations)
    requires early.peer == registrations[k].peer && AliasOf(registrations, k) == name
    requires Midway(steps, registrations, k, [early, late], name, [late], Some(early))
    ensures var longer := steps + [Accept(registrations[k].peer, registrations[k].explicit)];
            Midway(longer, registrations, k + 1, [early, late], name, [late, early], None)
  {
    hide Run, ChosenAlias, Registrations;
    var last := registrations[k];
    assert registrations[..k] + [last] == registrations[..k + 1];
    OneMoreRegistration(steps, last);
    AliasesAre(steps);
    var s := Run(steps).value;
    var t := Perform(s, Accept(last.peer, last.explicit));
    assert [late] + [early] == [late, early];
    forall peer ensures t.table.Pending(peer) == [] {
      assert s.table.Pending(peer) == Waiting(Some(early), peer);
    }
  }

  /** For every list of registrations: all runs with these registrations keep
      every trace in reader order exactly when no two of them get one alias. */
  lemma ReaderOrderIffUnshared(registrations: seq<Registration>)
    requires DistinctPeers(registrations)
    ensures (forall steps :: Run(steps).Some? && Registrations(steps) == registrations ==> InReaderOrder(Run(steps).value))
            <==> !Shared(registrations)
  {
    hide Run, InReaderOrder, Registrations, ChosenAlias;
    if Shared(registrations) {
      var j, k :| 0 <= j < k < |registrations| && AliasOf(registrations, j) == AliasOf(registrations, k);
      var steps := SharedOutOfOrder(registrations, j, k);
    } else {
      forall steps | Run(steps).Some? && Registrations(steps) == registrations ensures InReaderOrder(Run(steps).value) {
        UnsharedInOrder(steps);
      }
    }
  }
}
