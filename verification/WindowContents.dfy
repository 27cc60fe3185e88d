/** What every emitted window holds, and when it is emitted, in terms of the events
    of a run alone. */
module WindowContents {
  import opened Results
  import opened Seqs
  import opened LiveWindows

  // ----- arrivals -----

  /** Arrival 0 is the packet that created the trace; arrival k is what event k - 1
      appended, if it appended something. */
  function Arrival(packet: Packet, events: seq<Event>, k: nat): Option<Packet> {
    if k == 0 then Some(packet)
    else if k <= |events| && events[k - 1].Appended? then Some(events[k - 1].packet)
    else None
  }

  /** The history is the arrivals, in order. */
  lemma {:induction false} HistoryArrivals(packet: Packet, events: seq<Event>, m: nat) returns (at: seq<nat>)
    requires m <= |events|
    ensures Increasing(at) && |at| == |History(packet, events[..m])|
    ensures forall i :: 0 <= i < |at| ==> at[i] <= m && Arrival(packet, events, at[i]) == Some(History(packet, events[..m])[i])
    ensures forall k: nat :: k in at <==> k <= m && Arrival(packet, events, k).Some?
  {
    if m == 0 {
      assert events[..0] == [];
      at := [0];
    } else {
      at := HistoryArrivals(packet, events, m - 1);
      assert events[..m][..m - 1] == events[..m - 1];
      if events[m - 1].Appended? { at := OnePlaceMore(at, m); }
    }
  }

  // ----- what one tick emits -----

  /** The windows that event m emits. */
  function Output(packet: Packet, sizes: seq<real>, events: seq<Event>, m: nat): (windows: seq<Window>)
    requires Scales(sizes) && m < |events|
    ensures Run(packet, sizes, events[..m]).emitted + windows == Run(packet, sizes, events[..m + 1]).emitted
  {
    assert events[..m + 1][..m] == events[..m];
    Run(packet, sizes, events[..m + 1]).emitted[|Run(packet, sizes, events[..m]).emitted|..]
  }

  lemma OutputIsNew(packet: Packet, sizes: seq<real>, events: seq<Event>, m: nat)
    requires Scales(sizes) && m < |events|
    ensures Output(packet, sizes, events, m) ==
            if events[m].Ticked? then Newly(packet, sizes, events[..m], events[m].now) else []
  {
    hide Newly, Run;
    assert events[..m + 1][..m] == events[..m];
    EmittedAsExpected(packet, sizes, events[..m]);
    EmittedAsExpected(packet, sizes, events[..m + 1]);
    SamePrefix(Expected(packet, sizes, events[..m]), Output(packet, sizes, events, m),
               if events[m].Ticked? then Newly(packet, sizes, events[..m], events[m].now) else []);
  }

  lemma SamePrefix<T>(before: seq<T>, a: seq<T>, b: seq<T>)
    ensures before + a == before + b ==> a == b
  {
    assert (before + a)[|before|..] == a && (before + b)[|before|..] == b;
  }

  lemma {:induction false} EmissionMember(packets: seq<Packet>, first: real, size: real, from: nat, upto: nat, w: Window)
    requires w in Emission(packets, first, size, from, upto)
    ensures from <= w.index < upto && w == Window(size, w.index, InWindow(packets, first, size, w.index))
    decreases upto - from
  {
    if w != Emission(packets, first, size, from, upto)[0] { EmissionMember(packets, first, size, from + 1, upto, w); }
  }

  lemma {:induction false} NewlyMember(packet: Packet, sizes: seq<real>, before: seq<Event>, now: real, w: Window)
    requires (forall k :: 0 <= k < |sizes| ==> sizes[k] > 0.0) && w in Newly(packet, sizes, before, now)
    ensures w.size in sizes && w.packets == InWindow(History(packet, before), packet.timestamp, w.size, w.index)
  {
    hide InWindow, History, EverEnded, Ended, Emission;
    var size, first := sizes[|sizes| - 1], packet.timestamp;
    if w in Newly(packet, sizes[..|sizes| - 1], before, now) {
      NewlyMember(packet, sizes[..|sizes| - 1], before, now, w);
    } else {
      EmissionMember(History(packet, before), first, size, EverEnded(first, size, before), Ended(first, size, now), w);
    }
  }

  /** The time lies in [first + i*s, first + (i+1)*s). */
  predicate Spans(first: real, size: real, index: nat, time: real) {
    first + index as real * size <= time < first + (index + 1) as real * size
  }

  /** A window's packets are the history's at the places in its span, in order. */
  lemma InWindowPlaces(packets: seq<Packet>, first: real, size: real, index: nat) returns (at: seq<nat>)
    ensures Increasing(at) && |at| == |InWindow(packets, first, size, index)|
    ensures forall i :: 0 <= i < |at| ==> at[i] < |packets| && packets[at[i]] == InWindow(packets, first, size, index)[i]
    ensures forall k: nat :: k in at <==> k < |packets| && Spans(first, size, index, packets[k].timestamp)
  {
    var inside := (p: Packet) => Spans(first, size, index, p.timestamp);
    SameFilter(packets, first, size, index, inside);
    at := FilterPlaces(packets, inside);
  }

  lemma {:induction false} SameFilter(packets: seq<Packet>, first: real, size: real, index: nat, inside: Packet -> bool)
    requires forall p :: inside(p) == Spans(first, size, index, p.timestamp)
    ensures InWindow(packets, first, size, index) == Filter(packets, inside)
  {
    if packets != [] { SameFilter(packets[..|packets| - 1], first, size, index, inside); }
  }

  /** Every window that a tick emits holds exactly the packets that arrived before
      the tick with a time in [first + i*s, first + (i+1)*s), each as often as it
      arrived and in the order of arrival. */
  lemma WindowHolds(packet: Packet, sizes: seq<real>, events: seq<Event>, m: nat, w: Window) returns (at: seq<nat>)
    requires Scales(sizes) && m < |events| && w in Output(packet, sizes, events, m)
    ensures events[m].Ticked? && w.size in sizes
    ensures Increasing(at) && |at| == |w.packets|
    ensures forall i :: 0 <= i < |at| ==> Arrival(packet, events, at[i]) == Some(w.packets[i])
    ensures forall k: nat :: k in at <==>
              && k <= m && Arrival(packet, events, k).Some?
              && Spans(packet.timestamp, w.size, w.index, Arrival(packet, events, k).value.timestamp)
  {
    hide Arrival, History, InWindow, Run, Spans;
    OutputIsNew(packet, sizes, events, m);
    NewlyMember(packet, sizes, events[..m], events[m].now, w);
    at := HistoryInSpan(packet, events, m, w.size, w.index);
  }

  lemma HistoryInSpan(packet: Packet, events: seq<Event>, m: nat, size: real, index: nat) returns (at: seq<nat>)
    requires m <= |events|
    ensures var packets := InWindow(History(packet, events[..m]), packet.timestamp, size, index);
            Increasing(at) && |at| == |packets| && forall i :: 0 <= i < |at| ==> Arrival(packet, events, at[i]) == Some(packets[i])
    ensures forall k: nat :: k in at <==>
              k <= m && Arrival(packet, events, k).Some? && Spans(packet.timestamp, size, index, Arrival(packet, events, k).value.timestamp)
  {
    hide Arrival, History, InWindow, Spans;
    var history := History(packet, events[..m]);
    var arrivals := HistoryArrivals(packet, events, m);
    var places := InWindowPlaces(history, packet.timestamp, size, index);
    at := Through(arrivals, places);
    forall k: nat | k in arrivals
      ensures k in at <==> Spans(packet.timestamp, size, index, Arrival(packet, events, k).value.timestamp)
    {
      var i :| 0 <= i < |arrivals| && arrivals[i] == k;
      assert Arrival(packet, events, k) == Some(history[i]);
    }
  }

  /** The places at which a list is reached through another one. */
  lemma Through(outer: seq<nat>, inner: seq<nat>) returns (at: seq<nat>)
    requires Increasing(outer) && Increasing(inner) && forall i :: 0 <= i < |inner| ==> inner[i] < |outer|
    ensures Increasing(at) && |at| == |inner| && forall i :: 0 <= i < |at| ==> at[i] == outer[inner[i]]
    ensures forall i: nat :: i < |outer| ==> (outer[i] in at <==> i in inner)
    ensures forall k :: k in at ==> k in outer
  {
    at := seq(|inner|, i requires 0 <= i < |inner| => outer[inner[i]]);
    forall i: nat | i < |outer| ensures outer[i] in at <==> i in inner {
      if outer[i] in at {
        var j :| 0 <= j < |at| && at[j] == outer[i];
        assert inner[j] == i;
      }
      if i in inner {
        var j :| 0 <= j < |inner| && inner[j] == i;
        assert at[j] == outer[i];
      }
    }
  }

  // ----- when -----

  /** A window counts as ended once some tick was not before its end. */
  lemma {:induction false} EverEndedIs(first: real, size: real, events: seq<Event>, index: nat)
    requires size > 0.0
    ensures index < EverEnded(first, size, events) <==>
            exists j :: 0 <= j < |events| && events[j].Ticked? && first + (index + 1) as real * size <= events[j].now
  {
    if events != [] {
      var before := events[..|events| - 1];
      EverEndedIs(first, size, before, index);
      if events[|events| - 1].Ticked? { WindowEnded(first, size, index, events[|events| - 1].now); }
      assert forall j :: 0 <= j < |before| ==> before[j] == events[j];
    }
  }

  /** Window i of a scale is emitted at the first tick that is not before its end
      first + (i+1)*s, and at no other. */
  lemma EmittedAtFirstTick(packet: Packet, sizes: seq<real>, events: seq<Event>, m: nat, k: nat, index: nat)
    requires Scales(sizes) && m < |events| && k < |sizes|
    ensures var end := packet.timestamp + (index + 1) as real * sizes[k];
            Emits(Output(packet, sizes, events, m), sizes[k], index) <==>
            && events[m].Ticked? && end <= events[m].now
            && forall j :: 0 <= j < m && events[j].Ticked? ==> events[j].now < end
  {
    hide Newly, Run, EverEnded, Ended, WindowStart, Emits;
    OutputIsNew(packet, sizes, events, m);
    if events[m].Ticked? {
      NewlyEmits(packet, sizes, events[..m], events[m].now, k, index);
      EverEndedIs(packet.timestamp, sizes[k], events[..m], index);
      WindowEnded(packet.timestamp, sizes[k], index, events[m].now);
      EndIs(packet.timestamp, sizes[k], index);
      assert forall j :: 0 <= j < m ==> events[..m][j] == events[j];
    } else {
      NoneEmitted(sizes[k], index);
    }
  }

  /** Some window of the list has this size and index. */
  predicate Emits(windows: seq<Window>, size: real, index: nat) {
    exists i :: 0 <= i < |windows| && windows[i].size == size && windows[i].index == index
  }

  lemma NoneEmitted(size: real, index: nat)
    ensures !Emits([], size, index)
  {
  }

  lemma EndIs(first: real, size: real, index: nat)
    ensures WindowStart(first, size, index + 1) == first + (index + 1) as real * size
  {
  }

  lemma NewlyEmits(packet: Packet, sizes: seq<real>, before: seq<Event>, now: real, k: nat, index: nat)
    requires Scales(sizes) && k < |sizes|
    ensures Emits(Newly(packet, sizes, before, now), sizes[k], index) <==>
            EverEnded(packet.timestamp, sizes[k], before) <= index < Ended(packet.timestamp, sizes[k], now)
  {
    hide Newly, EverEnded, Ended, History, Emission, OfScale, Emits;
    var first, size := packet.timestamp, sizes[k];
    assert sizes[..|sizes|] == sizes;
    NewlyOfScale(packet, sizes, before, now, |sizes|, k);
    EmissionEmits(History(packet, before), first, size, EverEnded(first, size, before), Ended(first, size, now), index);
    OfScaleEmits(Newly(packet, sizes, before, now), size, index);
  }

  lemma EmissionEmits(packets: seq<Packet>, first: real, size: real, from: nat, upto: nat, index: nat)
    ensures Emits(Emission(packets, first, size, from, upto), size, index) <==> from <= index < upto
  {
    hide Emission;
    EmissionIndices(packets, first, size, from, upto);
    var windows := Emission(packets, first, size, from, upto);
    if from <= index < upto { assert windows[index - from].index == index; }
  }

  lemma OfScaleEmits(windows: seq<Window>, size: real, index: nat)
    ensures Emits(windows, size, index) <==> Emits(OfScale(windows, size), size, index)
  {
    hide Filter;
    var at := FilterPlaces(windows, OfSize(size));
    if i :| 0 <= i < |windows| && windows[i].size == size && windows[i].index == index {
      assert i in at;
      var j :| 0 <= j < |at| && at[j] == i;
      assert OfScale(windows, size)[j] == windows[i];
    }
    if j :| 0 <= j < |at| && OfScale(windows, size)[j].size == size && OfScale(windows, size)[j].index == index {
      assert windows[at[j]] == OfScale(windows, size)[j];
    }
  }

  // ----- what is kept -----

  /** After a tick the oldest packet kept is one that some scale still needs: not
      older than the start of that scale's next window. */
  lemma OldestIsNeeded(packet: Packet, sizes: seq<real>, events: seq<Event>, now: real) returns (size: real)
    requires Scales(sizes) && events != [] && events[|events| - 1] == Ticked(now)
    ensures size in sizes && size in Run(packet, sizes, events).trace.next
    ensures var trace := Run(packet, sizes, events).trace;
            trace.packets != [] ==> packet.timestamp + trace.next[size] as real * size <= trace.packets[0].timestamp
  {
    hide Tick;
    size := TickKeepsNeeded(Run(packet, sizes, events[..|events| - 1]).trace, sizes, now);
  }

  lemma TickKeepsNeeded(before: Trace, sizes: seq<real>, now: real) returns (size: real)
    requires Scales(sizes) && TraceOf(before, sizes)
    ensures var trace := Tick(before, sizes, now).0;
            && size in sizes && size in trace.next
            && (trace.packets != [] ==> before.first + trace.next[size] as real * size <= trace.packets[0].timestamp)
  {
    hide Due, Prune, Counted, EarliestNeeded;
    var next := Counted(before, sizes, now);
    CountedScales(before, sizes, now);
    size := NeedsEarliest(before.first, next, sizes);
    OldestKept(before.packets, EarliestNeeded(before.first, next, sizes));
  }

  lemma NeedsEarliest(first: real, next: map<real, nat>, sizes: seq<real>) returns (size: real)
    requires |sizes| >= 1 && forall k :: 0 <= k < |sizes| ==> sizes[k] in next
    ensures size in sizes && size in next && EarliestNeeded(first, next, sizes) == first + next[size] as real * size
  {
    hide EarliestNeeded;
    var k :| 0 <= k < |sizes| && EarliestNeeded(first, next, sizes) == WindowStart(first, sizes[k], next[sizes[k]]);
    size := sizes[k];
  }

  lemma CountedScales(before: Trace, sizes: seq<real>, now: real)
    requires Scales(sizes) && TraceOf(before, sizes)
    ensures forall k :: 0 <= k < |sizes| ==> sizes[k] in Counted(before, sizes, now)
  {
  }

  lemma {:induction false} OldestKept(packets: seq<Packet>, needed: real)
    ensures Prune(packets, needed) != [] ==> Prune(packets, needed)[0].timestamp >= needed
  {
    if packets != [] && packets[0].timestamp < needed { OldestKept(packets[1..], needed); }
  }
}
