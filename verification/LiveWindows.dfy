/** The multi-scale windows of the live monitor (ai_fingerprint/live_inference.py,
    _TraceState and _emit_due_windows), with exact times. Packets are pruned as
    windows are emitted; the reference below never prunes. */
module LiveWindows {
  import opened Seqs

  datatype Packet = Packet(timestamp: real, id: nat)

  /** An emitted window: its scale, its index, and the packets it contains. */
  datatype Window = Window(size: real, index: nat, packets: seq<Packet>)

  /** The configured scales are positive and distinct. */
  predicate Scales(sizes: seq<real>) {
    && |sizes| >= 1
    && (forall k :: 0 <= k < |sizes| ==> sizes[k] > 0.0)
    && Distinct(sizes)
  }

  /** The value of a _TraceState. */
  datatype Trace = Trace(first: real, packets: seq<Packet>, next: map<real, nat>)

  predicate TraceOf(trace: Trace, sizes: seq<real>) {
    forall k :: 0 <= k < |sizes| ==> sizes[k] in trace.next
  }

  function WindowStart(first: real, size: real, index: nat): real {
    first + index as real * size
  }

  /** The packets in [start of the window, start of the next one). */
  function InWindow(packets: seq<Packet>, first: real, size: real, index: nat): seq<Packet> {
    Filter(packets, (p: Packet) =>
      WindowStart(first, size, index) <= p.timestamp < WindowStart(first, size, index + 1))
  }

  /** How many windows of a scale have ended by now: max(0, floor((now - first) / size)). */
  function Ended(first: real, size: real, now: real): nat
    requires size > 0.0
  {
    var n := ((now - first) / size).Floor;
    if n > 0 then n else 0
  }

  function Max(a: nat, b: nat): nat {
    if a > b then a else b
  }

  /** The windows from..upto of one scale. */
  function Emission(packets: seq<Packet>, first: real, size: real, from: nat, upto: nat): (r: seq<Window>)
    decreases upto - from
  {
    if from >= upto then []
    else [Window(size, from, InWindow(packets, first, size, from))] + Emission(packets, first, size, from + 1, upto)
  }

  /** The windows one tick emits for the scales sizes, in order. */
  function Due(trace: Trace, sizes: seq<real>, now: real): seq<Window>
    requires TraceOf(trace, sizes) && forall k :: 0 <= k < |sizes| ==> sizes[k] > 0.0
  {
    if sizes == [] then [] else
    var size := sizes[|sizes| - 1];
    Due(trace, sizes[..|sizes| - 1], now)
    + Emission(trace.packets, trace.first, size, trace.next[size], Ended(trace.first, size, now))
  }

  /** The window counters after a tick at time now. */
  function Counted(trace: Trace, sizes: seq<real>, now: real): map<real, nat>
    requires TraceOf(trace, sizes) && forall k :: 0 <= k < |sizes| ==> sizes[k] > 0.0
  {
    map size | size in trace.next ::
      if size in sizes then Max(trace.next[size], Ended(trace.first, size, now)) else trace.next[size]
  }

  /** The earliest time some scale still needs. */
  function EarliestNeeded(first: real, next: map<real, nat>, sizes: seq<real>): (r: real)
    requires |sizes| >= 1 && forall k :: 0 <= k < |sizes| ==> sizes[k] in next
    ensures forall k :: 0 <= k < |sizes| ==> r <= WindowStart(first, sizes[k], next[sizes[k]])
    ensures exists k :: 0 <= k < |sizes| && r == WindowStart(first, sizes[k], next[sizes[k]])
  {
    var last := WindowStart(first, sizes[|sizes| - 1], next[sizes[|sizes| - 1]]);
    if |sizes| == 1 then last else
    var before := EarliestNeeded(first, next, sizes[..|sizes| - 1]);
    assert forall k :: 0 <= k < |sizes| - 1 ==> sizes[..|sizes| - 1][k] == sizes[k];
    if last < before then last else before
  }

  /** popleft while the front packet is older than needed. */
  function Prune(packets: seq<Packet>, needed: real): seq<Packet> {
    if packets != [] && packets[0].timestamp < needed then Prune(packets[1..], needed) else packets
  }

  /** One tick on one trace: the new state and what was emitted. */
  function Tick(trace: Trace, sizes: seq<real>, now: real): (Trace, seq<Window>)
    requires Scales(sizes) && TraceOf(trace, sizes)
  {
    var next := Counted(trace, sizes, now);
    (Trace(trace.first, Prune(trace.packets, EarliestNeeded(trace.first, next, sizes)), next),
     Due(trace, sizes, now))
  }

  lemma FloorAtLeast(x: real, n: int)
    ensures n as real <= x <==> n <= x.Floor
  {
    if n as real <= x {
      assert (n as real) < (x.Floor + 1) as real;
    }
    assert n <= x.Floor ==> n as real <= x.Floor as real;
  }

  /** The loop test of _emit_due_windows: window index has ended. */
  lemma WindowEnded(first: real, size: real, index: nat, now: real)
    requires size > 0.0
    ensures WindowStart(first, size, index) + size == WindowStart(first, size, index + 1)
    ensures WindowStart(first, size, index + 1) <= now <==> index < Ended(first, size, now)
  {
    var x := (now - first) / size;
    assert x * size == now - first;
    FloorAtLeast(x, index + 1);
    if (index + 1) as real <= x {
      Times((index + 1) as real, x, size);
    } else {
      TimesStrict(x, (index + 1) as real, size);
    }
  }

  lemma Times(a: real, b: real, c: real)
    requires a <= b && c > 0.0
    ensures a * c <= b * c
  {
    assert (b - a) * c >= 0.0;
  }

  lemma TimesStrict(a: real, b: real, c: real)
    requires a < b && c > 0.0
    ensures a * c < b * c
  {
    assert (b - a) * c > 0.0;
  }

  lemma {:induction false} EmissionExtended(packets: seq<Packet>, first: real, size: real, from: nat, upto: nat)
    requires from <= upto
    ensures Emission(packets, first, size, from, upto + 1) ==
            Emission(packets, first, size, from, upto) + [Window(size, upto, InWindow(packets, first, size, upto))]
    decreases upto - from
  {
    if from < upto {
      EmissionExtended(packets, first, size, from + 1, upto);
      var head := [Window(size, from, InWindow(packets, first, size, from))];
      assert Emission(packets, first, size, from, upto + 1) == head + Emission(packets, first, size, from + 1, upto + 1);
    } else {
      assert Emission(packets, first, size, upto + 1, upto + 1) == [];
    }
  }

  class TraceState {
    const firstEpoch: real
    var packets: seq<Packet>
    var nextWindowIndex: map<real, nat>

    function Abstract(): Trace
      reads this
    {
      Trace(firstEpoch, packets, nextWindowIndex)
    }

    constructor (firstEpoch: real, windowSizes: seq<real>)
      ensures Abstract() == Trace(firstEpoch, [], map size | size in windowSizes :: 0)
    {
      this.firstEpoch := firstEpoch;
      packets := [];
      nextWindowIndex := map size | size in windowSizes :: 0;
    }

    method Append(packet: Packet)
      modifies this`packets
      ensures packets == old(packets) + [packet]
    {
      packets := packets + [packet];
    }

    /** The inner loop of _emit_due_windows: emit one scale up to now. */
    method EmitScale(size: real, now: real) returns (emitted: seq<Window>)
      requires size > 0.0 && size in nextWindowIndex
      modifies this`nextWindowIndex
      ensures emitted == Emission(packets, firstEpoch, size, old(nextWindowIndex[size]), Ended(firstEpoch, size, now))
      ensures nextWindowIndex == old(nextWindowIndex)[size := Max(old(nextWindowIndex[size]), Ended(firstEpoch, size, now))]
    {
      emitted := [];
      ghost var from, ended := nextWindowIndex[size], Ended(firstEpoch, size, now);
      while true
        invariant size in nextWindowIndex && from <= nextWindowIndex[size] <= Max(from, ended)
        invariant nextWindowIndex == old(nextWindowIndex)[size := nextWindowIndex[size]]
        invariant emitted == Emission(packets, firstEpoch, size, from, nextWindowIndex[size])
        decreases Max(from, ended) - nextWindowIndex[size]
      {
        var index := nextWindowIndex[size];
        var startEpoch := WindowStart(firstEpoch, size, index);
        var endEpoch := startEpoch + size;
        WindowEnded(firstEpoch, size, index, now);
        if endEpoch > now { break; }
        EmissionExtended(packets, firstEpoch, size, from, index);
        emitted := emitted + [Window(size, index, InWindow(packets, firstEpoch, size, index))];
        nextWindowIndex := nextWindowIndex[size := index + 1];
      }
    }

    /** The loop over the scales. */
    method EmitScales(windowSizes: seq<real>, now: real) returns (emitted: seq<Window>)
      requires Scales(windowSizes) && TraceOf(Abstract(), windowSizes)
      modifies this`nextWindowIndex
      ensures emitted == Due(old(Abstract()), windowSizes, now)
      ensures nextWindowIndex == Counted(old(Abstract()), windowSizes, now)
    {
      ghost var before := Abstract();
      emitted := [];
      for k := 0 to |windowSizes|
        invariant nextWindowIndex == Counted(before, windowSizes[..k], now)
        invariant emitted == Due(before, windowSizes[..k], now)
      {
        ScaleCounted(before, windowSizes, k, now);
        var scale := EmitScale(windowSizes[k], now);
        emitted := emitted + scale;
      }
      assert windowSizes[..|windowSizes|] == windowSizes;
    }

    /** The closing popleft loop. */
    method DropOlderThan(needed: real)
      modifies this`packets
      ensures packets == Prune(old(packets), needed)
    {
      while packets != [] && packets[0].timestamp < needed
        invariant Prune(packets, needed) == Prune(old(packets), needed)
        decreases |packets|
      {
        packets := packets[1..];
      }
    }

    /** One trace's part of _emit_due_windows. */
    method EmitDueWindows(windowSizes: seq<real>, now: real) returns (emitted: seq<Window>)
      requires Scales(windowSizes) && TraceOf(Abstract(), windowSizes)
      modifies this
      ensures (Abstract(), emitted) == Tick(old(Abstract()), windowSizes, now)
      ensures TraceOf(Abstract(), windowSizes)
    {
      emitted := EmitScales(windowSizes, now);
      DropOlderThan(EarliestNeeded(firstEpoch, nextWindowIndex, windowSizes));
    }
  }

  lemma ScaleCounted(trace: Trace, sizes: seq<real>, k: nat, now: real)
    requires Scales(sizes) && TraceOf(trace, sizes) && k < |sizes|
    ensures sizes[k] in trace.next
    ensures Counted(trace, sizes[..k], now)[sizes[k]] == trace.next[sizes[k]]
    ensures Counted(trace, sizes[..k + 1], now) ==
            Counted(trace, sizes[..k], now)[sizes[k] := Max(trace.next[sizes[k]], Ended(trace.first, sizes[k], now))]
    ensures Due(trace, sizes[..k + 1], now) ==
            Due(trace, sizes[..k], now)
            + Emission(trace.packets, trace.first, sizes[k], trace.next[sizes[k]], Ended(trace.first, sizes[k], now))
  {
    assert sizes[..k + 1][..k] == sizes[..k];
    assert sizes[k] !in sizes[..k];
    assert forall s :: s in sizes[..k + 1] <==> s in sizes[..k] || s == sizes[k];
  }

  // ----- runs: pruning never changes what is emitted -----

  datatype Event = Appended(packet: Packet) | Ticked(now: real)

  /** The state after some events and everything emitted so far. */
  datatype Live = Live(trace: Trace, emitted: seq<Window>)

  /** A trace is created by its first packet. */
  function Created(packet: Packet, sizes: seq<real>): Live {
    Live(Trace(packet.timestamp, [packet], map size | size in sizes :: 0), [])
  }

  function Run(packet: Packet, sizes: seq<real>, events: seq<Event>): (r: Live)
    requires Scales(sizes)
    ensures TraceOf(r.trace, sizes) && r.trace.first == packet.timestamp
    ensures forall size :: size in r.trace.next <==> size in sizes
  {
    if events == [] then Created(packet, sizes) else
    var before := Run(packet, sizes, events[..|events| - 1]);
    match events[|events| - 1]
    case Appended(p) => before.(trace := before.trace.(packets := before.trace.packets + [p]))
    case Ticked(now) =>
      var (trace, windows) := Tick(before.trace, sizes, now);
      Live(trace, before.emitted + windows)
  }

  /** Every packet the trace has received, in order. */
  function History(packet: Packet, events: seq<Event>): seq<Packet> {
    if events == [] then [packet] else
    var before := History(packet, events[..|events| - 1]);
    match events[|events| - 1]
    case Appended(p) => before + [p]
    case Ticked(_) => before
  }

  /** How many windows of a scale have ended at some tick: the maximum over the
      ticks of max(0, floor((now - first) / size)). */
  function EverEnded(first: real, size: real, events: seq<Event>): nat
    requires size > 0.0
  {
    if events == [] then 0 else
    var before := EverEnded(first, size, events[..|events| - 1]);
    match events[|events| - 1]
    case Appended(_) => before
    case Ticked(now) => Max(before, Ended(first, size, now))
  }

  /** What the monitor should emit: every tick emits, scale by scale, the
      windows that have newly ended, each with the packets of the whole history
      that fall inside it. */
  function Expected(packet: Packet, sizes: seq<real>, events: seq<Event>): seq<Window>
    requires Scales(sizes)
  {
    if events == [] then [] else
    var before := events[..|events| - 1];
    match events[|events| - 1]
    case Appended(_) => Expected(packet, sizes, before)
    case Ticked(now) => Expected(packet, sizes, before) + Newly(packet, sizes, before, now)
  }

  /** The windows that a tick at now should add after the events before. */
  function Newly(packet: Packet, sizes: seq<real>, before: seq<Event>, now: real): seq<Window>
    requires forall k :: 0 <= k < |sizes| ==> sizes[k] > 0.0
  {
    if sizes == [] then [] else
    var size, first := sizes[|sizes| - 1], packet.timestamp;
    Newly(packet, sizes[..|sizes| - 1], before, now)
    + Emission(History(packet, before), first, size, EverEnded(first, size, before), Ended(first, size, now))
  }

  /** The kept packets are the history without a prefix that no scale needs. */
  ghost predicate KeepsNeeded(trace: Trace, sizes: seq<real>, history: seq<Packet>, dropped: nat)
    requires Scales(sizes) && TraceOf(trace, sizes)
  {
    && dropped <= |history| && trace.packets == history[dropped..]
    && forall k :: 0 <= k < dropped ==> history[k].timestamp < EarliestNeeded(trace.first, trace.next, sizes)
  }

  lemma {:induction false} PruneDrops(packets: seq<Packet>, needed: real) returns (k: nat)
    ensures k <= |packets| && Prune(packets, needed) == packets[k..]
    ensures forall i :: 0 <= i < k ==> packets[i].timestamp < needed
  {
    if packets != [] && packets[0].timestamp < needed {
      var rest := PruneDrops(packets[1..], needed);
      k := rest + 1;
      assert packets[1..][rest..] == packets[k..];
      forall i | 0 <= i < k ensures packets[i].timestamp < needed {
        if i > 0 { assert packets[1..][i - 1] == packets[i]; }
      }
    } else {
      k := 0;
    }
  }

  lemma WindowStartGrows(first: real, size: real, i: nat, j: nat)
    requires size > 0.0 && i <= j
    ensures WindowStart(first, size, i) <= WindowStart(first, size, j)
  {
    Times(i as real, j as real, size);
  }

  /** Counters only grow, so what was not needed stays unneeded. */
  lemma NeededGrows(first: real, next: map<real, nat>, next': map<real, nat>, sizes: seq<real>)
    requires Scales(sizes)
    requires forall k :: 0 <= k < |sizes| ==> sizes[k] in next && sizes[k] in next' && next[sizes[k]] <= next'[sizes[k]]
    ensures EarliestNeeded(first, next, sizes) <= EarliestNeeded(first, next', sizes)
  {
    var k :| 0 <= k < |sizes| && EarliestNeeded(first, next', sizes) == WindowStart(first, sizes[k], next'[sizes[k]]);
    WindowStartGrows(first, sizes[k], next[sizes[k]], next'[sizes[k]]);
  }

  /** A window not yet emitted holds the same packets before and after pruning. */
  lemma PrunedWindow(trace: Trace, sizes: seq<real>, history: seq<Packet>, dropped: nat, k: nat, index: nat)
    requires Scales(sizes) && TraceOf(trace, sizes) && KeepsNeeded(trace, sizes, history, dropped)
    requires k < |sizes| && trace.next[sizes[k]] <= index
    ensures InWindow(trace.packets, trace.first, sizes[k], index) == InWindow(history, trace.first, sizes[k], index)
  {
    var inside := (p: Packet) =>
      WindowStart(trace.first, sizes[k], index) <= p.timestamp < WindowStart(trace.first, sizes[k], index + 1);
    WindowStartGrows(trace.first, sizes[k], trace.next[sizes[k]], index);
    assert history == history[..dropped] + history[dropped..];
    FilterAppend(history[..dropped], history[dropped..], inside);
    FilterNothing(history[..dropped], inside);
  }

  lemma {:induction false} PrunedEmission(
      trace: Trace, sizes: seq<real>, history: seq<Packet>, dropped: nat, k: nat, from: nat, upto: nat)
    requires Scales(sizes) && TraceOf(trace, sizes) && KeepsNeeded(trace, sizes, history, dropped)
    requires k < |sizes| && trace.next[sizes[k]] <= from
    ensures Emission(trace.packets, trace.first, sizes[k], from, upto) == Emission(history, trace.first, sizes[k], from, upto)
    decreases upto - from
  {
    if from < upto {
      PrunedWindow(trace, sizes, history, dropped, k, from);
      PrunedEmission(trace, sizes, history, dropped, k, from + 1, upto);
    }
  }

  lemma {:induction false} PrunedDue(
      packet: Packet, sizes: seq<real>, before: seq<Event>, now: real, trace: Trace, dropped: nat, n: nat)
    requires Scales(sizes) && TraceOf(trace, sizes) && n <= |sizes| && trace.first == packet.timestamp
    requires KeepsNeeded(trace, sizes, History(packet, before), dropped)
    requires forall k :: 0 <= k < |sizes| ==> trace.next[sizes[k]] == EverEnded(trace.first, sizes[k], before)
    ensures Due(trace, sizes[..n], now) == Newly(packet, sizes[..n], before, now)
  {
    if n > 0 {
      PrunedDue(packet, sizes, before, now, trace, dropped, n - 1);
      assert sizes[..n][..n - 1] == sizes[..n - 1];
      PrunedEmission(trace, sizes, History(packet, before), dropped, n - 1,
                     trace.next[sizes[n - 1]], Ended(trace.first, sizes[n - 1], now));
    }
  }

  lemma TickKeeps(trace: Trace, sizes: seq<real>, history: seq<Packet>, dropped: nat, now: real) returns (dropped': nat)
    requires Scales(sizes) && TraceOf(trace, sizes) && KeepsNeeded(trace, sizes, history, dropped)
    ensures TraceOf(Tick(trace, sizes, now).0, sizes)
    ensures KeepsNeeded(Tick(trace, sizes, now).0, sizes, history, dropped')
  {
    var next := Counted(trace, sizes, now);
    var needed := EarliestNeeded(trace.first, next, sizes);
    NeededGrows(trace.first, trace.next, next, sizes);
    var more := PruneDrops(trace.packets, needed);
    dropped' := dropped + more;
    assert history[dropped..][more..] == history[dropped'..];
    forall k | 0 <= k < dropped' ensures history[k].timestamp < needed {
      if k >= dropped { assert trace.packets[k - dropped] == history[k]; }
    }
  }

  /** After any appends, in any timestamp order, and any ticks: the monitor has
      emitted exactly what the unpruned history calls for, and each counter is
      the maximum over the ticks of the number of ended windows. */
  lemma {:induction false} PruningIsInvisible(packet: Packet, sizes: seq<real>, events: seq<Event>) returns (dropped: nat)
    requires Scales(sizes)
    ensures var live := Run(packet, sizes, events);
            && live.emitted == Expected(packet, sizes, events)
            && (forall k :: 0 <= k < |sizes| ==>
                  live.trace.next[sizes[k]] == EverEnded(packet.timestamp, sizes[k], events))
            && KeepsNeeded(live.trace, sizes, History(packet, events), dropped)
  {
    dropped := 0;
    if events != [] {
      var earlier := events[..|events| - 1];
      var before := Run(packet, sizes, earlier);
      dropped := PruningIsInvisible(packet, sizes, earlier);
      match events[|events| - 1] {
        case Appended(p) =>
          var history := History(packet, earlier);
          assert (history + [p])[dropped..] == history[dropped..] + [p];
        case Ticked(now) =>
          assert sizes[..|sizes|] == sizes;
          PrunedDue(packet, sizes, earlier, now, before.trace, dropped, |sizes|);
          dropped := TickKeeps(before.trace, sizes, History(packet, earlier), dropped, now);
      }
    }
  }

  /** The main result on values: what the pruning monitor emits is what the
      unpruned reference emits, and its counters are the reference's counters. */
  lemma EmittedAsExpected(packet: Packet, sizes: seq<real>, events: seq<Event>)
    requires Scales(sizes)
    ensures Run(packet, sizes, events).emitted == Expected(packet, sizes, events)
    ensures forall k :: 0 <= k < |sizes| ==>
              Run(packet, sizes, events).trace.next[sizes[k]] == EverEnded(packet.timestamp, sizes[k], events)
  {
    var _ := PruningIsInvisible(packet, sizes, events);
  }

  /** The emitted windows of one scale. */
  function OfScale(windows: seq<Window>, size: real): seq<Window> {
    Filter(windows, OfSize(size))
  }

  function OfSize(size: real): Window -> bool {
    (w: Window) => w.size == size
  }

  lemma {:induction false} EmissionIndices(packets: seq<Packet>, first: real, size: real, from: nat, upto: nat)
    ensures var windows := Emission(packets, first, size, from, upto);
            && |windows| == (if from < upto then upto - from else 0)
            && forall k :: 0 <= k < |windows| ==> windows[k].index == from + k && windows[k].size == size
    decreases upto - from
  {
    if from < upto { EmissionIndices(packets, first, size, from + 1, upto); }
  }

  lemma NothingNew(packet: Packet, before: seq<Event>, now: real)
    ensures Newly(packet, [], before, now) == []
  {
  }

  lemma NewlyNext(packet: Packet, sizes: seq<real>, before: seq<Event>, now: real, n: nat)
    requires Scales(sizes) && n < |sizes|
    ensures var first, size := packet.timestamp, sizes[n];
            Newly(packet, sizes[..n + 1], before, now) ==
            Newly(packet, sizes[..n], before, now)
            + Emission(History(packet, before), first, size, EverEnded(first, size, before), Ended(first, size, now))
  {
    hide Emission, EverEnded, Ended, History;
    assert sizes[..n + 1][..n] == sizes[..n];
  }

  lemma {:induction false} NewlyOfScale(packet: Packet, sizes: seq<real>, before: seq<Event>, now: real, n: nat, k: nat)
    requires Scales(sizes) && n <= |sizes| && k < |sizes|
    ensures var first := packet.timestamp;
            OfScale(Newly(packet, sizes[..n], before, now), sizes[k]) ==
            if k < n
            then Emission(History(packet, before), first, sizes[k], EverEnded(first, sizes[k], before), Ended(first, sizes[k], now))
            else []
  {
    hide Emission, EverEnded, Ended, History, Newly;
    if n == 0 {
      NothingNew(packet, before, now);
    } else {
      var first, size := packet.timestamp, sizes[n - 1];
      NewlyOfScale(packet, sizes, before, now, n - 1, k);
      NewlyNext(packet, sizes, before, now, n - 1);
      var last := Emission(History(packet, before), first, size, EverEnded(first, size, before), Ended(first, size, now));
      FilterAppend(Newly(packet, sizes[..n - 1], before, now), last, OfSize(sizes[k]));
      EmissionIndices(History(packet, before), first, size, EverEnded(first, size, before), Ended(first, size, now));
      if k == n - 1 { FilterEverything(last, OfSize(sizes[k])); } else { FilterNothing(last, OfSize(sizes[k])); }
    }
  }

  /** Each scale emits the indices 0, 1, 2, ... once each and in order, up to the
      value of its counter. */
  lemma {:induction false} IndicesOnceEach(packet: Packet, sizes: seq<real>, events: seq<Event>, k: nat)
    requires Scales(sizes) && k < |sizes|
    ensures var windows := OfScale(Run(packet, sizes, events).emitted, sizes[k]);
            && |windows| == EverEnded(packet.timestamp, sizes[k], events)
            && forall i :: 0 <= i < |windows| ==> windows[i].index == i
    decreases |events|
  {
    if events != [] {
      var earlier := events[..|events| - 1];
      IndicesOnceEach(packet, sizes, earlier, k);
      EmittedAsExpected(packet, sizes, earlier);
      EmittedAsExpected(packet, sizes, events);
      if events[|events| - 1].Ticked? {
        var now, size, first := events[|events| - 1].now, sizes[k], packet.timestamp;
        assert sizes[..|sizes|] == sizes;
        FilterAppend(Expected(packet, sizes, earlier), Newly(packet, sizes, earlier, now), (w: Window) => w.size == size);
        NewlyOfScale(packet, sizes, earlier, now, |sizes|, k);
        EmissionIndices(History(packet, earlier), first, size, EverEnded(first, size, earlier), Ended(first, size, now));
      }
    }
  }

  ghost function AllAbstract(traces: seq<TraceState>): (r: seq<Trace>)
    reads traces
    ensures |r| == |traces| && forall k :: 0 <= k < |traces| ==> r[k] == traces[k].Abstract()
  {
    if traces == [] then [] else AllAbstract(traces[..|traces| - 1]) + [traces[|traces| - 1].Abstract()]
  }

  /** _emit_due_windows: one tick over all traces. */
  method EmitDueWindows(traces: seq<TraceState>, windowSizes: seq<real>, now: real) returns (emitted: seq<seq<Window>>)
    requires Scales(windowSizes) && Distinct(traces)
    requires forall k :: 0 <= k < |traces| ==> TraceOf(traces[k].Abstract(), windowSizes)
    modifies traces
    ensures |emitted| == |traces|
    ensures forall k :: 0 <= k < |traces| ==>
              (traces[k].Abstract(), emitted[k]) == Tick(old(traces[k].Abstract()), windowSizes, now)
  {
    hide Tick, TraceOf, Scales;
    ghost var before := AllAbstract(traces);
    emitted := [];
    for n := 0 to |traces|
      invariant |emitted| == n
      invariant forall k :: 0 <= k < n ==> (traces[k].Abstract(), emitted[k]) == Tick(before[k], windowSizes, now)
      invariant forall k :: n <= k < |traces| ==> traces[k].Abstract() == before[k]
    {
      assert TraceOf(before[n], windowSizes) && forall k :: n < k < |traces| ==> traces[k] != traces[n];
      var windows := traces[n].EmitDueWindows(windowSizes, now);
      emitted := emitted + [windows];
    }
  }
}
