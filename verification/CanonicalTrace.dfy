/** What a canonical trace holds, row by row of the client's files, with the packet's
    time and index written out. */
module CanonicalTrace {
  import opened Seqs
  import opened Sorting
  import opened ConnectionChoice
  import opened Stitching

  /** A row of a file: the place of the file among the entries, and of the row. */
  datatype Source = Source(file: nat, row: nat)

  predicate IsSource(entries: seq<Entry>, wanted: seq<Connection>, s: Source) {
    s.file < |entries| && s.row < |entries[s.file].rows| && entries[s.file].connection in wanted
  }

  /** The packet is the row's: its time counts from the epoch of the file, its index
      tells chunk, connection and row, and its other fields are as they are. */
  predicate ComesFrom(entries: seq<Entry>, wanted: seq<Connection>, s: Source, p: Packet) {
    && IsSource(entries, wanted, s)
    && var e := entries[s.file];
       && 1 <= p.connection <= |wanted| && wanted[p.connection - 1] == e.connection
       && p.timestamp == e.baseEpoch + e.rows[s.row].relative
       && p.fields == e.rows[s.row].fields
       && p.index == e.chunk * 1_000_000_000 + p.connection * 10_000_000 + s.row + 1
  }

  /** from lists every row of the client's files once, and each packet's own. */
  ghost predicate Traces(entries: seq<Entry>, wanted: seq<Connection>, packets: seq<Packet>, from: seq<Source>) {
    && |from| == |packets| && Distinct(from)
    && (forall k :: 0 <= k < |from| ==> ComesFrom(entries, wanted, from[k], packets[k]))
    && forall s :: IsSource(entries, wanted, s) ==> s in from
  }

  lemma FilePackets(entries: seq<Entry>, wanted: seq<Connection>, file: nat, k: nat)
    requires file < |entries| && entries[file].connection in wanted && k < |entries[file].rows|
    ensures var e := entries[file];
            ComesFrom(entries, wanted, Source(file, k), PacketsOf(e, NumberOf(wanted, e.connection))[k])
  {
    NumberIs(wanted, entries[file].connection);
  }

  lemma ComesStill(entries: seq<Entry>, last: Entry, wanted: seq<Connection>, s: Source, p: Packet)
    requires ComesFrom(entries, wanted, s, p)
    ensures ComesFrom(entries + [last], wanted, s, p)
  {
  }

  lemma CollectedNext(before: seq<Entry>, last: Entry, wanted: seq<Connection>)
    ensures Collected(Filter(before + [last], IsWanted(wanted)), wanted) ==
            Collected(Filter(before, IsWanted(wanted)), wanted)
            + if last.connection in wanted then PacketsOf(last, NumberOf(wanted, last.connection)) else []
  {
    hide Collected, PacketsOf, NumberOf;
    FilterLast(before, last, IsWanted(wanted));
    if last.connection in wanted {
      CollectedAppend(Filter(before, IsWanted(wanted)), [last], wanted);
      CollectedOne(last, wanted);
    }
  }

  /** The rows that the collected packets come from, file by file. */
  lemma {:induction false} CollectedTraces(entries: seq<Entry>, wanted: seq<Connection>) returns (from: seq<Source>)
    ensures Traces(entries, wanted, Collected(Filter(entries, IsWanted(wanted)), wanted), from)
    ensures forall s :: s in from ==> s.file < |entries|
  {
    hide Collected, Filter, ComesFrom, PacketsOf, Distinct;
    from := [];
    if entries == [] {
      NothingTraced(entries, wanted);
    } else {
      var before, last := entries[..|entries| - 1], entries[|entries| - 1];
      assert entries == before + [last];
      from := CollectedTraces(before, wanted);
      CollectedNext(before, last, wanted);
      from := TracesNext(before, last, wanted, Collected(Filter(before, IsWanted(wanted)), wanted), from);
    }
  }

  lemma NothingTraced(entries: seq<Entry>, wanted: seq<Connection>)
    requires entries == []
    ensures Traces(entries, wanted, Collected(Filter(entries, IsWanted(wanted)), wanted), [])
  {
  }

  lemma TracesNext(before: seq<Entry>, last: Entry, wanted: seq<Connection>, packets: seq<Packet>, from: seq<Source>)
    returns (more: seq<Source>)
    requires Traces(before, wanted, packets, from) && forall s :: s in from ==> s.file < |before|
    ensures Traces(before + [last], wanted,
                   packets + if last.connection in wanted then PacketsOf(last, NumberOf(wanted, last.connection)) else [], more)
    ensures forall s :: s in more ==> s.file < |before| + 1
  {
    hide ComesFrom, PacketsOf, NumberOf;
    var entries := before + [last];
    var added := if last.connection in wanted then PacketsOf(last, NumberOf(wanted, last.connection)) else [];
    var sources := seq(|added|, i requires 0 <= i < |added| => Source(|before|, i));
    more := from + sources;
    forall k | 0 <= k < |more| ensures ComesFrom(entries, wanted, more[k], (packets + added)[k]) {
      if k < |from| {
        ComesStill(before, last, wanted, from[k], packets[k]);
      } else {
        FilePackets(entries, wanted, |before|, k - |from|);
      }
    }
    assert forall s :: s in from ==> s.file != |before|;
    forall s | IsSource(entries, wanted, s) ensures s in more {
      if s.file < |before| {
        assert IsSource(before, wanted, s);
      } else {
        assert sources[s.row] == s;
      }
    }
  }

  /** The canonical trace holds one packet for every row of the client's files, and
      no other; its packets are in order of time, and of index where times tie. */
  lemma TraceHolds(entries: seq<Entry>, wanted: seq<Connection>) returns (from: seq<Source>)
    ensures Traces(entries, wanted, Stitched(entries, wanted), from)
    ensures forall k, l :: 0 <= k < l < |Stitched(entries, wanted)| ==>
              var p, q := Stitched(entries, wanted)[k], Stitched(entries, wanted)[l];
              p.timestamp < q.timestamp || (p.timestamp == q.timestamp && p.index <= q.index)
  {
    hide Stitched, ComesFrom, Collected, Filter;
    var trace, collected := Stitched(entries, wanted), Collected(Filter(entries, IsWanted(wanted)), wanted);
    var sources := CollectedTraces(entries, wanted);
    var at := PermutationPlaces(trace, collected);
    from := seq(|at|, k requires 0 <= k < |at| => sources[at[k]]);
    AllPlaces(at, |collected|);
    forall s | IsSource(entries, wanted, s) ensures s in from {
      var i: nat :| i < |sources| && sources[i] == s;
      assert i in at;
      var k :| 0 <= k < |at| && at[k] == i;
      assert from[k] == s;
    }
    forall k, l | 0 <= k < l < |trace| ensures NotAfter(trace[k], trace[l]) { assert ByTimeAndIndex()(trace[k], trace[l]); }
  }

  /** When all times of one file lie before all times of another, all its packets
      come before the other's. */
  lemma FilesInOrder(entries: seq<Entry>, wanted: seq<Connection>, e: nat, f: nat, k: nat, l: nat, i: nat, j: nat)
    requires e < |entries| && f < |entries|
    requires forall i, j :: 0 <= i < |entries[e].rows| && 0 <= j < |entries[f].rows| ==>
               entries[e].baseEpoch + entries[e].rows[i].relative < entries[f].baseEpoch + entries[f].rows[j].relative
    requires k < |Stitched(entries, wanted)| && l < |Stitched(entries, wanted)|
    requires ComesFrom(entries, wanted, Source(e, i), Stitched(entries, wanted)[k])
    requires ComesFrom(entries, wanted, Source(f, j), Stitched(entries, wanted)[l])
    ensures k < l
  {
    hide Stitched;
    var _ := TraceHolds(entries, wanted);
  }
}
