/** One client's canonical trace from the files of its connections
    (canonicalize_central_proxy.py, _read_safe_sequence and
    canonicalize_collected_proxy). Times are exact reals. */
module Stitching {
  import opened Results
  import opened Seqs
  import opened Sorting
  import opened ConnectionChoice

  // ----- the packet index -----

  /** A row: its chunk, the number of its connection, its place in its file. */
  datatype Place = Place(chunk: nat, connection: nat, local: nat)

  function PacketIndex(p: Place): nat {
    p.chunk * 1_000_000_000 + p.connection * 10_000_000 + p.local
  }

  predicate Within(p: Place, connections: nat, rows: nat) {
    1 <= p.connection <= connections && 1 <= p.local <= rows
  }

  /** No two rows have one index, with so many connections per client and so many
      rows per file. */
  ghost predicate Injective(connections: nat, rows: nat) {
    forall p, q :: Within(p, connections, rows) && Within(q, connections, rows) && PacketIndex(p) == PacketIndex(q) ==> p == q
  }

  /** Indices collide beyond 100 connections or ten million rows (with a single
      connection, beyond a thousand million rows), and only then. */
  lemma InjectiveExactly(connections: nat, rows: nat)
    requires connections > 0 && rows > 0
    ensures Injective(connections, rows) <==>
            connections <= 100 && rows <= if connections == 1 then 1_000_000_000 else 10_000_000
  {
    var first := Place(2, 1, 1);
    if connections > 100 {
      assert PacketIndex(Place(1, 101, 1)) == PacketIndex(first);
    } else if connections == 1 && rows > 1_000_000_000 {
      assert PacketIndex(Place(1, 1, 1_000_000_001)) == PacketIndex(first);
    } else if connections > 1 && rows > 10_000_000 {
      assert PacketIndex(Place(1, 1, 10_000_001)) == PacketIndex(Place(1, 2, 1));
    }
  }

  // ----- reading and sorting -----

  /** A row of a sequence file: its time, and the rest of its fields. */
  datatype Row = Row(relative: real, fields: nat)

  /** A file: its chunk, its connection, the epoch its times count from. */
  datatype Entry = Entry(chunk: nat, connection: Connection, baseEpoch: real, rows: seq<Row>)

  datatype Packet = Packet(index: nat, timestamp: real, fields: nat, connection: nat)

  function PacketAt(e: Entry, number: nat, i: nat): Packet
    requires i < |e.rows|
  {
    Packet(PacketIndex(Place(e.chunk, number, i + 1)), e.baseEpoch + e.rows[i].relative, e.rows[i].fields, number)
  }

  /** The packets of one file, whose connection has the given number. */
  function PacketsOf(e: Entry, number: nat): (packets: seq<Packet>)
    ensures |packets| == |e.rows|
  {
    seq(|e.rows|, i requires 0 <= i < |e.rows| => PacketAt(e, number, i))
  }

  method ReadSafeSequence(e: Entry, number: nat) returns (packets: seq<Packet>)
    ensures packets == PacketsOf(e, number)
  {
    packets := [];
    for i := 0 to |e.rows|
      invariant packets == PacketsOf(e, number)[..i]
    {
      var index := e.chunk * 1_000_000_000 + number * 10_000_000 + (i + 1);
      packets := packets + [Packet(index, e.baseEpoch + e.rows[i].relative, e.rows[i].fields, number)];
    }
  }

  /** The place of a connection among a client's connections, from one. */
  function NumberOf(wanted: seq<Connection>, x: Connection): nat {
    if wanted == [] then 0
    else if wanted[|wanted| - 1] == x then |wanted|
    else NumberOf(wanted[..|wanted| - 1], x)
  }

  lemma {:induction false} NumberIs(wanted: seq<Connection>, x: Connection)
    requires x in wanted
    ensures 1 <= NumberOf(wanted, x) <= |wanted| && wanted[NumberOf(wanted, x) - 1] == x
  {
    if wanted[|wanted| - 1] != x { NumberIs(wanted[..|wanted| - 1], x); }
  }

  /** The packets of several files, one file after the other. */
  function Collected(entries: seq<Entry>, wanted: seq<Connection>): seq<Packet> {
    if entries == [] then [] else
      var last := entries[|entries| - 1];
      Collected(entries[..|entries| - 1], wanted) + PacketsOf(last, NumberOf(wanted, last.connection))
  }

  /** The order of the sort key: time, then index. */
  predicate NotAfter(p: Packet, q: Packet) {
    p.timestamp < q.timestamp || (p.timestamp == q.timestamp && p.index <= q.index)
  }

  function ByTimeAndIndex(): (Packet, Packet) -> bool {
    (p: Packet, q: Packet) => NotAfter(p, q)
  }

  datatype StitchError = NoSequence | TooFewPackets

  const MIN_CANONICAL_PACKETS := 20

  function IsWanted(wanted: seq<Connection>): Entry -> bool {
    (e: Entry) => e.connection in wanted
  }

  /** The canonical trace: the packets of the client's files, each once, by time
      and index. */
  function Stitched(entries: seq<Entry>, wanted: seq<Connection>): (packets: seq<Packet>)
    ensures Sorted(packets, ByTimeAndIndex()) && multiset(packets) == multiset(Collected(Filter(entries, IsWanted(wanted)), wanted))
  {
    var collected := Collected(Filter(entries, IsWanted(wanted)), wanted);
    SortIs(collected, ByTimeAndIndex());
    Sort(collected, ByTimeAndIndex())
  }

  /** The packets of one client, whose connections are listed in order. */
  method StitchClient(entries: seq<Entry>, wanted: seq<Connection>) returns (r: Result<seq<Packet>, StitchError>)
    requires Distinct(wanted)
    ensures r == Err(NoSequence) <==> forall e :: e in entries ==> e.connection !in wanted
    ensures r == Err(TooFewPackets) <==>
            (exists e :: e in entries && e.connection in wanted) && |Stitched(entries, wanted)| < 20
    ensures r.Ok? ==> r.value == Stitched(entries, wanted)
  {
    var relevant := Filter(entries, IsWanted(wanted));
    forall e ensures e in relevant <==> e in entries && e.connection in wanted { FilterMember(entries, IsWanted(wanted), e); }
    if relevant == [] { return Err(NoSequence); }
    assert relevant[0] in relevant;
    var packets: seq<Packet> := [];
    for i := 0 to |relevant|
      invariant packets == Collected(relevant[..i], wanted)
    {
      assert relevant[..i + 1][..i] == relevant[..i];
      var read := ReadSafeSequence(relevant[i], NumberOf(wanted, relevant[i].connection));
      packets := packets + read;
    }
    assert relevant[..|relevant|] == relevant;
    packets := Sort(packets, ByTimeAndIndex());
    if |packets| < MIN_CANONICAL_PACKETS { return Err(TooFewPackets); }
    return Ok(packets);
  }

  // ----- independence of the entry order -----

  /** One file per chunk and connection, within the bounds of the index. */
  predicate Orderly(entries: seq<Entry>, wanted: seq<Connection>) {
    && |wanted| <= 100 && Distinct(wanted)
    && (forall i :: 0 <= i < |entries| ==> |entries[i].rows| <= if |wanted| == 1 then 1_000_000_000 else 10_000_000)
    && forall i, j :: 0 <= i < j < |entries| ==> entries[i].chunk != entries[j].chunk || entries[i].connection != entries[j].connection
  }

  predicate IndexDecides(s: seq<Packet>) {
    forall p, q :: p in s && q in s && p.index == q.index ==> p == q
  }

  /** A packet comes from a file and a row. */
  lemma {:induction false} CollectedFrom(entries: seq<Entry>, wanted: seq<Connection>, p: Packet) returns (e: Entry, i: nat)
    requires p in Collected(entries, wanted)
    ensures e in entries && i < |e.rows| && p == PacketAt(e, NumberOf(wanted, e.connection), i)
  {
    var last := entries[|entries| - 1];
    if p in Collected(entries[..|entries| - 1], wanted) {
      e, i := CollectedFrom(entries[..|entries| - 1], wanted, p);
    } else {
      e := last;
      i :| i < |e.rows| && PacketsOf(e, NumberOf(wanted, e.connection))[i] == p;
    }
  }

  /** In an orderly collection no two packets share an index. */
  lemma OrderlyIndices(entries: seq<Entry>, wanted: seq<Connection>)
    requires Orderly(entries, wanted) && forall e :: e in entries ==> e.connection in wanted
    ensures IndexDecides(Collected(entries, wanted))
  {
    hide Collected, PacketIndex;
    forall p, q | p in Collected(entries, wanted) && q in Collected(entries, wanted) && p.index == q.index ensures p == q {
      var e, i := CollectedFrom(entries, wanted, p);
      var f, j := CollectedFrom(entries, wanted, q);
      NumberIs(wanted, e.connection);
      NumberIs(wanted, f.connection);
      SameEntry(entries, wanted, e, f, i, j);
    }
  }

  lemma SameEntry(entries: seq<Entry>, wanted: seq<Connection>, e: Entry, f: Entry, i: nat, j: nat)
    requires Orderly(entries, wanted) && e in entries && f in entries && i < |e.rows| && j < |f.rows|
    requires 1 <= NumberOf(wanted, e.connection) <= |wanted| && wanted[NumberOf(wanted, e.connection) - 1] == e.connection
    requires 1 <= NumberOf(wanted, f.connection) <= |wanted| && wanted[NumberOf(wanted, f.connection) - 1] == f.connection
    requires PacketIndex(Place(e.chunk, NumberOf(wanted, e.connection), i + 1)) ==
             PacketIndex(Place(f.chunk, NumberOf(wanted, f.connection), j + 1))
    ensures e == f && i == j
  {
    var rows := if |wanted| == 1 then 1_000_000_000 else 10_000_000;
    InjectiveExactly(|wanted|, rows);
    var p, q := Place(e.chunk, NumberOf(wanted, e.connection), i + 1), Place(f.chunk, NumberOf(wanted, f.connection), j + 1);
    assert Within(p, |wanted|, rows) && Within(q, |wanted|, rows);
    assert e.chunk == f.chunk && e.connection == f.connection;
    var a :| 0 <= a < |entries| && entries[a] == e;
    var b :| 0 <= b < |entries| && entries[b] == f;
  }

  /** Permuted files hold the same packets. */
  lemma {:induction false} CollectedPermuted(a: seq<Entry>, b: seq<Entry>, wanted: seq<Connection>)
    requires multiset(a) == multiset(b)
    ensures multiset(Collected(a, wanted)) == multiset(Collected(b, wanted))
    decreases |a|
  {
    if a == [] {
      assert |multiset(b)| == 0;
    } else {
      var x := a[|a| - 1];
      assert x in multiset(b);
      var k :| 0 <= k < |b| && b[k] == x;
      assert a == a[..|a| - 1] + [x];
      assert multiset(a[..|a| - 1]) == multiset(b) - multiset{x} == multiset(Without(b, k));
      CollectedPermuted(a[..|a| - 1], Without(b, k), wanted);
      CollectedWithout(b, k, wanted);
    }
  }

  lemma {:induction false} CollectedAppend(a: seq<Entry>, b: seq<Entry>, wanted: seq<Connection>)
    ensures Collected(a + b, wanted) == Collected(a, wanted) + Collected(b, wanted)
  {
    hide PacketsOf, NumberOf;
    if b == [] {
      assert a + b == a;
    } else {
      CollectedAppend(a, b[..|b| - 1], wanted);
      assert (a + b)[..|a + b| - 1] == a + b[..|b| - 1];
    }
  }

  lemma CollectedWithout(s: seq<Entry>, k: nat, wanted: seq<Connection>)
    requires k < |s|
    ensures multiset(Collected(s, wanted)) ==
            multiset(Collected(Without(s, k), wanted)) + multiset(PacketsOf(s[k], NumberOf(wanted, s[k].connection)))
  {
    assert s == s[..k] + ([s[k]] + s[k + 1..]);
    CollectedAppend(s[..k], [s[k]] + s[k + 1..], wanted);
    CollectedAppend([s[k]], s[k + 1..], wanted);
    CollectedAppend(s[..k], s[k + 1..], wanted);
    assert [s[k]][..0] == [];
  }

  /** No two different packets of the client's files tie in time and index. */
  ghost predicate NoTies(entries: seq<Entry>, wanted: seq<Connection>) {
    Decided(Collected(Filter(entries, IsWanted(wanted)), wanted), ByTimeAndIndex())
  }

  /** The canonical trace is the same for every order of the files. */
  ghost predicate OrderInvisible(entries: seq<Entry>, wanted: seq<Connection>) {
    forall permuted :: multiset(permuted) == multiset(entries) ==> Stitched(permuted, wanted) == Stitched(entries, wanted)
  }

  /** The canonical trace does not depend on the order of the files exactly when
      no two different packets tie. */
  lemma EntryOrderInvisibleIffNoTies(entries: seq<Entry>, wanted: seq<Connection>)
    ensures OrderInvisible(entries, wanted) <==> NoTies(entries, wanted)
  {
    hide NoTies;
    if NoTies(entries, wanted) {
      forall permuted | multiset(permuted) == multiset(entries) ensures Stitched(permuted, wanted) == Stitched(entries, wanted) {
        NoTiesNoOrder(entries, permuted, wanted);
      }
    } else {
      TieShows(entries, wanted);
    }
  }

  lemma NoTiesNoOrder(entries: seq<Entry>, permuted: seq<Entry>, wanted: seq<Connection>)
    requires multiset(entries) == multiset(permuted) && NoTies(entries, wanted)
    ensures Stitched(entries, wanted) == Stitched(permuted, wanted)
  {
    hide Collected, Sorted;
    var a, b := Filter(entries, IsWanted(wanted)), Filter(permuted, IsWanted(wanted));
    FilterPermuted(entries, permuted, IsWanted(wanted));
    CollectedPermuted(a, b, wanted);
    var s, t := Stitched(entries, wanted), Stitched(permuted, wanted);
    forall p | p in s ensures p in Collected(a, wanted) { assert p in multiset(s); }
    SortedUnique(s, t, ByTimeAndIndex());
  }

  /** The packets of a file that tie with p are p, if it is there. */
  lemma TiesInFile(e: Entry, number: nat, i: nat)
    requires i < |e.rows|
    ensures var ties := Filter(PacketsOf(e, number), TiedWith(PacketAt(e, number, i), ByTimeAndIndex()));
            ties != [] && ties[0] == PacketAt(e, number, i)
  {
    var p := PacketAt(e, number, i);
    var ties := Filter(PacketsOf(e, number), TiedWith(p, ByTimeAndIndex()));
    assert PacketsOf(e, number)[i] == p;
    FilterMember(PacketsOf(e, number), TiedWith(p, ByTimeAndIndex()), p);
    FilterMember(PacketsOf(e, number), TiedWith(p, ByTimeAndIndex()), ties[0]);
    var j :| 0 <= j < |e.rows| && PacketsOf(e, number)[j] == ties[0];
  }

  function Foremost(entries: seq<Entry>, k: nat): (r: seq<Entry>)
    requires k < |entries|
    ensures multiset(r) == multiset(entries)
  {
    [entries[k]] + Without(entries, k)
  }

  /** With its file in front, a packet is the first of those that tie with it. */
  lemma ForemostTie(entries: seq<Entry>, wanted: seq<Connection>, k: nat, i: nat)
    requires k < |entries| && entries[k].connection in wanted && i < |entries[k].rows|
    ensures var p := PacketAt(entries[k], NumberOf(wanted, entries[k].connection), i);
            var ties := Filter(Stitched(Foremost(entries, k), wanted), TiedWith(p, ByTimeAndIndex()));
            ties != [] && ties[0] == p
  {
    hide PacketsOf, PacketAt, NotAfter;
    var e, rest := entries[k], Without(entries, k);
    var number := NumberOf(wanted, e.connection);
    var tied := TiedWith(PacketAt(e, number, i), ByTimeAndIndex());
    var others := Filter(rest, IsWanted(wanted));
    FilterAppend([e], rest, IsWanted(wanted));
    FilterEverything([e], IsWanted(wanted));
    CollectedAppend([e], others, wanted);
    CollectedOne(e, wanted);
    var collected := Collected([e] + others, wanted);
    OrderIsTotal();
    SortStable(collected, PacketAt(e, number, i), ByTimeAndIndex());
    FilterAppend(PacketsOf(e, number), Collected(others, wanted), tied);
    TiesInFile(e, number, i);
  }

  lemma OrderIsTotal()
    ensures IsOrder(ByTimeAndIndex())
  {
  }

  lemma CollectedOne(e: Entry, wanted: seq<Connection>)
    ensures Collected([e], wanted) == PacketsOf(e, NumberOf(wanted, e.connection))
  {
    hide PacketsOf, NumberOf;
    assert [e][..0] == [];
    assert Collected([], wanted) == [];
  }

  /** Two different packets that tie: putting the file of either one in front
      gives two different traces. */
  lemma TieShows(entries: seq<Entry>, wanted: seq<Connection>)
    requires !NoTies(entries, wanted)
    ensures !OrderInvisible(entries, wanted)
  {
    hide Stitched, Collected, NotAfter, PacketAt;
    var files := Filter(entries, IsWanted(wanted));
    var order := ByTimeAndIndex();
    var p, q :| p in Collected(files, wanted) && q in Collected(files, wanted) && order(p, q) && order(q, p) && p != q;
    var j := FrontWith(entries, wanted, p);
    var k := FrontWith(entries, wanted, q);
    SameTies(p, q);
    var s, t := Stitched(Foremost(entries, j), wanted), Stitched(Foremost(entries, k), wanted);
    assert Filter(s, TiedWith(p, order)) == Filter(s, TiedWith(q, order)) by { SameTiesFilter(s, p, q); }
    assert s != t;
  }

  /** The place of a file that holds p. */
  lemma FrontWith(entries: seq<Entry>, wanted: seq<Connection>, p: Packet) returns (k: nat)
    requires p in Collected(Filter(entries, IsWanted(wanted)), wanted)
    ensures k < |entries|
    ensures var ties := Filter(Stitched(Foremost(entries, k), wanted), TiedWith(p, ByTimeAndIndex()));
            ties != [] && ties[0] == p
  {
    hide Stitched, Collected, NotAfter, PacketAt;
    var e, i := CollectedFrom(Filter(entries, IsWanted(wanted)), wanted, p);
    FilterMember(entries, IsWanted(wanted), e);
    k :| k < |entries| && entries[k] == e;
    ForemostTie(entries, wanted, k, i);
  }

  lemma SameTies(p: Packet, q: Packet)
    requires NotAfter(p, q) && NotAfter(q, p)
    ensures forall x :: TiedWith(p, ByTimeAndIndex())(x) == TiedWith(q, ByTimeAndIndex())(x)
  {
  }

  lemma {:induction false} SameTiesFilter(s: seq<Packet>, p: Packet, q: Packet)
    requires NotAfter(p, q) && NotAfter(q, p)
    ensures Filter(s, TiedWith(p, ByTimeAndIndex())) == Filter(s, TiedWith(q, ByTimeAndIndex()))
  {
    if s != [] {
      SameTiesFilter(s[..|s| - 1], p, q);
      SameTies(p, q);
    }
  }

  /** Orderly files never tie, so their order does not show. */
  lemma EntryOrderIrrelevant(entries: seq<Entry>, permuted: seq<Entry>, wanted: seq<Connection>)
    requires multiset(entries) == multiset(permuted) && Orderly(Filter(entries, IsWanted(wanted)), wanted)
    ensures Stitched(entries, wanted) == Stitched(permuted, wanted)
  {
    hide Collected, Stitched;
    var files := Filter(entries, IsWanted(wanted));
    forall e | e in files ensures e.connection in wanted { FilterMember(entries, IsWanted(wanted), e); }
    OrderlyIndices(files, wanted);
    EntryOrderInvisibleIffNoTies(entries, wanted);
  }

  lemma {:induction false} FilterPermuted(a: seq<Entry>, b: seq<Entry>, keep: Entry -> bool)
    requires multiset(a) == multiset(b)
    ensures multiset(Filter(a, keep)) == multiset(Filter(b, keep))
    decreases |a|
  {
    if a == [] {
      assert |multiset(b)| == 0;
    } else {
      var x := a[|a| - 1];
      assert x in multiset(b);
      var k :| 0 <= k < |b| && b[k] == x;
      assert a == a[..|a| - 1] + [x];
      assert multiset(a[..|a| - 1]) == multiset(b) - multiset{x} == multiset(Without(b, k));
      FilterPermuted(a[..|a| - 1], Without(b, k), keep);
      FilterWithout(b, k, keep);
    }
  }

  lemma FilterWithout(s: seq<Entry>, k: nat, keep: Entry -> bool)
    requires k < |s|
    ensures multiset(Filter(s, keep)) == multiset(Filter(Without(s, k), keep)) + if keep(s[k]) then multiset{s[k]} else multiset{}
  {
    hide Filter;
    var x := s[k];
    assert s == (s[..k] + [x]) + s[k + 1..];
    FilterAppend(s[..k] + [x], s[k + 1..], keep);
    FilterAppend(s[..k], s[k + 1..], keep);
    FilterLast(s[..k], x, keep);
  }

  /** Two files of one chunk and connection: their order shows. */
  lemma SharedIndexOrderMatters()
    returns (a: Entry, b: Entry, wanted: seq<Connection>)
    ensures a.chunk == b.chunk && a.connection == b.connection && Distinct(wanted)
    ensures Stitched([a, b], wanted) != Stitched([b, a], wanted)
  {
    var x := Connection(Ip("10.0.0.2"), 40000);
    a, b := Entry(1, x, 0.0, [Row(0.0, 1)]), Entry(1, x, 0.0, [Row(0.0, 2)]);
    wanted := [x];
    OneRowEach(a, b, wanted, x);
    OneRowEach(b, a, wanted, x);
  }

  lemma OneRowEach(a: Entry, b: Entry, wanted: seq<Connection>, x: Connection)
    requires wanted == [x] && a.connection == x == b.connection && a.chunk == b.chunk
    requires a.baseEpoch == b.baseEpoch == 0.0 && |a.rows| == |b.rows| == 1 && a.rows[0].relative == b.rows[0].relative
    ensures Stitched([a, b], wanted) == [PacketAt(a, 1, 0), PacketAt(b, 1, 0)]
  {
    hide Collected, Sort, NumberOf, PacketIndex;
    FilterEverything([a, b], IsWanted(wanted));
    OnlyConnection(wanted, x);
    CollectedPair(a, b, wanted);
    assert PacketsOf(a, 1) + PacketsOf(b, 1) == [PacketAt(a, 1, 0), PacketAt(b, 1, 0)];
    SortPair(PacketAt(a, 1, 0), PacketAt(b, 1, 0));
  }

  lemma OnlyConnection(wanted: seq<Connection>, x: Connection)
    requires wanted == [x]
    ensures NumberOf(wanted, x) == 1
  {
  }

  lemma CollectedPair(a: Entry, b: Entry, wanted: seq<Connection>)
    ensures Collected([a, b], wanted) ==
            PacketsOf(a, NumberOf(wanted, a.connection)) + PacketsOf(b, NumberOf(wanted, b.connection))
  {
    hide PacketsOf, NumberOf;
    assert [a, b][..1] == [a] && [a][..0] == [];
    assert Collected([], wanted) == [];
    assert Collected([a], wanted) == PacketsOf(a, NumberOf(wanted, a.connection));
  }

  lemma SortPair(p: Packet, q: Packet)
    requires NotAfter(p, q)
    ensures Sort([p, q], ByTimeAndIndex()) == [p, q]
  {
    hide NotAfter;
    SortNext([], p, ByTimeAndIndex());
    SortNext([p], q, ByTimeAndIndex());
    assert [] + [p] == [p] && [p] + [q] == [p, q];
    assert Insert([], p, ByTimeAndIndex()) == [p];
    InsertBehind([p], q, ByTimeAndIndex());
  }
}
