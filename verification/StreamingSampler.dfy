/** The two-pass streaming sampler (train_packet_cross_vantage.py,
    count_trace_rows and sample_budget_streaming). A file is read in chunks; each
    chunk is grouped by trace. The reference selects, per trace, the rows at the
    chosen positions of the whole trace. The first pass reads the key columns as
    text; the second infers their types chunk by chunk, so that it may spell a key
    differently. */
module StreamingSampler {
  import opened Results
  import opened Seqs

  datatype TraceKey = TraceKey(experiment: string, client: string, role: string)

  datatype Row = Row(key: TraceKey, data: nat)

  function Has(key: TraceKey): Row -> bool {
    (row: Row) => row.key == key
  }

  /** The rows of one trace, in file order. */
  function RowsOf(rows: seq<Row>, key: TraceKey): seq<Row> {
    Filter(rows, Has(key))
  }

  /** The keys of a chunk in order of first appearance (groupby, sort=False). */
  function GroupKeys(chunk: seq<Row>): (keys: seq<TraceKey>)
    ensures Distinct(keys)
    ensures forall row :: row in chunk ==> row.key in keys
    ensures forall key :: key in keys ==> RowsOf(chunk, key) != []
  {
    if chunk == [] then [] else
      var before, last := GroupKeys(chunk[..|chunk| - 1]), chunk[|chunk| - 1];
      assert chunk == chunk[..|chunk| - 1] + [last];
      if last.key in before then before else before + [last.key]
  }

  // ----- positions -----

  /** What _stratified_positions promises for a trace of n rows: sorted, unique,
      in range, and at least one if there is a row. */
  predicate ValidPositions(positions: seq<nat>, n: nat) {
    && Increasing(positions)
    && (forall i :: 0 <= i < |positions| ==> positions[i] < n)
    && (n > 0 ==> positions != [])
  }

  /** The positions chosen for each trace, given its number of rows. */
  type Chooser = (TraceKey, nat) -> seq<nat>

  ghost predicate ValidChooser(choose: Chooser) {
    forall key, n :: ValidPositions(choose(key, n), n)
  }

  /** numpy.searchsorted, side left: how many positions are below x. */
  function SearchSorted(positions: seq<nat>, x: nat): (k: nat)
    requires Increasing(positions)
    ensures k <= |positions|
    ensures forall i :: 0 <= i < k ==> positions[i] < x
    ensures forall i :: k <= i < |positions| ==> positions[i] >= x
  {
    if positions == [] || positions[|positions| - 1] < x then |positions|
    else SearchSorted(positions[..|positions| - 1], x)
  }

  /** rows[positions]. */
  function RowsAt(rows: seq<Row>, positions: seq<nat>): (r: seq<Row>)
    requires forall i :: 0 <= i < |positions| ==> positions[i] < |rows|
    ensures |r| == |positions|
  {
    seq(|positions|, i requires 0 <= i < |positions| => rows[positions[i]])
  }

  /** Direct selection: the chosen rows of one whole trace. */
  function Selection(file: seq<Row>, key: TraceKey, choose: Chooser): seq<Row>
    requires ValidPositions(choose(key, |RowsOf(file, key)|), |RowsOf(file, key)|)
  {
    RowsAt(RowsOf(file, key), choose(key, |RowsOf(file, key)|))
  }

  /** The positions chosen for a trace after the first pass. */
  function Positions(file: seq<Row>, key: TraceKey, choose: Chooser): seq<nat> {
    choose(key, |RowsOf(file, key)|)
  }

  /** What the second pass selects: of the rows that it takes for the trace, those
      at the positions that it reaches. */
  function Streamed(file: seq<Row>, second: seq<Row>, key: TraceKey, choose: Chooser): seq<Row>
    requires Increasing(Positions(file, key, choose))
  {
    var all, positions := RowsOf(second, key), Positions(file, key, choose);
    RowsAt(all, positions[..SearchSorted(positions, |all|)])
  }

  // ----- the two passes -----

  function CountOf(counts: map<TraceKey, nat>, key: TraceKey): nat {
    if key in counts then counts[key] else 0
  }

  lemma RowsOfAppend(a: seq<Row>, b: seq<Row>, key: TraceKey)
    ensures RowsOf(a + b, key) == RowsOf(a, key) + RowsOf(b, key)
  {
    FilterAppend(a, b, Has(key));
  }

  /** A trace that is not among the groups of a chunk has no rows in it. */
  lemma NotGrouped(chunk: seq<Row>, key: TraceKey)
    requires key !in GroupKeys(chunk)
    ensures RowsOf(chunk, key) == []
  {
    FilterNothing(chunk, Has(key));
  }

  /** One chunk of the first pass. */
  method CountChunk(before: map<TraceKey, nat>, chunk: seq<Row>) returns (counts: map<TraceKey, nat>)
    ensures forall key :: CountOf(counts, key) == CountOf(before, key) + |RowsOf(chunk, key)|
    ensures forall key :: key in counts <==> key in before || RowsOf(chunk, key) != []
  {
    counts := before;
    var keys := GroupKeys(chunk);
    for g := 0 to |keys|
      invariant forall key :: CountOf(counts, key) ==
                  CountOf(before, key) + if key in keys[..g] then |RowsOf(chunk, key)| else 0
      invariant forall key :: key in counts <==> key in before || key in keys[..g]
    {
      assert keys[..g + 1] == keys[..g] + [keys[g]] && keys[g] !in keys[..g];
      counts := counts[keys[g] := CountOf(counts, keys[g]) + |RowsOf(chunk, keys[g])|];
    }
    assert keys[..|keys|] == keys;
    forall key | key !in keys ensures RowsOf(chunk, key) == [] { NotGrouped(chunk, key); }
  }

  method CountTraceRows(file: seq<Row>, chunksize: nat) returns (counts: map<TraceKey, nat>)
    requires chunksize > 0
    ensures forall key :: key in counts <==> RowsOf(file, key) != []
    ensures forall key :: key in counts ==> counts[key] == |RowsOf(file, key)|
  {
    counts := map[];
    var from := 0;
    while from < |file|
      invariant 0 <= from <= |file|
      invariant forall key :: CountOf(counts, key) == |RowsOf(file[..from], key)|
      invariant forall key :: key in counts <==> RowsOf(file[..from], key) != []
    {
      var upto := if from + chunksize < |file| then from + chunksize else |file|;
      assert file[..upto] == file[..from] + file[from..upto];
      forall key ensures RowsOf(file[..upto], key) == RowsOf(file[..from], key) + RowsOf(file[from..upto], key) {
        RowsOfAppend(file[..from], file[from..upto], key);
      }
      counts := CountChunk(counts, file[from..upto]);
      from := upto;
    }
    assert file[..|file|] == file;
  }

  /** The counters and the output of the second pass. */
  datatype Progress = Progress(seen: map<TraceKey, nat>, selectedCounts: map<TraceKey, nat>, selected: seq<Row>)

  /** One trace after n of its rows have gone by: exactly the chosen rows below n
      have been selected. A trace without chosen rows is not followed. */
  ghost predicate Through(p: Progress, key: TraceKey, all: seq<Row>, positions: seq<nat>, n: nat)
    requires Increasing(positions)
  {
    var below := SearchSorted(positions, n);
    && n <= |all|
    && (positions != [] ==> CountOf(p.seen, key) == n)
    && CountOf(p.selectedCounts, key) == below
    && RowsOf(p.selected, key) == RowsAt(all, positions[..below])
  }

  lemma SortedGrows(positions: seq<nat>, x: nat, y: nat)
    requires Increasing(positions) && x <= y
    ensures SearchSorted(positions, x) <= SearchSorted(positions, y)
  {
    var lo, hi := SearchSorted(positions, x), SearchSorted(positions, y);
    assert hi < |positions| ==> positions[hi] >= y >= x;
  }

  /** Rows local to a group are the trace's rows at the global positions. */
  lemma GroupPicks(all: seq<Row>, positions: seq<nat>, start: nat, end: nat, group: seq<Row>)
    requires Increasing(positions) && start <= end <= |all| && group == all[start..end]
    ensures var lo, hi := SearchSorted(positions, start), SearchSorted(positions, end);
            && lo <= hi
            && (forall i :: lo <= i < hi ==> start <= positions[i] < end)
            && RowsAt(all, positions[..hi]) ==
               RowsAt(all, positions[..lo]) + RowsAt(group, Local(positions, lo, hi, start))
  {
    var lo, hi := SearchSorted(positions, start), SearchSorted(positions, end);
    SortedGrows(positions, start, end);
    assert forall i :: lo <= i < hi ==> group[positions[i] - start] == all[positions[i]];
  }

  /** positions[lo:hi] - start. */
  function Local(positions: seq<nat>, lo: nat, hi: nat, start: nat): (r: seq<nat>)
    requires lo <= hi <= |positions| && forall i :: lo <= i < hi ==> start <= positions[i]
    ensures |r| == hi - lo
  {
    seq(hi - lo, i requires 0 <= i < hi - lo => positions[lo + i] - start)
  }

  lemma LocalRows(group: seq<Row>, positions: seq<nat>, lo: nat, hi: nat, start: nat)
    requires lo <= hi <= |positions| && forall i :: lo <= i < hi ==> start <= positions[i] < start + |group|
    ensures var rows := Local(positions, lo, hi, start);
            && (forall i :: 0 <= i < |rows| ==> rows[i] < |group|)
            && forall row :: row in RowsAt(group, rows) ==> row in group
  {
  }

  /** One group of the second pass. */
  method SelectGroup(before: Progress, key: TraceKey, group: seq<Row>, positions: seq<nat>, ghost all: seq<Row>)
    returns (p: Progress)
    requires Increasing(positions) && positions != [] && forall row :: row in group ==> row.key == key
    requires Through(before, key, all, positions, CountOf(before.seen, key))
    requires CountOf(before.seen, key) + |group| <= |all|
    requires group == all[CountOf(before.seen, key)..CountOf(before.seen, key) + |group|]
    ensures Through(p, key, all, positions, CountOf(before.seen, key) + |group|)
    ensures OthersKept(before, p, key)
  {
    hide RowsOf, RowsAt, SearchSorted, Local;
    var startSeen := CountOf(before.seen, key);
    var endSeen := startSeen + |group|;
    var lo, hi := SearchSorted(positions, startSeen), SearchSorted(positions, endSeen);
    GroupPicks(all, positions, startSeen, endSeen, group);
    p := before;
    if hi > lo {
      LocalRows(group, positions, lo, hi, startSeen);
      var part := RowsAt(group, Local(positions, lo, hi, startSeen));
      PartOfTrace(part, key);
      forall other ensures RowsOf(before.selected + part, other) == RowsOf(before.selected, other) + RowsOf(part, other) {
        RowsOfAppend(before.selected, part, other);
      }
      p := p.(selected := p.selected + part, selectedCounts := p.selectedCounts[key := CountOf(p.selectedCounts, key) + |part|]);
    } else {
      assert RowsAt(group, Local(positions, lo, hi, startSeen)) == [];
    }
    p := p.(seen := p.seen[key := endSeen]);
  }

  ghost predicate OthersKept(before: Progress, p: Progress, key: TraceKey) {
    forall other :: other != key ==>
      && CountOf(p.seen, other) == CountOf(before.seen, other)
      && CountOf(p.selectedCounts, other) == CountOf(before.selectedCounts, other)
      && RowsOf(p.selected, other) == RowsOf(before.selected, other)
  }

  lemma PartOfTrace(part: seq<Row>, key: TraceKey)
    requires forall row :: row in part ==> row.key == key
    ensures RowsOf(part, key) == part
    ensures forall other :: other != key ==> RowsOf(part, other) == []
  {
    FilterEverything(part, Has(key));
    forall other | other != key ensures RowsOf(part, other) == [] {
      FilterNothing(part, Has(other));
    }
  }

  /** Every trace is through the first n rows of the second reading. */
  ghost predicate AllThrough(p: Progress, file: seq<Row>, second: seq<Row>, choose: Chooser, n: nat)
    requires ValidChooser(choose) && n <= |second|
  {
    forall key :: Through(p, key, RowsOf(second, key), Positions(file, key, choose), |RowsOf(second[..n], key)|)
  }

  lemma ChunkOfTrace(file: seq<Row>, from: nat, upto: nat, key: TraceKey)
    requires from <= upto <= |file|
    ensures var all, start := RowsOf(file, key), |RowsOf(file[..from], key)|;
            var group := RowsOf(file[from..upto], key);
            && start + |group| <= |all| && group == all[start..start + |group|]
            && |RowsOf(file[..upto], key)| == start + |group|
  {
    assert file[..upto] == file[..from] + file[from..upto];
    RowsOfAppend(file[..from], file[from..upto], key);
    assert file == file[..upto] + file[upto..];
    RowsOfAppend(file[..upto], file[upto..], key);
  }

  lemma {:induction false} SortedZero(positions: seq<nat>)
    requires Increasing(positions)
    ensures SearchSorted(positions, 0) == 0
  {
    if positions != [] { SortedZero(positions[..|positions| - 1]); }
  }

  lemma NothingRead(file: seq<Row>, second: seq<Row>, choose: Chooser)
    requires ValidChooser(choose)
    ensures AllThrough(Progress(map[], map[], []), file, second, choose, 0)
  {
    assert second[..0] == [];
    forall key ensures SearchSorted(Positions(file, key, choose), 0) == 0 { SortedZero(Positions(file, key, choose)); }
  }

  /** One chunk of the second pass. */
  method SelectChunk(before: Progress, ghost file: seq<Row>, second: seq<Row>, from: nat, upto: nat,
                     targets: map<TraceKey, seq<nat>>, ghost choose: Chooser)
    returns (p: Progress)
    requires from <= upto <= |second| && ValidChooser(choose) && AllThrough(before, file, second, choose, from)
    requires forall key :: key in targets <==> RowsOf(file, key) != []
    requires forall key :: key in targets ==> targets[key] == Positions(file, key, choose)
    ensures AllThrough(p, file, second, choose, upto)
  {
    hide RowsOf, RowsAt, SearchSorted, GroupKeys;
    p := before;
    var chunk := second[from..upto];
    var keys := GroupKeys(chunk);
    for g := 0 to |keys|
      invariant forall key :: Through(p, key, RowsOf(second, key), Positions(file, key, choose),
                  if key in keys[..g] then |RowsOf(second[..upto], key)| else |RowsOf(second[..from], key)|)
    {
      var key := keys[g];
      assert keys[..g + 1] == keys[..g] + [key] && key !in keys[..g];
      ChunkOfTrace(second, from, upto, key);
      GroupHasKey(chunk, key);
      ChosenIffCounted(file, key, choose);
      if key !in targets {
        NothingChosen(p, key, RowsOf(second, key), |RowsOf(second[..from], key)|, |RowsOf(second[..upto], key)|);
        continue;
      }
      p := SelectGroup(p, key, RowsOf(chunk, key), targets[key], RowsOf(second, key));
    }
    assert keys[..|keys|] == keys;
    forall key | key !in keys ensures |RowsOf(second[..upto], key)| == |RowsOf(second[..from], key)| {
      NotGrouped(chunk, key);
      ChunkOfTrace(second, from, upto, key);
    }
  }

  lemma ChosenIffCounted(file: seq<Row>, key: TraceKey, choose: Chooser)
    requires ValidChooser(choose)
    ensures Positions(file, key, choose) == [] <==> RowsOf(file, key) == []
  {
    var positions := choose(key, |RowsOf(file, key)|);
    assert ValidPositions(positions, |RowsOf(file, key)|);
    assert positions != [] ==> positions[0] < |RowsOf(file, key)|;
  }

  lemma NothingChosen(p: Progress, key: TraceKey, all: seq<Row>, m: nat, n: nat)
    requires m <= n <= |all| && Through(p, key, all, [], m)
    ensures Through(p, key, all, [], n)
  {
  }

  lemma GroupHasKey(chunk: seq<Row>, key: TraceKey)
    ensures forall row :: row in RowsOf(chunk, key) ==> row.key == key
  {
    forall row | row in RowsOf(chunk, key) ensures row.key == key { FilterMember(chunk, Has(key), row); }
  }

  datatype SamplerError = NoTraceRows | SelectedNoRows

  datatype Sampled = Sampled(rows: seq<Row>, selectedSamples: map<TraceKey, nat>)

  /** For every chunk size and every interleaving of traces, the output holds of
      each trace what the second pass selects, and the audited number of samples is
      the number of these rows. Refused are an empty file, and one of which nothing
      is selected. */
  method SampleBudgetStreaming(file: seq<Row>, second: seq<Row>, chunksize: nat, choose: Chooser)
    returns (r: Result<Sampled, SamplerError>)
    requires chunksize > 0 && ValidChooser(choose) && |second| == |file|
    ensures r == Err(NoTraceRows) <==> file == []
    ensures r == Err(SelectedNoRows) <==> file != [] && forall key :: Streamed(file, second, key, choose) == []
    ensures r.Ok? ==> forall key :: RowsOf(r.value.rows, key) == Streamed(file, second, key, choose)
    ensures r.Ok? ==> forall key :: CountOf(r.value.selectedSamples, key) == |Streamed(file, second, key, choose)|
  {
    hide Streamed;
    var counts := CountTraceRows(file, chunksize);
    if file != [] {
      NonEmptyTrace(file);
      assert file[0].key in counts;
    }
    if counts == map[] { return Err(NoTraceRows); }
    var targets := map key | key in counts :: choose(key, counts[key]);
    var p := Progress(map[], map[], []);
    var from := 0;
    NothingRead(file, second, choose);
    while from < |second|
      invariant 0 <= from <= |second|
      invariant AllThrough(p, file, second, choose, from)
    {
      var upto := if from + chunksize < |second| then from + chunksize else |second|;
      p := SelectChunk(p, file, second, from, upto, targets, choose);
      from := upto;
    }
    assert second[..|second|] == second;
    forall key ensures RowsOf(p.selected, key) == Streamed(file, second, key, choose)
                    && CountOf(p.selectedCounts, key) == |Streamed(file, second, key, choose)|
    {
      ThroughAll(p, file, second, key, choose);
    }
    NothingSelected(p.selected);
    if p.selected == [] { return Err(SelectedNoRows); }
    return Ok(Sampled(p.selected, p.selectedCounts));
  }

  lemma ThroughAll(p: Progress, file: seq<Row>, second: seq<Row>, key: TraceKey, choose: Chooser)
    requires ValidChooser(choose) && Through(p, key, RowsOf(second, key), Positions(file, key, choose), |RowsOf(second, key)|)
    ensures RowsOf(p.selected, key) == Streamed(file, second, key, choose)
    ensures CountOf(p.selectedCounts, key) == |Streamed(file, second, key, choose)|
  {
  }

  lemma NothingSelected(rows: seq<Row>)
    ensures rows == [] <==> forall key :: RowsOf(rows, key) == []
  {
    if rows != [] { NonEmptyTrace(rows); }
  }

  lemma NonEmptyTrace(file: seq<Row>)
    requires file != []
    ensures RowsOf(file, file[0].key) != []
  {
    FilterMember(file, Has(file[0].key), file[0]);
  }

  // ----- when streaming is direct selection -----

  /** Both passes take the same rows for every trace. */
  ghost predicate SameTraces(file: seq<Row>, second: seq<Row>) {
    forall key :: RowsOf(second, key) == RowsOf(file, key)
  }

  /** Whatever positions are chosen, every trace is selected as directly. */
  ghost predicate IsDirect(file: seq<Row>, second: seq<Row>) {
    forall choose: Chooser, key :: ValidChooser(choose) ==> Streamed(file, second, key, choose) == Selection(file, key, choose)
  }

  /** Streaming equals direct selection exactly when the second pass takes the same
      rows for every trace as the first. */
  lemma DirectExactly(file: seq<Row>, second: seq<Row>)
    requires |second| == |file|
    ensures IsDirect(file, second) <==> SameTraces(file, second)
  {
    if SameTraces(file, second) {
      forall choose: Chooser, key | ValidChooser(choose) ensures Streamed(file, second, key, choose) == Selection(file, key, choose) {
        SameTraceIsDirect(file, second, key, choose);
      }
    }
    if IsDirect(file, second) {
      forall key ensures RowsOf(file, key) <= RowsOf(second, key) { AllChosen(file, second, key); }
      PrefixesAreEqual(file, second);
    }
  }

  lemma SameTraceIsDirect(file: seq<Row>, second: seq<Row>, key: TraceKey, choose: Chooser)
    requires ValidChooser(choose) && RowsOf(second, key) == RowsOf(file, key)
    ensures Streamed(file, second, key, choose) == Selection(file, key, choose)
  {
    var positions, n := Positions(file, key, choose), |RowsOf(file, key)|;
    assert ValidPositions(positions, n);
    assert SearchSorted(positions, n) == |positions| && positions[..|positions|] == positions;
  }

  function Everything(): Chooser {
    (key: TraceKey, n: nat) => Range(n)
  }

  /** When every row is chosen, the rows of the first pass come first in the
      second. */
  lemma AllChosen(file: seq<Row>, second: seq<Row>, key: TraceKey)
    requires IsDirect(file, second)
    ensures RowsOf(file, key) <= RowsOf(second, key)
  {
    hide RowsOf;
    var all, wanted := RowsOf(second, key), RowsOf(file, key);
    assert ValidChooser(Everything());
    assert Streamed(file, second, key, Everything()) == Selection(file, key, Everything());
    assert Selection(file, key, Everything()) == wanted;
    var below := SearchSorted(Range(|wanted|), |all|);
    assert |Streamed(file, second, key, Everything())| == below;
    assert forall i :: 0 <= i < |wanted| ==> wanted[i] == all[i];
  }

  function Copies(rows: seq<Row>, row: Row): nat {
    multiset(rows)[row]
  }

  lemma {:induction false} CopiesOfTrace(rows: seq<Row>, row: Row)
    ensures Copies(RowsOf(rows, row.key), row) == Copies(rows, row)
  {
    if rows != [] {
      CopiesOfTrace(rows[..|rows| - 1], row);
      assert rows == rows[..|rows| - 1] + [rows[|rows| - 1]];
    }
  }

  lemma PrefixesAreEqual(file: seq<Row>, second: seq<Row>)
    requires |second| == |file| && forall key :: RowsOf(file, key) <= RowsOf(second, key)
    ensures SameTraces(file, second)
  {
    forall row ensures multiset(file)[row] <= multiset(second)[row] {
      CopiesOfTrace(file, row);
      CopiesOfTrace(second, row);
      PrefixCopies(RowsOf(file, row.key), RowsOf(second, row.key), row);
    }
    assert multiset(file) <= multiset(second);
    assert multiset(second) == multiset(file) + (multiset(second) - multiset(file));
    assert |multiset(second) - multiset(file)| == 0;
    forall key ensures RowsOf(second, key) == RowsOf(file, key) {
      TraceLength(file, second, key);
    }
  }

  lemma PrefixCopies(short: seq<Row>, long: seq<Row>, row: Row)
    requires short <= long
    ensures Copies(short, row) <= Copies(long, row)
  {
    assert long == short + long[|short|..];
  }

  lemma TraceLength(a: seq<Row>, b: seq<Row>, key: TraceKey)
    requires multiset(a) == multiset(b)
    ensures |RowsOf(a, key)| == |RowsOf(b, key)|
  {
    forall row ensures multiset(RowsOf(a, key))[row] == multiset(RowsOf(b, key))[row] {
      if row.key == key {
        CopiesOfTrace(a, row);
        CopiesOfTrace(b, row);
      } else {
        FilterMember(a, Has(key), row);
        FilterMember(b, Has(key), row);
        assert row !in RowsOf(a, key) && row !in RowsOf(b, key);
      }
    }
    assert multiset(RowsOf(a, key)) == multiset(RowsOf(b, key));
    assert |multiset(RowsOf(a, key))| == |RowsOf(a, key)| && |multiset(RowsOf(b, key))| == |RowsOf(b, key)|;
  }

  predicate DistinctData(file: seq<Row>) {
    forall i, j :: 0 <= i < j < |file| ==> file[i].data != file[j].data
  }

  /** Rereading distinguishable rows selects directly exactly when every row keeps
      its key. */
  lemma DirectIffKeysKept(file: seq<Row>, second: seq<Row>)
    requires |second| == |file| && (forall i :: 0 <= i < |file| ==> second[i].data == file[i].data) && DistinctData(file)
    ensures IsDirect(file, second) <==> forall i :: 0 <= i < |file| ==> second[i].key == file[i].key
  {
    DirectExactly(file, second);
    if SameTraces(file, second) {
      forall i | 0 <= i < |file| ensures second[i].key == file[i].key {
        var key := file[i].key;
        FilterMember(file, Has(key), file[i]);
        assert RowsOf(second, key) == RowsOf(file, key);
        FilterMember(second, Has(key), file[i]);
        var k :| 0 <= k < |second| && second[k] == file[i];
        assert file[k].data == file[i].data;
      }
    }
    if forall i :: 0 <= i < |file| ==> second[i].key == file[i].key {
      assert second == file;
    }
  }

  /** A client that the second pass reads as a number loses its rows. */
  lemma RespelledTraceIsLost(choose: Chooser)
    requires ValidChooser(choose)
    ensures var key, respelled := TraceKey("run", "007", "proxy"), TraceKey("run", "7", "proxy");
            var file, second := [Row(key, 0)], [Row(respelled, 0)];
            && Streamed(file, second, key, choose) == []
            && Selection(file, key, choose) != []
  {
    var key, respelled := TraceKey("run", "007", "proxy"), TraceKey("run", "7", "proxy");
    var file, second := [Row(key, 0)], [Row(respelled, 0)];
    assert "007" != "7" by { assert |"007"| != |"7"|; }
    FilterNothing(second, Has(key));
    FilterEverything(file, Has(key));
    var positions := Positions(file, key, choose);
    SortedZero(positions);
    assert ValidPositions(positions, 1);
  }
}
