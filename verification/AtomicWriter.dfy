/** The staging writer of the sampled builder
    (build_packet_cross_vantage_atomic_sampled.py, AtomicPacketWriter): what it
    writes for each trace, and why its own validation never fails. */
module AtomicWriter {
  import opened Results
  import opened Seqs
  import opened Randomness
  import opened PacketUnits
  import opened AtomicSampler

  datatype Role = Client | Server | Proxy

  /** One file of the dataset, restricted to one role. */
  datatype Cell = Cell(k: int, role: Role)

  datatype Experiment = Experiment(name: string)

  datatype Trace = Trace(run: Experiment, client: string)

  datatype Row = Row(cell: Cell, trace: Trace, unit: Unit)

  /** One line of the sampling audit. */
  datatype Audit = Audit(cell: Cell, trace: Trace, packets: nat, available: nat, selected: nat)

  /** The generators, by budget, trace and role; the digest that seeds them is
      not modelled. */
  type Seeds = map<(int, Trace, Role), Rng>

  function Seeded(seeds: Seeds, cell: Cell, trace: Trace): Rng {
    if (cell.k, trace, cell.role) in seeds then seeds[(cell.k, trace, cell.role)] else Rng(map[], map[], map[])
  }

  /** A counter and a collection of sets, both empty where nothing is stored. */
  function Count(m: map<Cell, nat>, cell: Cell): nat {
    if cell in m then m[cell] else 0
  }

  function Plus(m: map<Cell, nat>, cell: Cell, n: nat): map<Cell, nat> {
    if n == 0 then m else m[cell := Count(m, cell) + n]
  }

  function Members<T>(m: map<Cell, set<T>>, cell: Cell): set<T> {
    if cell in m then m[cell] else {}
  }

  function With<T>(m: map<Cell, set<T>>, cell: Cell, x: T): map<Cell, set<T>> {
    m[cell := Members(m, cell) + {x}]
  }

  lemma WithTwice<T>(m: map<Cell, set<T>>, cell: Cell, x: T)
    ensures With(With(m, cell, x), cell, x) == With(m, cell, x)
  {
  }

  lemma PlusNothing(m: map<Cell, nat>, cell: Cell)
    ensures Plus(m, cell, 0) == m
  {
  }

  lemma PlusOne(m: map<Cell, nat>, cell: Cell, n: nat)
    ensures Plus(m, cell, n + 1) == Plus(m, cell, n)[cell := Count(Plus(m, cell, n), cell) + 1]
  {
  }

  function RowsFor(cell: Cell, trace: Trace, units: seq<Unit>): (rows: seq<Row>)
    ensures |rows| == |units|
  {
    seq(|units|, i requires 0 <= i < |units| => Row(cell, trace, units[i]))
  }

  /** What one trace adds to the file of one budget. */
  function CellRows(cell: Cell, trace: Trace, packets: seq<Packet>, cap: int, seeds: Seeds): seq<Row>
    requires cell.k > 0
  {
    RowsFor(cell, trace, Selected(packets, cell.k, cap, Seeded(seeds, cell, trace)))
  }

  predicate Positive(budgets: seq<int>) {
    forall i :: 0 <= i < |budgets| ==> budgets[i] > 0
  }

  /** What one trace adds to the files of all budgets. */
  function TraceRows(budgets: seq<int>, role: Role, trace: Trace, packets: seq<Packet>, cap: int, seeds: Seeds): seq<Row>
    requires Positive(budgets)
  {
    if budgets == [] then [] else
      var last := |budgets| - 1;
      TraceRows(budgets[..last], role, trace, packets, cap, seeds) +
      CellRows(Cell(budgets[last], role), trace, packets, cap, seeds)
  }

  /** The audit line of one trace and budget; none when it has no unit. */
  function CellAudit(cell: Cell, trace: Trace, packets: seq<Packet>, cap: int, seeds: Seeds): seq<Audit>
    requires cell.k > 0
  {
    var n := Units(|packets|, cell.k);
    if n == 0 then [] else
      [Audit(cell, trace, |packets|, n, |Selected(packets, cell.k, cap, Seeded(seeds, cell, trace))|)]
  }

  /** The audit lines of one trace. */
  function TraceAudits(budgets: seq<int>, role: Role, trace: Trace, packets: seq<Packet>, cap: int, seeds: Seeds): seq<Audit>
    requires Positive(budgets)
  {
    if budgets == [] then [] else
      var last := |budgets| - 1;
      TraceAudits(budgets[..last], role, trace, packets, cap, seeds) +
      CellAudit(Cell(budgets[last], role), trace, packets, cap, seeds)
  }

  lemma {:induction false} NoPacketsNoRows(budgets: seq<int>, role: Role, trace: Trace, cap: int, seeds: Seeds)
    requires Positive(budgets)
    ensures TraceRows(budgets, role, trace, [], cap, seeds) == []
    ensures TraceAudits(budgets, role, trace, [], cap, seeds) == []
  {
    if budgets != [] {
      NoPacketsNoRows(budgets[..|budgets| - 1], role, trace, cap, seeds);
      SelectedCount([], budgets[|budgets| - 1], cap, Seeded(seeds, Cell(budgets[|budgets| - 1], role), trace));
      NoUnits(budgets[|budgets| - 1]);
    }
  }

  lemma NoUnits(k: nat)
    requires k > 0
    ensures Units(0, k) == 0
  {
    UnitInside(0, k, 0);
  }

  /** As many units are selected as there are, up to the cap. */
  lemma SelectedCount(packets: seq<Packet>, k: nat, cap: int, rng: Rng)
    requires k > 0
    ensures var n := Units(|packets|, k);
            |Selected(packets, k, cap, rng)| == if cap <= 0 || n <= cap then n else cap
  {
    hide Units;
  }

  function InCell(cell: Cell): Row -> bool {
    (r: Row) => r.cell == cell
  }

  function TracesIn(rows: seq<Row>, cell: Cell): set<Trace> {
    set r | r in rows && r.cell == cell :: r.trace
  }

  function RunsIn(rows: seq<Row>, cell: Cell): set<Experiment> {
    set r | r in rows && r.cell == cell :: r.trace.run
  }

  predicate CountsHold(counts: map<Cell, nat>, available: map<Cell, nat>, rows: seq<Row>, cell: Cell) {
    Count(counts, cell) == |Filter(rows, InCell(cell))| <= Count(available, cell)
  }

  predicate MembersHold(traces: map<Cell, set<Trace>>, experiments: map<Cell, set<Experiment>>, rows: seq<Row>, cell: Cell) {
    Members(traces, cell) == TracesIn(rows, cell) && Members(experiments, cell) == RunsIn(rows, cell)
  }

  lemma CountsKept(counts: map<Cell, nat>, available: map<Cell, nat>, rows: seq<Row>, at: Cell, trace: Trace, units: seq<Unit>, n: nat, cell: Cell)
    requires CountsHold(counts, available, rows, cell) && 0 < |units| <= n
    ensures CountsHold(Plus(counts, at, |units|), Plus(available, at, n), rows + RowsFor(at, trace, units), cell)
  {
    var more := RowsFor(at, trace, units);
    FilterAppend(rows, more, InCell(cell));
    if cell == at {
      FilterEverything(more, InCell(cell));
    } else {
      FilterNothing(more, InCell(cell));
    }
  }

  lemma MembersKept(traces: map<Cell, set<Trace>>, experiments: map<Cell, set<Experiment>>, rows: seq<Row>, at: Cell, trace: Trace, units: seq<Unit>, cell: Cell)
    requires MembersHold(traces, experiments, rows, cell) && units != []
    ensures MembersHold(With(traces, at, trace), With(experiments, at, trace.run), rows + RowsFor(at, trace, units), cell)
  {
    var more := RowsFor(at, trace, units);
    assert more[0] in more && more[0] == Row(at, trace, units[0]);
    assert forall r :: r in more ==> r.cell == at && r.trace == trace;
    assert forall r :: r in rows + more <==> r in rows || r in more;
    assert TracesIn(rows + more, cell) == TracesIn(rows, cell) + if cell == at then {trace} else {};
    assert RunsIn(rows + more, cell) == RunsIn(rows, cell) + if cell == at then {trace.run} else {};
  }

  /** The selected and the available units that the audit lists for one cell. */
  function AuditedSelected(audit: seq<Audit>, cell: Cell): nat {
    if audit == [] then 0 else
      var last := audit[|audit| - 1];
      AuditedSelected(audit[..|audit| - 1], cell) + if last.cell == cell then last.selected else 0
  }

  function AuditedAvailable(audit: seq<Audit>, cell: Cell): nat {
    if audit == [] then 0 else
      var last := audit[|audit| - 1];
      AuditedAvailable(audit[..|audit| - 1], cell) + if last.cell == cell then last.available else 0
  }

  predicate AuditHolds(audit: seq<Audit>, counts: map<Cell, nat>, available: map<Cell, nat>, cell: Cell) {
    Count(counts, cell) == AuditedSelected(audit, cell) && Count(available, cell) == AuditedAvailable(audit, cell)
  }

  lemma AuditKept(audit: seq<Audit>, counts: map<Cell, nat>, available: map<Cell, nat>, line: Audit, cell: Cell)
    requires AuditHolds(audit, counts, available, cell)
    ensures AuditHolds(audit + [line], Plus(counts, line.cell, line.selected), Plus(available, line.cell, line.available), cell)
  {
    assert (audit + [line])[..|audit|] == audit;
  }

  class AtomicPacketWriter {
    const budgets: seq<int>
    var counts: map<Cell, nat>
    var traces: map<Cell, set<Trace>>
    var experiments: map<Cell, set<Experiment>>
    var expectedTraces: map<Cell, set<Trace>>
    var expectedExperiments: map<Cell, set<Experiment>>
    var availableUnits: map<Cell, nat>
    var traceAudit: seq<Audit>
    /** The rows of all files, in the order of writing. */
    var rows: seq<Row>

    /** The counters describe the rows: per file and role, as many rows as are
        counted and no more than were available, from exactly the traces and
        experiments that are expected; and the audit adds up to the counters. */
    ghost predicate Valid()
      reads this
    {
      Positive(budgets) && forall cell: Cell ::
        && CountsHold(counts, availableUnits, rows, cell)
        && MembersHold(traces, experiments, rows, cell)
        && MembersHold(expectedTraces, expectedExperiments, rows, cell)
        && AuditHolds(traceAudit, counts, availableUnits, cell)
    }

    constructor (budgets: seq<int>)
      requires Positive(budgets)
      ensures Valid() && this.budgets == budgets && rows == [] && traceAudit == []
    {
      this.budgets := budgets;
      counts, availableUnits := map[], map[];
      traces, expectedTraces := map[], map[];
      experiments, expectedExperiments := map[], map[];
      traceAudit, rows := [], [];
    }

    /** The audit accounts for every row: per file and role it lists as many selected
        units as there are rows, and at least as many available ones. */
    lemma AuditCountsRows(cell: Cell)
      requires Valid()
      ensures AuditedSelected(traceAudit, cell) == |Filter(rows, InCell(cell))| <= AuditedAvailable(traceAudit, cell)
    {
      assert CountsHold(counts, availableUnits, rows, cell) && AuditHolds(traceAudit, counts, availableUnits, cell);
    }

    /** The innermost loop: write the units of one trace for one budget. */
    method WriteUnits(cell: Cell, trace: Trace, units: seq<Unit>) returns (selected: nat)
      modifies `counts, `traces, `experiments, `rows
      ensures rows == old(rows) + RowsFor(cell, trace, units)
      ensures counts == Plus(old(counts), cell, |units|)
      ensures traces == if units == [] then old(traces) else With(old(traces), cell, trace)
      ensures experiments == if units == [] then old(experiments) else With(old(experiments), cell, trace.run)
      ensures selected == |units|
    {
      hide With, Plus, Count;
      WithTwice(traces, cell, trace);
      WithTwice(experiments, cell, trace.run);
      PlusNothing(counts, cell);
      selected := 0;
      for i := 0 to |units|
        invariant rows == old(rows) + RowsFor(cell, trace, units)[..i]
        invariant counts == Plus(old(counts), cell, i)
        invariant traces == if i == 0 then old(traces) else With(old(traces), cell, trace)
        invariant experiments == if i == 0 then old(experiments) else With(old(experiments), cell, trace.run)
        invariant selected == i
      {
        PlusOne(old(counts), cell, i);
        rows := rows + [Row(cell, trace, units[i])];
        counts := counts[cell := Count(counts, cell) + 1];
        traces := With(traces, cell, trace);
        experiments := With(experiments, cell, trace.run);
        selected := selected + 1;
      }
      assert RowsFor(cell, trace, units)[..|units|] == RowsFor(cell, trace, units);
    }

    /** Write the selected units of one trace to the file of every budget. */
    method WriteTrace(role: Role, trace: Trace, packets: seq<Packet>, cap: int, seeds: Seeds)
      requires Valid()
      modifies this
      ensures Valid()
      ensures rows == old(rows) + TraceRows(budgets, role, trace, packets, cap, seeds)
      ensures traceAudit == old(traceAudit) + TraceAudits(budgets, role, trace, packets, cap, seeds)
    {
      hide CountsHold, MembersHold, AuditHolds, CellRows, CellAudit;
      if packets == [] {
        NoPacketsNoRows(budgets, role, trace, cap, seeds);
        return;
      }
      for b := 0 to |budgets|
        invariant Valid()
        invariant rows == old(rows) + TraceRows(budgets[..b], role, trace, packets, cap, seeds)
        invariant traceAudit == old(traceAudit) + TraceAudits(budgets[..b], role, trace, packets, cap, seeds)
      {
        assert budgets[..b + 1][..b] == budgets[..b];
        WriteBudget(Cell(budgets[b], role), trace, packets, cap, seeds);
      }
      assert budgets[..|budgets|] == budgets;
    }

    /** One turn of the loop over the budgets. */
    method WriteBudget(cell: Cell, trace: Trace, packets: seq<Packet>, cap: int, seeds: Seeds)
      requires Valid() && cell.k > 0
      modifies this
      ensures Valid()
      ensures rows == old(rows) + CellRows(cell, trace, packets, cap, seeds)
      ensures traceAudit == old(traceAudit) + CellAudit(cell, trace, packets, cap, seeds)
    {
      hide CountsHold, MembersHold, AuditHolds, Units, Selected, Count, Members, Plus, With;
      var n := if cell.k == 1 then |packets| else |packets| / cell.k;
      var rng := Seeded(seeds, cell, trace);
      UnitsIs(|packets|, cell.k);
      UnitInside(|packets|, cell.k, 0);
      SelectedCount(packets, cell.k, cap, rng);
      if n <= 0 { return; }
      expectedTraces := With(expectedTraces, cell, trace);
      expectedExperiments := With(expectedExperiments, cell, trace.run);
      availableUnits := Plus(availableUnits, cell, n);
      var units := SelectedUnitsForBudget(packets, cell.k, cap, rng);
      var selected := WriteUnits(cell, trace, units.value);
      var line := Audit(cell, trace, |packets|, n, selected);
      traceAudit := traceAudit + [line];
      forall at: Cell
        ensures CountsHold(counts, availableUnits, rows, at) && MembersHold(traces, experiments, rows, at)
        ensures MembersHold(expectedTraces, expectedExperiments, rows, at)
        ensures AuditHolds(traceAudit, counts, availableUnits, at)
      {
        AuditKept(old(traceAudit), old(counts), old(availableUnits), line, at);
        CountsKept(old(counts), old(availableUnits), old(rows), cell, trace, units.value, n, at);
        MembersKept(old(traces), old(experiments), old(rows), cell, trace, units.value, at);
        MembersKept(old(expectedTraces), old(expectedExperiments), old(rows), cell, trace, units.value, at);
      }
    }

    /** The files and roles whose traces or experiments are not the expected
        ones. There are never any. */
    method Validate() returns (problems: seq<Problem>)
      requires Valid()
      ensures problems == []
    {
      problems := [];
      var roles := [Client, Server, Proxy];
      for b := 0 to |budgets|
        invariant problems == []
      {
        for i := 0 to 3
          invariant problems == []
        {
          var cell := Cell(budgets[b], roles[i]);
          assert MembersHold(traces, experiments, rows, cell) && MembersHold(expectedTraces, expectedExperiments, rows, cell);
          if Members(expectedTraces, cell) - Members(traces, cell) != {} { problems := problems + [MissingTraces(cell)]; }
          if Members(traces, cell) - Members(expectedTraces, cell) != {} { problems := problems + [ExtraTraces(cell)]; }
          if Members(expectedExperiments, cell) - Members(experiments, cell) != {} {
            problems := problems + [MissingExperiments(cell)];
          }
        }
      }
    }
  }

  datatype Problem = MissingTraces(cell: Cell) | ExtraTraces(cell: Cell) | MissingExperiments(cell: Cell)

  // ----- the audit lines -----

  /** A trace has one audit line for each budget that it has a whole unit for, in the
      order of the budgets: how many packets it has, how many whole units, and how
      many of them are selected, at most the cap. */
  lemma {:induction false} AuditLines(budgets: seq<int>, role: Role, trace: Trace, packets: seq<Packet>, cap: int, seeds: Seeds)
    returns (at: seq<nat>)
    requires Positive(budgets)
    ensures var audits := TraceAudits(budgets, role, trace, packets, cap, seeds);
            && Increasing(at) && |at| == |audits|
            && (forall b: nat :: b in at <==> b < |budgets| && budgets[b] <= |packets|)
            && forall j :: 0 <= j < |at| ==> at[j] < |budgets| && IsAudit(audits[j], budgets[at[j]], role, trace, |packets|, cap)
  {
    hide IsAudit, CellAudit;
    at := [];
    if budgets != [] {
      var last := |budgets| - 1;
      at := AuditLines(budgets[..last], role, trace, packets, cap, seeds);
      AuditOf(Cell(budgets[last], role), trace, packets, cap, seeds);
      if budgets[last] <= |packets| { at := OnePlaceMore(at, last); }
    }
  }

  predicate IsAudit(line: Audit, k: int, role: Role, trace: Trace, packets: nat, cap: int) {
    && line.cell == Cell(k, role) && line.trace == trace && line.packets == packets
    && line.available * k <= packets < line.available * k + k
    && line.selected == if 0 < cap < line.available then cap else line.available
  }

  lemma AuditOf(cell: Cell, trace: Trace, packets: seq<Packet>, cap: int, seeds: Seeds)
    requires cell.k > 0
    ensures var audits := CellAudit(cell, trace, packets, cap, seeds);
            if cell.k <= |packets|
            then |audits| == 1 && IsAudit(audits[0], cell.k, cell.role, trace, |packets|, cap)
            else audits == []
  {
    SelectedCount(packets, cell.k, cap, Seeded(seeds, cell, trace));
    UnitInside(|packets|, cell.k, 0);
    WholeBlocks(|packets|, cell.k);
  }
}
