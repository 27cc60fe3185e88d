/** The sampled builder (build_packet_cross_vantage_atomic_sampled.py). */
module AtomicSampler {
  import opened Results
  import opened Seqs
  import opened Randomness
  import opened PacketUnits
  import opened Strata

  /** The positions chosen among n units: all of them, or one in each stratum. */
  function Positions(n: nat, cap: int, rng: Rng): seq<nat> {
    if cap <= 0 || n <= cap then Range(n)
    else seq(cap, i requires 0 <= i < cap => StrataTile(n, cap, i); Chosen(n, cap, i, rng))
  }

  function Chosen(n: nat, cap: nat, i: nat, rng: Rng): (p: nat)
    requires 0 < cap <= n && i < cap
    ensures Low(n, cap, i) <= p < Low(n, cap, i + 1)
  {
    StrataTile(n, cap, i);
    Low(n, cap, i) + rng.Below(i, Low(n, cap, i + 1) - Low(n, cap, i))
  }

  method StratifiedPositions(n: int, cap: int, rng: Rng) returns (positions: seq<nat>)
    ensures positions == Positions(if n < 0 then 0 else n, cap, rng)
  {
    hide Low;
    if n <= 0 { return []; }
    if cap <= 0 || n <= cap { return Range(n); }
    positions := [];
    for i := 0 to cap
      invariant positions == Positions(n, cap, rng)[..i]
    {
      StrataTile(n, cap, i);
      var lo := i * n / cap;
      var hi := (i + 1) * n / cap;
      LowIs(n, cap, i);
      if hi <= lo { hi := lo + 1; }
      var top := if hi < n then hi else n;
      positions := positions + [lo + rng.Below(i, top - lo)];
    }
  }

  /** The units at some positions. */
  function UnitsAt(packets: seq<Packet>, k: nat, positions: seq<nat>): (units: seq<Unit>)
    requires k > 0 && forall j :: 0 <= j < |positions| ==> positions[j] < Units(|packets|, k)
    ensures |units| == |positions|
  {
    seq(|positions|, j requires 0 <= j < |positions| => UnitAt(packets, k, positions[j]))
  }

  /** The units of the sampled builder: those of the full iterator at the chosen
      positions. */
  function Selected(packets: seq<Packet>, k: nat, cap: int, rng: Rng): seq<Unit>
    requires k > 0
  {
    PositionsInside(Units(|packets|, k), cap, rng);
    UnitsAt(packets, k, Positions(Units(|packets|, k), cap, rng))
  }

  lemma PositionsInside(n: nat, cap: int, rng: Rng)
    ensures forall j :: 0 <= j < |Positions(n, cap, rng)| ==> Positions(n, cap, rng)[j] < n
  {
    hide Low;
    if 0 < cap < n {
      forall j: nat | j < cap ensures Positions(n, cap, rng)[j] < n { StrataTile(n, cap, j); }
    }
  }

  /** The generator of the sampled builder. It never meets a short block. */
  method SelectedUnitsForBudget(packets: seq<Packet>, k: int, cap: int, rng: Rng)
    returns (r: Result<seq<Unit>, BudgetError>)
    ensures r == if k <= 0 then Err(BudgetNotPositive) else Ok(Selected(packets, k, cap, rng))
  {
    hide Positions, Units;
    if k <= 0 { return Err(BudgetNotPositive); }
    UnitInside(|packets|, k, 0);
    var n := if k == 1 then |packets| else |packets| / k;
    UnitsIs(|packets|, k);
    var positions := StratifiedPositions(n, cap, rng);
    PositionsInside(n, cap, rng);
    var units: seq<Unit> := [];
    if k == 1 {
      for j := 0 to |positions|
        invariant units == Selected(packets, k, cap, rng)[..j]
      {
        var index := positions[j];
        var previous := if index == 0 then None else Some(packets[index - 1].timestamp);
        units := units + [Unit(index, index, index, SinglePacketFeatures(packets[index], previous))];
      }
      assert Selected(packets, k, cap, rng)[..|positions|] == Selected(packets, k, cap, rng);
      return Ok(units);
    }
    for j := 0 to |positions|
      invariant units == Selected(packets, k, cap, rng)[..j]
    {
      UnitInside(|packets|, k, positions[j]);
      var start := positions[j] * k;
      var end := start + k;
      var block := packets[start..if end < |packets| then end else |packets|];
      if |block| != k { continue; }
      units := units + [Unit(positions[j], start, end - 1, Block(block))];
    }
    assert Selected(packets, k, cap, rng)[..|positions|] == Selected(packets, k, cap, rng);
    return Ok(units);
  }

  lemma UnitsIs(n: nat, k: nat)
    requires k > 0
    ensures Units(n, k) == n / k
  {
  }

  // ----- what is selected -----

  /** All units when there is no cap or it is not exceeded. */
  lemma AllWithinCap(packets: seq<Packet>, k: nat, cap: int, rng: Rng)
    requires k > 0 && (cap <= 0 || Units(|packets|, k) <= cap)
    ensures Selected(packets, k, cap, rng) == AllUnits(packets, k)
  {
  }

  /** Otherwise exactly cap units, in order, one in each stratum of units. */
  lemma OnePerStratum(packets: seq<Packet>, k: nat, cap: nat, rng: Rng)
    requires k > 0 && 0 < cap < Units(|packets|, k)
    ensures var n, units, all := Units(|packets|, k), Selected(packets, k, cap, rng), AllUnits(packets, k);
            && |units| == cap
            && (forall i: nat :: i < cap ==> units[i].index < n && InStratum(n, cap, i, units[i].index) && units[i] == all[units[i].index])
            && (forall i: nat, j: nat :: i < j < cap ==> units[i].index < units[j].index)
  {
    hide Low, Units, InStratum, Positions, UnitAt;
    var n, positions := Units(|packets|, k), Positions(Units(|packets|, k), cap, rng);
    var units := Selected(packets, k, cap, rng);
    PositionInStratum(n, cap, 0, rng);
    forall i: nat | i < cap
      ensures units[i].index < n && InStratum(n, cap, i, units[i].index) && units[i] == AllUnits(packets, k)[units[i].index]
    {
      PositionInStratum(n, cap, i, rng);
      UnitIndex(packets, k, positions[i]);
    }
    forall i: nat, j: nat | i < j < cap ensures units[i].index < units[j].index {
      StrataOrdered(n, cap, i, j, units[i].index, units[j].index);
    }
  }

  lemma UnitIndex(packets: seq<Packet>, k: nat, i: nat)
    requires k > 0 && i < Units(|packets|, k)
    ensures UnitAt(packets, k, i).index == i
  {
  }

  lemma PositionInStratum(n: nat, cap: nat, i: nat, rng: Rng)
    requires i < cap < n
    ensures |Positions(n, cap, rng)| == cap
    ensures InStratum(n, cap, i, Positions(n, cap, rng)[i]) && Positions(n, cap, rng)[i] < n
  {
    StrataTile(n, cap, i);
  }
}
