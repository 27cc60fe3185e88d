/** Packet units (ai_fingerprint/packet_fingerprinting.py,
    iter_packet_budget_samples): every packet of a trace for budget 1, its whole
    blocks of k packets for budget k. Times are exact reals. */
module PacketUnits {
  import opened Division
  import opened Results

  /** A packet: its time, and the rest of its fields, which no step looks at. */
  datatype Packet = Packet(timestamp: real, fields: nat)

  /** The feature dictionary of a unit: of one packet and the time since the
      packet before it, or of a block of packets. */
  datatype Features = Single(fields: nat, iat: real) | Block(packets: seq<Packet>)

  /** The index of a unit, its first and its last packet, its features. */
  datatype Unit = Unit(index: nat, start: nat, end: int, features: Features)

  datatype BudgetError = BudgetNotPositive

  function SinglePacketFeatures(packet: Packet, previous: Option<real>): Features {
    Single(packet.fields,
           if previous.Some? && packet.timestamp > previous.value then packet.timestamp - previous.value else 0.0)
  }

  /** How many units n packets hold. */
  function Units(n: nat, k: nat): nat
    requires k > 0
  {
    n / k
  }

  /** Unit i of a trace: packets i*k up to, but not including, (i+1)*k. */
  function UnitAt(packets: seq<Packet>, k: nat, i: nat): Unit
    requires k > 0 && i < Units(|packets|, k)
  {
    UnitInside(|packets|, k, i);
    if k == 1 then
      Unit(i, i, i, SinglePacketFeatures(packets[i], if i == 0 then None else Some(packets[i - 1].timestamp)))
    else
      Unit(i, i * k, i * k + k - 1, Block(packets[i * k..i * k + k]))
  }

  lemma UnitInside(n: nat, k: nat, i: nat)
    requires k > 0
    ensures i < Units(n, k) <==> i * k + k <= n
    ensures k == 1 ==> Units(n, k) == n && i * k == i
  {
    var q, rest := n / k, n % k;
    assert n == q * k + rest && rest < k;
    assert (i + 1) * k == i * k + k;
    if i < q { Multiplied(i + 1, q, k); } else { Multiplied(q, i, k); }
    if k == 1 { QuotientIs(n, 1, n, 0); }
  }

  /** All units of a trace, in order. */
  function AllUnits(packets: seq<Packet>, k: nat): (units: seq<Unit>)
    requires k > 0
    ensures |units| == Units(|packets|, k)
  {
    seq(Units(|packets|, k), i requires 0 <= i < Units(|packets|, k) => UnitAt(packets, k, i))
  }

  lemma NextUnit(packets: seq<Packet>, k: nat, i: nat)
    requires k > 0 && i < Units(|packets|, k)
    ensures AllUnits(packets, k)[..i + 1] == AllUnits(packets, k)[..i] + [UnitAt(packets, k, i)]
    ensures k == 1 ==>
              && i < |packets|
              && UnitAt(packets, k, i) ==
                 Unit(i, i, i, SinglePacketFeatures(packets[i], if i == 0 then None else Some(packets[i - 1].timestamp)))
    ensures k > 1 ==>
              && i * k + k <= |packets|
              && UnitAt(packets, k, i) == Unit(i, i * k, i * k + k - 1, Block(packets[i * k..i * k + k]))
  {
    UnitInside(|packets|, k, i);
  }

  /** The full iterator. */
  method IterPacketBudgetSamples(packets: seq<Packet>, k: int) returns (r: Result<seq<Unit>, BudgetError>)
    ensures r == if k <= 0 then Err(BudgetNotPositive) else Ok(AllUnits(packets, k))
  {
    hide Units, UnitAt;
    if k <= 0 { return Err(BudgetNotPositive); }
    var units: seq<Unit> := [];
    if k == 1 {
      var previous: Option<real> := None;
      UnitInside(|packets|, 1, 0);
      for index := 0 to |packets|
        invariant units == AllUnits(packets, 1)[..index]
        invariant previous == if index == 0 then None else Some(packets[index - 1].timestamp)
      {
        NextUnit(packets, 1, index);
        units := units + [Unit(index, index, index, SinglePacketFeatures(packets[index], previous))];
        previous := Some(packets[index].timestamp);
      }
      assert AllUnits(packets, 1)[..|packets|] == AllUnits(packets, 1);
      return Ok(units);
    }
    var start, blockIndex := 0, 0;
    while start < |packets| - k + 1
      invariant start == blockIndex * k && 0 <= start && 0 <= blockIndex <= Units(|packets|, k)
      invariant units == AllUnits(packets, k)[..blockIndex]
    {
      UnitInside(|packets|, k, blockIndex);
      NextUnit(packets, k, blockIndex);
      var end := start + k;
      units := units + [Unit(blockIndex, start, end - 1, Block(packets[start..end]))];
      blockIndex := blockIndex + 1;
      start := start + k;
    }
    UnitInside(|packets|, k, blockIndex);
    assert AllUnits(packets, k)[..|AllUnits(packets, k)|] == AllUnits(packets, k);
    return Ok(units);
  }

  // ----- what the units are -----

  /** The units are the whole blocks of k packets, one after the other. For k = 1 a
      unit is a packet with the time since its predecessor, never negative; for
      larger k it is the k packets themselves. */
  lemma UnitsAre(packets: seq<Packet>, k: nat, i: nat)
    requires k > 0 && i < |AllUnits(packets, k)|
    ensures |AllUnits(packets, k)| * k <= |packets| < |AllUnits(packets, k)| * k + k
    ensures i * k + k <= |packets|
    ensures var unit := AllUnits(packets, k)[i];
            && unit.index == i && unit.start == i * k && unit.end == i * k + k - 1
            && (k == 1 ==>
                  unit.features == Single(packets[i].fields,
                    if i > 0 && packets[i].timestamp > packets[i - 1].timestamp
                    then packets[i].timestamp - packets[i - 1].timestamp else 0.0))
            && (k > 1 ==>
                  && unit.features.Block? && |unit.features.packets| == k
                  && forall j :: 0 <= j < k ==> unit.features.packets[j] == packets[i * k + j])
  {
    UnitInside(|packets|, k, i);
    WholeBlocks(|packets|, k);
  }

  lemma WholeBlocks(n: nat, k: nat)
    requires k > 0
    ensures Units(n, k) * k <= n < Units(n, k) * k + k
  {
    assert n == n / k * k + n % k;
  }
}
