/** Weighted federated averaging (ai_fingerprint/federated.py, fedavg), over
    exact reals. A tensor is its shape, its values in row-major order, and the
    kind of its element type. */
module FedAvg {
  import opened Results
  import opened Rounding
  import opened Seqs
  import opened Sums

  function Size(shape: seq<nat>): nat {
    if shape == [] then 1 else shape[0] * Size(shape[1..])
  }

  /** Whether elements are truth values, counted as 0 and 1, integers, or reals. */
  datatype Kind = Boolean | Integer | Real {
    predicate Has(x: real) {
      match this
      case Boolean => x == 0.0 || x == 1.0
      case Integer => x == x.Floor as real
      case Real => true
    }

    /** Every value of the other kind is one of this kind. */
    predicate Covers(other: Kind) {
      Real? || other.Boolean? || other == this
    }

    /** A mean as an element of this kind: integers are rounded, and anything but
        zero is true. */
    function Converted(mean: real): real {
      match this
      case Boolean => if mean == 0.0 then 0.0 else 1.0
      case Integer => Rint(mean) as real
      case Real => mean
    }
  }

  datatype Tensor = Tensor(shape: seq<nat>, kind: Kind, values: seq<real>) {
    predicate Valid() {
      |values| == Size(shape) && forall e :: 0 <= e < |values| ==> kind.Has(values[e])
    }
  }

  datatype ClientUpdate = ClientUpdate(parameters: seq<Tensor>, numExamples: int) {
    predicate Valid() {
      forall t :: 0 <= t < |parameters| ==> parameters[t].Valid()
    }

    function Weight(): (w: real)
      ensures w >= 1.0
    {
      if numExamples > 1 then numExamples as real else 1.0
    }

    /** Element e of tensor t, and 0 outside the tensor. */
    function At(t: nat, e: nat): real {
      if t < |parameters| && e < |parameters[t].values| then parameters[t].values[e] else 0.0
    }
  }

  datatype FedAvgError = NoUpdates | TensorCountMismatch | ShapeMismatch(tensorIndex: nat)

  predicate AllValid(updates: seq<ClientUpdate>) {
    forall j :: 0 <= j < |updates| ==> updates[j].Valid()
  }

  predicate SameCount(updates: seq<ClientUpdate>) {
    forall j :: 0 <= j < |updates| ==> |updates[j].parameters| == |updates[0].parameters|
  }

  predicate SameShape(updates: seq<ClientUpdate>, t: nat)
    requires SameCount(updates)
    requires updates != [] ==> t < |updates[0].parameters|
  {
    forall j :: 0 <= j < |updates| ==> updates[j].parameters[t].shape == updates[0].parameters[t].shape
  }

  /** The first tensor at or after t on whose shape the updates disagree. */
  function MismatchFrom(updates: seq<ClientUpdate>, t: nat): (r: Option<nat>)
    requires updates != [] && SameCount(updates) && t <= |updates[0].parameters|
    ensures r.Some? ==> t <= r.value < |updates[0].parameters| && !SameShape(updates, r.value)
    ensures forall s :: t <= s < (if r.Some? then r.value else |updates[0].parameters|) ==> SameShape(updates, s)
    decreases |updates[0].parameters| - t
  {
    if t == |updates[0].parameters| then None
    else if !SameShape(updates, t) then Some(t)
    else MismatchFrom(updates, t + 1)
  }

  function TotalWeight(updates: seq<ClientUpdate>): real {
    SumBy(updates, (u: ClientUpdate) => u.Weight())
  }

  function WeightedElement(t: nat, e: nat): ClientUpdate -> real {
    (u: ClientUpdate) => u.Weight() * u.At(t, e)
  }

  /** The weighted mean of the clients' values of one element. */
  function Mean(updates: seq<ClientUpdate>, t: nat, e: nat): real
    requires updates != []
  {
    TotalWeightPositive(updates);
    SumBy(updates, WeightedElement(t, e)) / TotalWeight(updates)
  }

  function MeanElement(updates: seq<ClientUpdate>, t: nat, e: nat): real
    requires updates != [] && t < |updates[0].parameters|
  {
    updates[0].parameters[t].kind.Converted(Mean(updates, t, e))
  }

  function MeanTensor(updates: seq<ClientUpdate>, t: nat): Tensor
    requires updates != [] && t < |updates[0].parameters|
  {
    var reference := updates[0].parameters[t];
    Tensor(reference.shape, reference.kind,
           seq(|reference.values|, e requires 0 <= e < |reference.values| => MeanElement(updates, t, e)))
  }

  /** What fedavg computes, or the exception it raises. */
  function Aggregate(updates: seq<ClientUpdate>): (r: Result<seq<Tensor>, FedAvgError>) {
    if updates == [] then Err(NoUpdates)
    else if !SameCount(updates) then Err(TensorCountMismatch)
    else match MismatchFrom(updates, 0)
      case Some(t) => Err(ShapeMismatch(t))
      case None =>
        Ok(seq(|updates[0].parameters|,
               t requires 0 <= t < |updates[0].parameters| => MeanTensor(updates, t)))
  }

  lemma {:induction false} TotalWeightPositive(updates: seq<ClientUpdate>)
    ensures TotalWeight(updates) >= |updates| as real
  {
    if updates != [] { TotalWeightPositive(updates[..|updates| - 1]); }
  }

  /** accumulator += values * weight, in place. */
  method AddScaled(accumulator: array<real>, values: seq<real>, weight: real)
    requires accumulator.Length == |values|
    modifies accumulator
    ensures forall e :: 0 <= e < |values| ==> accumulator[e] == old(accumulator[e]) + weight * values[e]
  {
    for e := 0 to |values|
      invariant forall d :: 0 <= d < e ==> accumulator[d] == old(accumulator[d]) + weight * values[d]
      invariant forall d :: e <= d < |values| ==> accumulator[d] == old(accumulator[d])
    {
      accumulator[e] := accumulator[e] + weight * values[e];
    }
  }

  lemma NextSum(updates: seq<ClientUpdate>, j: nat, t: nat, e: nat)
    requires j < |updates|
    ensures SumBy(updates[..j + 1], WeightedElement(t, e)) ==
            SumBy(updates[..j], WeightedElement(t, e)) + updates[j].Weight() * updates[j].At(t, e)
  {
    assert updates[..j + 1][..j] == updates[..j];
  }

  lemma NothingSummed(updates: seq<ClientUpdate>, t: nat)
    ensures forall e: nat :: SumBy(updates[..0], WeightedElement(t, e)) == 0.0
  {
    assert updates[..0] == [];
  }

  /** The inner loop of fedavg: every update adds its values times its weight
      to a zeroed accumulator, unless its shape differs from the first's. */
  method Accumulate(updates: seq<ClientUpdate>, t: nat, accumulator: array<real>) returns (agrees: bool)
    requires AllValid(updates) && updates != [] && SameCount(updates) && t < |updates[0].parameters|
    requires accumulator.Length == |updates[0].parameters[t].values|
    requires forall e :: 0 <= e < accumulator.Length ==> accumulator[e] == 0.0
    modifies accumulator
    ensures agrees == SameShape(updates, t)
    ensures agrees ==> forall e :: 0 <= e < accumulator.Length ==> accumulator[e] == SumBy(updates, WeightedElement(t, e))
  {
    hide SumBy, Size;
    var shape := updates[0].parameters[t].shape;
    NothingSummed(updates, t);
    for j := 0 to |updates|
      invariant forall i :: 0 <= i < j ==> updates[i].parameters[t].shape == shape
      invariant forall e :: 0 <= e < accumulator.Length ==> accumulator[e] == SumBy(updates[..j], WeightedElement(t, e))
    {
      var value := updates[j].parameters[t];
      if value.shape != shape { return false; }
      assert updates[0].Valid() && updates[j].Valid();
      AddScaled(accumulator, value.values, updates[j].Weight());
      forall e | 0 <= e < accumulator.Length ensures accumulator[e] == SumBy(updates[..j + 1], WeightedElement(t, e)) {
        NextSum(updates, j, t, e);
      }
    }
    assert updates[..|updates|] == updates;
    return true;
  }

  /** One iteration of the outer loop of fedavg. */
  method AverageTensor(updates: seq<ClientUpdate>, t: nat, totalWeight: real) returns (r: Option<Tensor>)
    requires AllValid(updates) && updates != [] && SameCount(updates) && t < |updates[0].parameters|
    requires totalWeight == TotalWeight(updates) > 0.0
    ensures r == if SameShape(updates, t) then Some(MeanTensor(updates, t)) else None
  {
    var reference := updates[0].parameters[t];
    var accumulator := new real[|reference.values|](_ => 0.0);
    var agrees := Accumulate(updates, t, accumulator);
    if !agrees { return None; }
    var averaged := Divided(accumulator[..], totalWeight, reference.kind);
    assert averaged == MeanTensor(updates, t).values;
    r := Some(Tensor(reference.shape, reference.kind, averaged));
  }

  /** accumulator / totalWeight, converted. */
  function Divided(accumulator: seq<real>, totalWeight: real, kind: Kind): (averaged: seq<real>)
    requires totalWeight > 0.0
    ensures |averaged| == |accumulator|
    ensures forall e :: 0 <= e < |accumulator| ==> averaged[e] == kind.Converted(accumulator[e] / totalWeight)
  {
    seq(|accumulator|, e requires 0 <= e < |accumulator| => kind.Converted(accumulator[e] / totalWeight))
  }

  method FedAvg(updates: seq<ClientUpdate>) returns (r: Result<seq<Tensor>, FedAvgError>)
    requires AllValid(updates)
    ensures r == Aggregate(updates)
  {
    if updates == [] { return Err(NoUpdates); }
    var tensorCount := |updates[0].parameters|;
    for j := 0 to |updates|
      invariant forall i :: 0 <= i < j ==> |updates[i].parameters| == tensorCount
    {
      if |updates[j].parameters| != tensorCount { return Err(TensorCountMismatch); }
    }
    var totalWeight := 0.0;
    for j := 0 to |updates|
      invariant totalWeight == TotalWeight(updates[..j])
    {
      assert updates[..j + 1][..j] == updates[..j];
      totalWeight := totalWeight + updates[j].Weight();
    }
    assert updates[..|updates|] == updates;
    TotalWeightPositive(updates);
    var aggregated: seq<Tensor> := [];
    for t := 0 to tensorCount
      invariant |aggregated| == t
      invariant MismatchFrom(updates, 0) == MismatchFrom(updates, t)
      invariant forall s :: 0 <= s < t ==> aggregated[s] == MeanTensor(updates, s)
    {
      var tensor := AverageTensor(updates, t, totalWeight);
      if tensor.None? { return Err(ShapeMismatch(t)); }
      aggregated := aggregated + [tensor.value];
    }
    assert aggregated == Aggregate(updates).value;
    r := Ok(aggregated);
  }

  /** Tensor by tensor, the updates have the same element type. */
  predicate TypesAgree(updates: seq<ClientUpdate>)
    requires SameCount(updates)
  {
    forall j, t :: 0 <= j < |updates| && 0 <= t < |updates[0].parameters| ==>
      updates[j].parameters[t].kind == updates[0].parameters[t].kind
  }

  predicate SameShapes(a: seq<Tensor>, b: seq<Tensor>) {
    |a| == |b| && forall t :: 0 <= t < |a| ==> a[t].shape == b[t].shape
  }

  /** All updates have as many tensors as the first, of the same shapes. */
  predicate ShapesAgree(updates: seq<ClientUpdate>) {
    forall j :: 0 <= j < |updates| ==> SameShapes(updates[j].parameters, updates[0].parameters)
  }

  lemma ShapesAgreeTensorwise(updates: seq<ClientUpdate>)
    requires updates != []
    ensures ShapesAgree(updates) <==>
            SameCount(updates) && forall t :: 0 <= t < |updates[0].parameters| ==> SameShape(updates, t)
  {
    if SameCount(updates) && forall t :: 0 <= t < |updates[0].parameters| ==> SameShape(updates, t) {
      forall j | 0 <= j < |updates| ensures SameShapes(updates[j].parameters, updates[0].parameters) {
        forall t | 0 <= t < |updates[0].parameters|
          ensures updates[j].parameters[t].shape == updates[0].parameters[t].shape
        {
          assert SameShape(updates, t);
        }
      }
    }
  }

  /** fedavg returns normally exactly when there is an update and all agree on
      the number of tensors and on every shape; it then keeps those shapes. */
  lemma AggregateSucceeds(updates: seq<ClientUpdate>)
    requires AllValid(updates)
    ensures Aggregate(updates).Ok? <==> updates != [] && ShapesAgree(updates)
    ensures Aggregate(updates).Ok? ==>
            ClientUpdate(Aggregate(updates).value, 1).Valid() && SameShapes(Aggregate(updates).value, updates[0].parameters)
  {
    if updates != [] { ShapesAgreeTensorwise(updates); }
    if updates != [] && SameCount(updates) && MismatchFrom(updates, 0).None? {
      forall t | 0 <= t < |updates[0].parameters| ensures MeanTensor(updates, t).Valid() {
        assert updates[0].Valid();
      }
    }
  }

  lemma {:induction false} SumWithin(updates: seq<ClientUpdate>, t: nat, e: nat, low: real, high: real)
    requires forall u :: u in updates ==> low <= u.At(t, e) <= high
    ensures Between(SumBy(updates, WeightedElement(t, e)), TotalWeight(updates), low, high)
  {
    if updates != [] {
      var u, before := updates[|updates| - 1], updates[..|updates| - 1];
      SumWithin(before, t, e, low, high);
      Extend(TotalWeight(before), SumBy(before, WeightedElement(t, e)), u.Weight(), u.At(t, e), low, high);
    }
  }

  predicate Between(sum: real, total: real, low: real, high: real) {
    low * total <= sum <= high * total
  }

  lemma Extend(total: real, sum: real, weight: real, value: real, low: real, high: real)
    requires weight > 0.0 && low <= value <= high
    requires Between(sum, total, low, high)
    ensures Between(sum + weight * value, total + weight, low, high)
  {
    WeightedBetween(weight, value, low, high);
  }

  lemma MeanWithin(updates: seq<ClientUpdate>, t: nat, e: nat, low: real, high: real)
    requires updates != []
    requires forall u :: u in updates ==> low <= u.At(t, e) <= high
    ensures low <= Mean(updates, t, e) <= high
  {
    TotalWeightPositive(updates);
    SumWithin(updates, t, e, low, high);
    Quotient(low, SumBy(updates, WeightedElement(t, e)), high, TotalWeight(updates));
  }

  lemma WeightedBetween(weight: real, value: real, low: real, high: real)
    requires weight > 0.0 && low <= value <= high
    ensures low * weight <= weight * value <= high * weight
  {
    assert weight * (value - low) >= 0.0 && weight * (high - value) >= 0.0;
  }

  lemma Quotient(low: real, sum: real, high: real, total: real)
    requires total > 0.0 && Between(sum, total, low, high)
    ensures low <= sum / total <= high
  {
    assert sum == sum / total * total;
  }

  /** An integral value is between the integers next to its bounds. */
  lemma IntegralBetween(value: real, low: real, high: real)
    requires value == value.Floor as real && low <= value <= high
    ensures -((-low).Floor) as real <= value <= high.Floor as real
  {
    FloorAbove(high, value.Floor);
    FloorAbove(-low, -value.Floor);
  }

  lemma RoundedMeanWithin(updates: seq<ClientUpdate>, t: nat, e: nat, low: real, high: real)
    requires updates != []
    requires forall u :: u in updates ==> low <= u.At(t, e) <= high && u.At(t, e) == u.At(t, e).Floor as real
    ensures low <= Rint(Mean(updates, t, e)) as real <= high
  {
    var floor, ceiling := high.Floor, -((-low).Floor);
    forall u | u in updates ensures ceiling as real <= u.At(t, e) <= floor as real {
      IntegralBetween(u.At(t, e), low, high);
    }
    MeanWithin(updates, t, e, ceiling as real, floor as real);
    RintWithin(Mean(updates, t, e), ceiling, floor);
    assert floor as real <= high && low <= ceiling as real;
  }

  /** The first update's element type covers everyone's. */
  predicate ConvertsSafely(updates: seq<ClientUpdate>, t: nat)
    requires updates != [] && SameCount(updates) && t < |updates[0].parameters|
  {
    forall j :: 0 <= j < |updates| ==> updates[0].parameters[t].kind.Covers(updates[j].parameters[t].kind)
  }

  /** The elements of a tensor whose first type covers the others lie between any
      bounds of the clients' values; what the other tensors hold does not matter. */
  lemma AggregateWithin(updates: seq<ClientUpdate>, t: nat, e: nat, low: real, high: real)
    requires AllValid(updates) && Aggregate(updates).Ok?
    requires t < |updates[0].parameters| && e < |updates[0].parameters[t].values| && ConvertsSafely(updates, t)
    requires forall u :: u in updates ==> low <= u.At(t, e) <= high
    ensures var average := Aggregate(updates).value;
            t < |average| && e < |average[t].values| && low <= average[t].values[e] <= high
  {
    var kind := updates[0].parameters[t].kind;
    forall u | u in updates ensures kind.Has(u.At(t, e)) {
      var j :| 0 <= j < |updates| && updates[j] == u;
      assert SameShape(updates, t) && u.Valid() && updates[0].Valid() && kind.Covers(u.parameters[t].kind);
    }
    match kind
    case Boolean => TruthWithin(updates, t, e, low, high);
    case Integer => RoundedMeanWithin(updates, t, e, low, high);
    case Real => MeanWithin(updates, t, e, low, high);
    assert Aggregate(updates).value[t] == MeanTensor(updates, t);
  }

  /** A mean of truth values is zero only if all of them are. */
  lemma TruthWithin(updates: seq<ClientUpdate>, t: nat, e: nat, low: real, high: real)
    requires updates != []
    requires forall u :: u in updates ==> low <= u.At(t, e) <= high && Boolean.Has(u.At(t, e))
    ensures low <= Boolean.Converted(Mean(updates, t, e)) <= high
  {
    MeanWithin(updates, t, e, low, high);
    assert updates[0] in updates;
    if forall u :: u in updates ==> u.At(t, e) == 0.0 { MeanWithin(updates, t, e, 0.0, 0.0); }
    else if forall u :: u in updates ==> u.At(t, e) == 1.0 { MeanWithin(updates, t, e, 1.0, 1.0); }
  }

  /** The updates hold tensor t, in these element types. */
  predicate HasTypes(updates: seq<ClientUpdate>, t: nat, types: seq<Kind>) {
    |updates| == |types| && forall j :: 0 <= j < |updates| ==>
      t < |updates[j].parameters| && updates[j].parameters[t].kind == types[j]
  }

  /** Element e of tensor t of the average is within any bounds of the values. */
  ghost predicate StaysWithin(updates: seq<ClientUpdate>, t: nat, e: nat) {
    Aggregate(updates).Ok? && t < |Aggregate(updates).value| && e < |Aggregate(updates).value[t].values| ==>
      forall low: real, high: real :: (forall u :: u in updates ==> Bounds(u.At(t, e), low, high)) ==>
        Bounds(Aggregate(updates).value[t].values[e], low, high)
  }

  predicate Bounds(x: real, low: real, high: real) {
    low <= x <= high
  }

  /** Whatever the updates of these element types hold, averaging tensor t stays
      in the range of their values. */
  ghost predicate TypesStayWithin(types: seq<Kind>, t: nat) {
    forall updates: seq<ClientUpdate>, e: nat :: AllValid(updates) && HasTypes(updates, t, types) ==> StaysWithin(updates, t, e)
  }

  /** The average of a tensor stays in the range of the clients' values, for all
      updates of its element types, exactly when the first type covers them all. */
  lemma InRangeExactly(types: seq<Kind>, t: nat)
    requires types != []
    ensures TypesStayWithin(types, t) <==> forall j :: 0 <= j < |types| ==> types[0].Covers(types[j])
  {
    if forall j :: 0 <= j < |types| ==> types[0].Covers(types[j]) {
      forall updates: seq<ClientUpdate>, e: nat | AllValid(updates) && HasTypes(updates, t, types)
        ensures StaysWithin(updates, t, e)
      {
        SafeTypesStayWithin(updates, t, e, types);
      }
    } else {
      var k :| 0 <= k < |types| && !types[0].Covers(types[k]);
      var updates := MixedTypesEscape(types, k, t);
      assert forall u :: u in updates ==> Bounds(u.At(t, 0), -1.0, 0.75);
      assert !Bounds(Aggregate(updates).value[t].values[0], -1.0, 0.75);
      assert !StaysWithin(updates, t, 0);
    }
  }

  lemma SafeTypesStayWithin(updates: seq<ClientUpdate>, t: nat, e: nat, types: seq<Kind>)
    requires AllValid(updates) && types != [] && HasTypes(updates, t, types)
    requires forall j :: 0 <= j < |types| ==> types[0].Covers(types[j])
    ensures StaysWithin(updates, t, e)
  {
    if Aggregate(updates).Ok? && t < |Aggregate(updates).value| && e < |Aggregate(updates).value[t].values| {
      assert Aggregate(updates).value[t] == MeanTensor(updates, t);
      forall low: real, high: real | forall u :: u in updates ==> Bounds(u.At(t, e), low, high)
        ensures Bounds(Aggregate(updates).value[t].values[e], low, high)
      {
        assert forall u :: u in updates ==> Bounds(u.At(t, e), low, high) && low <= u.At(t, e) <= high;
        AggregateWithin(updates, t, e, low, high);
      }
    }
  }

  /** One tensor of one element, behind t empty ones. */
  function OneElement(t: nat, kind: Kind, value: real, numExamples: int): (u: ClientUpdate)
    ensures |u.parameters| == t + 1 && u.numExamples == numExamples
  {
    ClientUpdate(seq(t, _ => Tensor([0], Real, [])) + [Tensor([], kind, [value])], numExamples)
  }

  /** A value of this kind that is neither zero nor one. */
  function Stray(kind: Kind): real {
    if kind.Real? then 0.75 else -1.0
  }

  /** Zeros from everyone, except a stray value from client k, who has as many
      examples as three times the number of clients. */
  function Escaping(types: seq<Kind>, k: nat, t: nat): (updates: seq<ClientUpdate>)
    ensures |updates| == |types|
  {
    seq(|types|, j requires 0 <= j < |types| =>
      if j == k then OneElement(t, types[j], Stray(types[j]), 3 * |types|) else OneElement(t, types[j], 0.0, 1))
  }

  /** Whenever the first type does not cover another, the conversion to it can
      leave the range of the values. */
  lemma MixedTypesEscape(types: seq<Kind>, k: nat, t: nat) returns (updates: seq<ClientUpdate>)
    requires k < |types| && !types[0].Covers(types[k])
    ensures AllValid(updates) && HasTypes(updates, t, types) && Aggregate(updates).Ok?
    ensures forall u :: u in updates ==> -1.0 <= u.At(t, 0) <= 0.75
    ensures |Aggregate(updates).value| == t + 1 && Aggregate(updates).value[t].values == [1.0]
  {
    updates := Escaping(types, k, t);
    EscapingIsValid(types, k, t);
    EscapingMean(types, k, t);
    ConvertedToOne(types[0], types[k], Mean(updates, t, 0));
    assert MeanTensor(updates, t).values == [1.0];
    assert Aggregate(updates).value[t] == MeanTensor(updates, t);
  }

  /** The mean of the stray value and the zeros. */
  predicate Diluted(mean: real, kind: Kind) {
    if kind.Real? then 0.5 < mean < 1.0 else mean < 0.0
  }

  lemma ConvertedToOne(first: Kind, kind: Kind, mean: real)
    requires !first.Covers(kind) && Diluted(mean, kind)
    ensures first.Converted(mean) == 1.0
  {
  }

  lemma EscapingIsValid(types: seq<Kind>, k: nat, t: nat)
    requires k < |types| && !types[0].Covers(types[k])
    ensures var updates := Escaping(types, k, t);
            && AllValid(updates) && HasTypes(updates, t, types) && Aggregate(updates).Ok?
            && updates[0].parameters[t] == Tensor([], types[0], [0.0])
            && forall u :: u in updates ==> -1.0 <= u.At(t, 0) <= 0.75
  {
    var updates := Escaping(types, k, t);
    assert (0.0 as real).Floor == 0 && (-1.0 as real).Floor == -1;
    assert Size([]) == 1 && Size([0]) == 0 * Size([0][1..]);
    forall j | 0 <= j < |updates| ensures updates[j].Valid() {}
    assert SameCount(updates);
    forall s: nat | s <= t ensures SameShape(updates, s) {}
    AggregateSucceeds(updates);
  }

  lemma EscapingMean(types: seq<Kind>, k: nat, t: nat)
    requires k < |types| && !types[0].Covers(types[k])
    ensures Diluted(Mean(Escaping(types, k, t), t, 0), types[k])
  {
    var updates, n := Escaping(types, k, t), |types|;
    var weight := (u: ClientUpdate) => u.Weight();
    OneHeavy(updates, k, WeightedElement(t, 0), 0.0);
    OneHeavy(updates, k, weight, 1.0);
    assert k != 0;
    assert SumBy(updates, WeightedElement(t, 0)) == Stray(types[k]) * (3.0 * n as real);
    assert TotalWeight(updates) == SumBy(updates, weight) == 4.0 * n as real - 1.0;
    Ratio(n, Stray(types[k]));
  }

  lemma Ratio(n: nat, x: real)
    requires n >= 2
    ensures x == 0.75 ==> 0.5 < x * (3.0 * n as real) / (4.0 * n as real - 1.0) < 1.0
    ensures x == -1.0 ==> x * (3.0 * n as real) / (4.0 * n as real - 1.0) < 0.0
  {
    var total := 4.0 * n as real - 1.0;
    var q := x * (3.0 * n as real) / total;
    assert x * (3.0 * n as real) == q * total;
    assert q >= 1.0 ==> q * total >= total;
    assert q <= 0.5 ==> q * total <= 0.5 * total;
    assert q >= 0.0 ==> q * total >= 0.0;
  }

  lemma OneHeavy(updates: seq<ClientUpdate>, k: nat, f: ClientUpdate -> real, light: real)
    requires k < |updates| && forall j :: 0 <= j < |updates| && j != k ==> f(updates[j]) == light
    ensures SumBy(updates, f) == (|updates| - 1) as real * light + f(updates[k])
  {
    hide SumBy;
    var rest := Without(updates, k);
    SumByWithout(updates, k, f);
    forall u | u in rest ensures f(u) == light {
      var i :| 0 <= i < |rest| && rest[i] == u;
      assert u == updates[if i < k then i else i + 1];
    }
    SumByConstant(rest, f, light);
  }

  /** If every client uploads the same parameters they come back unchanged. */
  lemma AggregateOfEqualUpdates(updates: seq<ClientUpdate>, parameters: seq<Tensor>)
    requires AllValid(updates) && updates != []
    requires forall u :: u in updates ==> u.parameters == parameters
    ensures Aggregate(updates) == Ok(parameters)
  {
    assert updates[0] in updates && updates[0].Valid();
    forall t | 0 <= t < |parameters| ensures MeanTensor(updates, t) == parameters[t] && SameShape(updates, t) {
      forall e | 0 <= e < |parameters[t].values|
        ensures MeanElement(updates, t, e) == parameters[t].values[e]
      {
        var value := parameters[t].values[e];
        MeanWithin(updates, t, e, value, value);
        assert parameters[t].kind.Has(value);
      }
      assert MeanTensor(updates, t).values == parameters[t].values;
    }
    assert SameCount(updates);
    assert MismatchFrom(updates, 0).None?;
    assert Aggregate(updates).value == parameters;
  }

  lemma MeanPermuted(a: seq<ClientUpdate>, b: seq<ClientUpdate>, t: nat, e: nat)
    requires multiset(a) == multiset(b) && a != [] && b != []
    ensures Mean(a, t, e) == Mean(b, t, e)
  {
    SumByPermuted(a, b, WeightedElement(t, e));
    SumByPermuted(a, b, (u: ClientUpdate) => u.Weight());
  }

  lemma Members(a: seq<ClientUpdate>, b: seq<ClientUpdate>)
    requires multiset(a) == multiset(b)
    ensures |a| == |b|
    ensures forall i :: 0 <= i < |a| ==> a[i] in b
    ensures forall j :: 0 <= j < |b| ==> b[j] in a
  {
    assert |multiset(a)| == |a| && |multiset(b)| == |b|;
    forall i | 0 <= i < |a| ensures a[i] in b { assert a[i] in multiset(b); }
    forall j | 0 <= j < |b| ensures b[j] in a { assert b[j] in multiset(a); }
  }

  lemma ShapesPermuted(a: seq<ClientUpdate>, b: seq<ClientUpdate>, t: nat)
    requires multiset(a) == multiset(b) && a != []
    requires SameCount(a) && SameCount(b) && t < |a[0].parameters| && b != [] && t < |b[0].parameters|
    ensures SameShape(a, t) == SameShape(b, t)
  {
    Members(a, b);
    assert a[0] in b && b[0] in a;
  }

  lemma {:induction false} MismatchPermuted(a: seq<ClientUpdate>, b: seq<ClientUpdate>, t: nat)
    requires multiset(a) == multiset(b) && a != [] && b != []
    requires SameCount(a) && SameCount(b) && |a[0].parameters| == |b[0].parameters| && t <= |a[0].parameters|
    ensures MismatchFrom(a, t) == MismatchFrom(b, t)
    decreases |a[0].parameters| - t
  {
    if t < |a[0].parameters| {
      ShapesPermuted(a, b, t);
      MismatchPermuted(a, b, t + 1);
    }
  }

  /** The result, or the exception, does not depend on the arrival order of
      updates whose element types agree. */
  lemma ArrivalOrderIrrelevant(a: seq<ClientUpdate>, b: seq<ClientUpdate>)
    requires AllValid(a) && multiset(a) == multiset(b)
    requires SameCount(a) ==> TypesAgree(a)
    ensures Aggregate(a) == Aggregate(b)
  {
    Members(a, b);
    if a != [] {
      assert a[0] in b && b[0] in a;
      assert SameCount(a) == SameCount(b);
      if SameCount(a) {
        MismatchPermuted(a, b, 0);
        if MismatchFrom(a, 0).None? {
          forall t | 0 <= t < |a[0].parameters| ensures MeanTensor(a, t) == MeanTensor(b, t) {
            TensorPermuted(a, b, t);
          }
          assert Aggregate(a).value == Aggregate(b).value;
        }
      }
    }
  }

  lemma TensorPermuted(a: seq<ClientUpdate>, b: seq<ClientUpdate>, t: nat)
    requires AllValid(a) && multiset(a) == multiset(b) && a != [] && b != [] && SameCount(a) && SameCount(b)
    requires TypesAgree(a) && t < |a[0].parameters| && t < |b[0].parameters| && SameShape(a, t)
    ensures MeanTensor(a, t) == MeanTensor(b, t)
  {
    Members(a, b);
    var j :| 0 <= j < |a| && a[j] == b[0];
    assert a[0].Valid() && a[j].Valid();
    forall e | 0 <= e < |a[0].parameters[t].values| ensures MeanElement(a, t, e) == MeanElement(b, t, e) {
      MeanPermuted(a, b, t, e);
    }
    assert MeanTensor(a, t).values == MeanTensor(b, t).values;
  }

  /** The element type of the result is that of the first update to arrive, so
      agreement of the types is also necessary for order independence. */
  lemma ArrivalOrderMatters(updates: seq<ClientUpdate>)
    requires AllValid(updates) && Aggregate(updates).Ok?
    ensures (forall other :: multiset(other) == multiset(updates) ==> Aggregate(other) == Aggregate(updates))
            <==> TypesAgree(updates)
  {
    if TypesAgree(updates) {
      forall other | multiset(other) == multiset(updates) ensures Aggregate(other) == Aggregate(updates) {
        ArrivalOrderIrrelevant(updates, other);
      }
    } else {
      var j, t :| 0 <= j < |updates| && 0 <= t < |updates[0].parameters|
        && updates[j].parameters[t].kind != updates[0].parameters[t].kind;
      var other := [updates[j]] + Without(updates, j);
      assert multiset(other) == multiset(updates);
      OtherFirst(updates, other, t);
    }
  }

  lemma OtherFirst(updates: seq<ClientUpdate>, other: seq<ClientUpdate>, t: nat)
    requires Aggregate(updates).Ok? && t < |Aggregate(updates).value| && other != []
    requires t < |other[0].parameters| && t < |updates[0].parameters|
    requires other[0].parameters[t].kind != updates[0].parameters[t].kind
    ensures Aggregate(other) != Aggregate(updates)
  {
    hide Aggregate, AllValid;
    ResultType(updates, t);
    if Aggregate(other) == Aggregate(updates) {
      ResultType(other, t);
      assert false;
    }
  }

  lemma ResultType(updates: seq<ClientUpdate>, t: nat)
    requires Aggregate(updates).Ok? && t < |Aggregate(updates).value|
    ensures t < |updates[0].parameters| && Aggregate(updates).value[t].kind == updates[0].parameters[t].kind
  {
    assert Aggregate(updates).value[t] == MeanTensor(updates, t);
  }
}
