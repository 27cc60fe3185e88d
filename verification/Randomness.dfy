/** Numbers drawn from a seeded generator. What a generator returns is fixed by
    its seed: it is looked up by the number of the call and the arguments. Every
    permutation, number and split is possible, and nothing else is assumed. */
module Randomness {

  datatype Rng = Rng(
    shuffles: map<(nat, seq<nat>), seq<nat>>,
    numbers: map<(nat, nat), nat>,
    splits: map<(nat, nat, nat), seq<nat>>)
  {
    /** A permutation of s. */
    function Shuffle(call: nat, s: seq<nat>): (r: seq<nat>)
      ensures multiset(r) == multiset(s) && |r| == |s|
    {
      if (call, s) in shuffles && multiset(shuffles[(call, s)]) == multiset(s)
      then assert |multiset(shuffles[(call, s)])| == |multiset(s)|; shuffles[(call, s)]
      else s
    }

    /** A number below n. */
    function Below(call: nat, n: nat): (r: nat)
      requires n > 0
      ensures r < n
    {
      if (call, n) in numbers && numbers[(call, n)] < n then numbers[(call, n)] else 0
    }

    /** A split of total into parts counts. */
    function Multinomial(call: nat, total: nat, parts: nat): (r: seq<nat>)
      requires parts > 0
      ensures |r| == parts && Total(r) == total
    {
      if (call, total, parts) in splits && |splits[(call, total, parts)]| == parts && Total(splits[(call, total, parts)]) == total
      then splits[(call, total, parts)]
      else Padded(total, parts)
    }
  }

  function Total(counts: seq<nat>): nat {
    if counts == [] then 0 else Total(counts[..|counts| - 1]) + counts[|counts| - 1]
  }

  function Padded(total: nat, parts: nat): (r: seq<nat>)
    requires parts > 0
    ensures |r| == parts && Total(r) == total
  {
    PaddedTotal(total, parts);
    FirstOnly(total, parts)
  }

  function FirstOnly(total: nat, parts: nat): seq<nat> {
    seq(parts, i => if i == 0 then total else 0)
  }

  lemma {:induction false} PaddedTotal(total: nat, parts: nat)
    requires parts > 0
    ensures Total(FirstOnly(total, parts)) == total
  {
    var all := FirstOnly(total, parts);
    if parts == 1 {
      assert all[..0] == [];
    } else {
      assert all[..parts - 1] == FirstOnly(total, parts - 1);
      PaddedTotal(total, parts - 1);
    }
  }
}
