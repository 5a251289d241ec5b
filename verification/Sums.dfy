/** Sums of sequences. */
module Sums {

  function Sum(values: seq<nat>): nat {
    if values == [] then 0 else Sum(values[..|values| - 1]) + values[|values| - 1]
  }

  lemma {:induction false} SumConcat(a: seq<nat>, b: seq<nat>)
    ensures Sum(a + b) == Sum(a) + Sum(b)
    decreases |b|
  {
    if b == [] {
      assert a + b == a;
    } else {
      assert (a + b)[..|a + b| - 1] == a + b[..|b| - 1];
      SumConcat(a, b[..|b| - 1]);
    }
  }

  lemma SumOfOne(x: nat)
    ensures Sum([x]) == x
  {
    assert [x][..0] == [];
  }
}
