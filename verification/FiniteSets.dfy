/** Sets of bounded numbers. */
module FiniteSets {

  lemma {:induction false} SubsetOfRange(vs: set<nat>, n: nat)
    requires forall v :: v in vs ==> v < n
    ensures |vs| <= n
    decreases n
  {
    if n > 0 {
      SubsetOfRange(vs - {n - 1}, n - 1);
    }
  }
}
