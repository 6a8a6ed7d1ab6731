/**
 * Action encoding: a flat action index stands for a pair
 * (hygiene-measure level a1, social-distancing level a2).
 */
module Actions {
  import opened CInt

  /** `a2ij`: split a flat action index into (a % numA1, a / numA1) with C++ division. */
  function A2ij(a: int, numA1: int): (int, int)
    requires numA1 > 0
  {
    (CMod(a, numA1), CDiv(a, numA1))
  }

  /** The flat index of the pair (a1, a2); the inverse of `A2ij` on valid actions. */
  function ActionIndex(a1: int, a2: int, numA1: int): int {
    a2 * numA1 + a1
  }

  /** Every valid action splits into two in-range levels that recombine to the action. */
  lemma A2ijInRange(a: int, numA1: int, numA2: int)
    requires numA1 > 0 && 0 <= a < numA1 * numA2
    ensures 0 <= A2ij(a, numA1).0 < numA1
    ensures 0 <= A2ij(a, numA1).1 < numA2
    ensures ActionIndex(A2ij(a, numA1).0, A2ij(a, numA1).1, numA1) == a
  {
    CDivModNonNegative(a, numA1);
    var a2 := a / numA1;
    if a2 >= numA2 {
      assert a2 * numA1 >= numA2 * numA1 by {
        MulMonotone(numA2, a2, numA1);
      }
      assert false;
    }
  }

  /** Every pair of in-range levels is the split of exactly one valid action. */
  lemma ActionIndexRoundTrip(a1: int, a2: int, numA1: int, numA2: int)
    requires 0 <= a1 < numA1 && 0 <= a2 < numA2
    ensures 0 <= ActionIndex(a1, a2, numA1) < numA1 * numA2
    ensures A2ij(ActionIndex(a1, a2, numA1), numA1) == (a1, a2)
  {
    var a := ActionIndex(a1, a2, numA1);
    MulMonotone(a2, numA2 - 1, numA1);
    assert a < numA1 * numA2;
    CDivModNonNegative(a, numA1);
    DivModUnique(a, numA1, a2, a1);
  }
}
