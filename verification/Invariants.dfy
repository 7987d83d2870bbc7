/** Properties of the states of a run, step by step. */
module Invariants {
  /** If a property holds at first, and each step from a state that has it keeps it exactly when the
      step is safe, then all states have it if and only if all steps are safe. */
  lemma {:induction false} HoldsIffSafe(holds: nat -> bool, safe: nat -> bool, k: nat)
    requires holds(0)
    requires forall j | 0 <= j < k && holds(j) :: holds(j + 1) <==> safe(j)
    ensures (forall j | 0 <= j <= k :: holds(j)) <==> (forall j | 0 <= j < k :: safe(j))
  {
    if k > 0 {
      HoldsIffSafe(holds, safe, k - 1);
      assert holds(k - 1) ==> (holds(k) <==> safe(k - 1));
    }
  }
}
