/** Strictly increasing sequences of tickets. */
module Tickets {
  ghost predicate Increasing(t: seq<nat>) {
    forall i, j | 0 <= i < j < |t| :: t[i] < t[j]
  }

  lemma AppendIncreasing(t: seq<nat>, x: nat)
    requires Increasing(t) && forall y | y in t :: y < x
    ensures Increasing(t + [x])
  {
    assert forall i | 0 <= i < |t| :: t[i] in t;
  }
}
