/** Runs of a state machine: its step function applied to one step after another. */
module Runs {
  function Fold<S, X>(step: (S, X) -> S, s: S, xs: seq<X>): S {
    if xs == [] then s else step(Fold(step, s, xs[..|xs| - 1]), xs[|xs| - 1])
  }

  /** A run can be cut anywhere. */
  lemma {:induction false} FoldSplits<S, X>(step: (S, X) -> S, s: S, a: seq<X>, b: seq<X>)
    ensures Fold(step, s, a + b) == Fold(step, Fold(step, s, a), b)
  {
    if b == [] {
      assert a + b == a;
    } else {
      FoldSplits(step, s, a, b[..|b| - 1]);
      assert (a + b)[..|a + b| - 1] == a + b[..|b| - 1];
    }
  }
}
