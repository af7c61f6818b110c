/** Runs of a step relation. */
module Runs {
  /** Each state is a step away from the next. */
  ghost predicate Chain<S(!new)>(step: (S, S) -> bool, run: seq<S>) {
    forall k, l :: 0 <= k && l == k + 1 < |run| ==> step(run[k], run[l])
  }

  function Last<S>(run: seq<S>): S
    requires run != []
  {
    run[|run| - 1]
  }

  lemma ChainAppend<S(!new)>(step: (S, S) -> bool, run: seq<S>, next: S)
    requires run != [] && Chain(step, run) && step(Last(run), next)
    ensures Chain(step, run + [next])
  {
    var longer := run + [next];
    forall k, l | 0 <= k && l == k + 1 < |longer|
      ensures step(longer[k], longer[l])
    {
      if l < |run| {
        assert longer[k] == run[k] && longer[l] == run[l];
      } else {
        assert longer[k] == Last(run) && longer[l] == next;
      }
    }
  }
}
