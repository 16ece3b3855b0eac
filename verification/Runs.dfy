/** Runs of a state machine: sequences of steps, each of which may be impossible. */
module Runs {
  import opened Text

  /** The state a run ends in, None if some step could not happen. */
  function After<S, A>(take: (S, A) -> Option<S>, start: S, steps: seq<A>): Option<S> {
    if |steps| == 0 then Some(start)
    else
      var s :- After(take, start, steps[..|steps| - 1]);
      take(s, steps[|steps| - 1])
  }

  lemma {:induction false} PrefixRuns<S, A>(take: (S, A) -> Option<S>, start: S, steps: seq<A>, k: nat)
    requires After(take, start, steps).Some? && k <= |steps|
    ensures After(take, start, steps[..k]).Some?
    decreases |steps|
  {
    if k < |steps| {
      var before := steps[..|steps| - 1];
      PrefixRuns(take, start, before, k);
      assert before[..k] == steps[..k];
    } else {
      assert steps[..k] == steps;
    }
  }

  lemma OneStepFurther<S, A>(take: (S, A) -> Option<S>, start: S, steps: seq<A>, k: nat)
    requires After(take, start, steps).Some? && k < |steps|
    ensures After(take, start, steps[..k]).Some? && take(After(take, start, steps[..k]).value, steps[k]).Some?
    ensures After(take, start, steps[..k + 1]) == take(After(take, start, steps[..k]).value, steps[k])
  {
    PrefixRuns(take, start, steps, k + 1);
    assert steps[..k + 1][..k] == steps[..k];
  }

  lemma AtStart<S, A>(take: (S, A) -> Option<S>, start: S)
    ensures After(take, start, []) == Some(start)
  {
  }
}
