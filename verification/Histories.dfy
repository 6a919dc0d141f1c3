/** Records of what a store or a disk went through. */
module Histories {

  /** Each state of the record is one step from the one before. */
  ghost predicate StepByStep<S(!new)>(step: (S, S) -> bool, history: seq<S>) {
    |history| >= 2 ==>
      && StepByStep(step, history[..|history| - 1])
      && step(history[|history| - 2], history[|history| - 1])
  }

  lemma OneMoreStep<S(!new)>(step: (S, S) -> bool, history: seq<S>, next: S)
    requires history != [] && StepByStep(step, history) && step(history[|history| - 1], next)
    ensures StepByStep(step, history + [next])
  {
    assert (history + [next])[..|history|] == history;
  }
}
