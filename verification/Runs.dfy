/** Runs of step systems, whatever their steps. */
module Runs {
  /** The run ends with the step of its last action. */
  ghost predicate TakesLast<S(!new), A(!new)>(after: (S, seq<A>) -> S, step: (S, A) -> S, s: S, run: seq<A>) {
    after(s, run) == if run == [] then s else step(after(s, run[..|run| - 1]), run[|run| - 1])
  }

  /** `after` takes the actions of a run one by one. */
  ghost predicate StepByStep<S(!new), A(!new)>(after: (S, seq<A>) -> S, step: (S, A) -> S) {
    forall s: S, run: seq<A> :: TakesLast(after, step, s, run)
  }

  /** A run goes on where its first part ended. */
  lemma {:induction false} Concat<S(!new), A(!new)>(after: (S, seq<A>) -> S, step: (S, A) -> S,
                                                    s: S, a: seq<A>, b: seq<A>)
    requires StepByStep(after, step)
    ensures after(s, a + b) == after(after(s, a), b)
  {
    if b == [] {
      assert a + b == a;
      assert TakesLast(after, step, after(s, a), b);
    } else {
      assert (a + b)[..|a + b| - 1] == a + b[..|b| - 1];
      Concat(after, step, s, a, b[..|b| - 1]);
      assert TakesLast(after, step, s, a + b) && TakesLast(after, step, after(s, a), b);
    }
  }
}
