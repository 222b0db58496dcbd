/** Runs of a step system: the states passed through, and induction along them. */
module Runs {

  /** Consecutive states are related by the step. */
  ghost predicate IsRun<S(!new)>(run: seq<S>, step: (S, S) -> bool)
  {
    run != [] && forall i :: 0 <= i < |run| - 1 ==> step(run[i], run[i + 1])
  }

  /** What the first state has and every step keeps, every state has. */
  lemma {:induction false} Invariant<S(!new)>(run: seq<S>, step: (S, S) -> bool, inv: S -> bool, i: nat)
    requires IsRun(run, step) && i < |run| && inv(run[0])
    requires forall s, t :: inv(s) && step(s, t) ==> inv(t)
    ensures inv(run[i])
  {
    if i > 0 {
      Invariant(run, step, inv, i - 1);
      assert step(run[i - 1], run[i]);
    }
  }

  /** A run may go on with any step from its last state. */
  lemma Extend<S(!new)>(run: seq<S>, step: (S, S) -> bool, t: S)
    requires IsRun(run, step) && step(run[|run| - 1], t)
    ensures IsRun(run + [t], step)
  {
    var longer := run + [t];
    forall i | 0 <= i < |longer| - 1 ensures step(longer[i], longer[i + 1]) {
      if i < |run| - 1 { assert step(run[i], run[i + 1]); }
    }
  }

  /** Some run leads from one state to the other. */
  ghost predicate Leads<S(!new)>(s: S, step: (S, S) -> bool, t: S)
  {
    exists run :: IsRun(run, step) && run[0] == s && run[|run| - 1] == t
  }

  lemma LeadsNowhere<S(!new)>(s: S, step: (S, S) -> bool)
    ensures Leads(s, step, s)
  {
    assert IsRun([s], step) && [s][0] == s;
  }

  lemma LeadsOn<S(!new)>(s: S, step: (S, S) -> bool, t: S, u: S)
    requires Leads(s, step, t) && step(t, u)
    ensures Leads(s, step, u)
  {
    var run :| IsRun(run, step) && run[0] == s && run[|run| - 1] == t;
    Extend(run, step, u);
    assert (run + [u])[0] == s;
  }
}
