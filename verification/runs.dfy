/**
 Runs of a transition system, given as its initial states and its step relation. Every protocol
 in this project is such a system, and every safety theorem here is about all states of all runs.
 */
module Runs {

  ghost predicate IsRun<S(!new)>(init: S -> bool, next: (S, S) -> bool, run: seq<S>) {
    && |run| > 0
    && init(run[0])
    && forall i :: 0 <= i < |run| - 1 ==> next(run[i], run[i + 1])
  }

  /** Some run ends in this state. */
  ghost predicate Reaches<S(!new)>(init: S -> bool, next: (S, S) -> bool, s: S) {
    exists run :: IsRun(init, next, run) && run[|run| - 1] == s
  }

  lemma OneMore<S(!new)>(init: S -> bool, next: (S, S) -> bool, s: S, s': S)
    requires Reaches(init, next, s) && next(s, s')
    ensures Reaches(init, next, s')
  {
    var run :| IsRun(init, next, run) && run[|run| - 1] == s;
    var longer := run + [s'];
    assert forall i :: 0 <= i < |longer| - 1 ==> next(longer[i], longer[i + 1]);
    assert IsRun(init, next, longer) && longer[|longer| - 1] == s';
  }

  lemma StartReaches<S(!new)>(init: S -> bool, next: (S, S) -> bool, s: S)
    requires init(s)
    ensures Reaches(init, next, s)
  {
    assert IsRun(init, next, [s]);
  }
}
