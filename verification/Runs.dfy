/** Runs of a state machine that is given by its step relation. */
module Runs {

  ghost predicate Run<S(!new)>(trace: seq<S>, next: (S, S) -> bool) {
    |trace| > 0 && forall i | 0 <= i < |trace| - 1 :: next(trace[i], trace[i + 1])
  }

  /** What every step keeps holds in every state of every run. */
  lemma {:induction false} Invariance<S(!new)>(trace: seq<S>, next: (S, S) -> bool, inv: S -> bool, i: nat)
    requires Run(trace, next) && i < |trace|
    requires inv(trace[0])
    requires forall s, s' :: inv(s) && next(s, s') ==> inv(s')
    ensures inv(trace[i])
  {
    if i > 0 {
      Invariance(trace, next, inv, i - 1);
      assert next(trace[i - 1], trace[i - 1 + 1]);
    }
  }

  /** `s'` is the last state of a run that starts in `s`. */
  ghost predicate Reaches<S(!new)>(s: S, s': S, next: (S, S) -> bool) {
    exists trace :: Run(trace, next) && trace[0] == s && trace[|trace| - 1] == s'
  }

  lemma ReachesSelf<S(!new)>(s: S, next: (S, S) -> bool)
    ensures Reaches(s, s, next)
  {
    assert Run([s], next);
  }

  lemma ReachesNext<S(!new)>(s: S, s1: S, s2: S, next: (S, S) -> bool)
    requires Reaches(s, s1, next) && next(s1, s2)
    ensures Reaches(s, s2, next)
  {
    var trace :| Run(trace, next) && trace[0] == s && trace[|trace| - 1] == s1;
    var longer := trace + [s2];
    assert Run(longer, next) && longer[0] == s && longer[|longer| - 1] == s2;
  }

  lemma ReachesKeeps<S(!new)>(s: S, s': S, next: (S, S) -> bool, inv: S -> bool)
    requires Reaches(s, s', next) && inv(s)
    requires forall s, s' :: inv(s) && next(s, s') ==> inv(s')
    ensures inv(s')
  {
    var trace :| Run(trace, next) && trace[0] == s && trace[|trace| - 1] == s';
    Invariance(trace, next, inv, |trace| - 1);
  }
}
