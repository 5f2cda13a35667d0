/**
 * When a condition variable can be destroyed under a thread that still uses it.  Signallers post
 * their tokens after they have given the mutex back; a waiter that gives up in between can be the one
 * that opens the gate to a destroyer.  And a caller may stand before its first operation on the gate
 * or the mutex while a destroyer has both.
 */
module Destruction {
  import opened Runs
  import opened Threads
  import opened CondVar

  /** Tokens posted, taken or bound to be posted beyond those that are to be unblocked. */
  ghost function Surplus(s: System): int {
    s.cv.queue + Sum(s.pcs, Bound) + Sum(s.pcs, Passed) - s.cv.toUnblock
  }

  /** What is counted over a run. */
  datatype Event =
    | GivesUp      // a waiter times out or is cancelled
    | Unsignalled  // a waiter retracts although nobody is to be unblocked
    | Begins       // a wait, signal or broadcast is called
    | Proceeds     // a caller gets past its first operation, or is cancelled before it

  predicate Happens(event: Event, s: System, t: nat, action: Action) {
    && t < |s.pcs|
    && match event
       case GivesUp => s.pcs[t].Waiting? && action == GiveUp
       case Unsignalled => s.pcs[t].Cleaning? && s.cv.toUnblock == 0
       case Begins => action.Enter? || action.Signal?
       case Proceeds => Calling(s.pcs[t])
  }

  /**
   * The surplus grows by one when a waiter gives up, shrinks by one when a waiter retracts although
   * nobody is to be unblocked, and is left alone by every other step.
   */
  lemma SurplusStep(s: System, t: nat, action: Action, s': System)
    requires Inv(s) && Steps(s, t, action, s')
    ensures Surplus(s') == Surplus(s)
      + (if Happens(GivesUp, s, t, action) then 1 else 0) - (if Happens(Unsignalled, s, t, action) then 1 else 0)
  {
    SumsMove(s, t, action, s');
    ThreadSurplus(s.cv, s.pcs[t], action);
  }

  /** What one thread contributes to that. */
  lemma ThreadSurplus(cv: Cv, pc: Pc, action: Action)
    requires Enabled(cv, pc, action) && LocalInv(cv, pc) && cv.blocked >= 0 && cv.gone >= 0
    ensures var (cv', pc') := Act(cv, pc, action);
      cv'.queue + Bound(pc') + Passed(pc') - cv'.toUnblock ==
        cv.queue + Bound(pc) + Passed(pc) - cv.toUnblock
        + (if pc.Waiting? && action == GiveUp then 1 else 0)
        - (if pc.Cleaning? && cv.toUnblock == 0 then 1 else 0)
  {
  }

  function IsCalling(pc: Pc): nat {
    if Calling(pc) then 1 else 0
  }

  lemma CallingStep(s: System, t: nat, action: Action, s': System)
    requires Steps(s, t, action, s')
    ensures Sum(s'.pcs, IsCalling) == Sum(s.pcs, IsCalling)
      + (if Happens(Begins, s, t, action) then 1 else 0) - (if Happens(Proceeds, s, t, action) then 1 else 0)
  {
    SumUpdate(s.pcs, IsCalling, t, s'.pcs[t]);
  }

  // ---------- Runs given by their moves ----------

  datatype Play = Play(thread: nat, action: Action)

  /** The trace is the run of the plays, from a new variable with `n` threads outside. */
  ghost predicate Played(n: nat, trace: seq<System>, plays: seq<Play>) {
    && |trace| == |plays| + 1
    && trace[0] == System(Start(), seq(n, _ => Outside))
    && forall i | 0 <= i < |plays| :: Steps(trace[i], plays[i].thread, plays[i].action, trace[i + 1])
  }

  /** How often an event happens in the first `i` plays. */
  function Count(trace: seq<System>, plays: seq<Play>, i: nat, event: Event): nat
    requires i <= |plays| <= |trace|
  {
    if i == 0 then 0
    else
      Count(trace, plays, i - 1, event)
      + if Happens(event, trace[i - 1], plays[i - 1].thread, plays[i - 1].action) then 1 else 0
  }

  lemma PlayedInv(n: nat, trace: seq<System>, plays: seq<Play>, i: nat)
    requires Played(n, trace, plays) && i < |plays|
    ensures Inv(trace[i])
  {
    StartInv(n);
    forall k | 0 <= k < |trace| - 1
      ensures Next(trace[k], trace[k + 1])
    {
      assert Steps(trace[k], plays[k].thread, plays[k].action, trace[k + 1]);
    }
    RunInv(trace, i);
    assert Steps(trace[i], plays[i].thread, plays[i].action, trace[i + 1]);
  }

  /** The surplus is the number of give-ups minus the retractions that nobody signalled for. */
  lemma {:induction false} SurplusCounts(n: nat, trace: seq<System>, plays: seq<Play>, i: nat)
    requires Played(n, trace, plays) && i <= |plays|
    ensures Surplus(trace[i]) == Count(trace, plays, i, GivesUp) - Count(trace, plays, i, Unsignalled)
  {
    if i == 0 {
      SumZero(trace[0].pcs, Bound);
      SumZero(trace[0].pcs, Passed);
    } else {
      SurplusCounts(n, trace, plays, i - 1);
      PlayedInv(n, trace, plays, i - 1);
      SurplusStep(trace[i - 1], plays[i - 1].thread, plays[i - 1].action, trace[i]);
    }
  }

  /** The callers before their first operation are those that began minus those that proceeded. */
  lemma {:induction false} CallingCounts(n: nat, trace: seq<System>, plays: seq<Play>, i: nat)
    requires Played(n, trace, plays) && i <= |plays|
    ensures Sum(trace[i].pcs, IsCalling) == Count(trace, plays, i, Begins) - Count(trace, plays, i, Proceeds)
  {
    if i == 0 {
      SumZero(trace[0].pcs, IsCalling);
    } else {
      CallingCounts(n, trace, plays, i - 1);
      CallingStep(trace[i - 1], plays[i - 1].thread, plays[i - 1].action, trace[i]);
    }
  }

  // ---------- The exact condition ----------

  ghost predicate AllOutside(s: System) {
    forall u | 0 <= u < |s.pcs| :: s.pcs[u].Outside?
  }

  ghost predicate AllOutsideBut(s: System, t: nat) {
    forall u | 0 <= u < |s.pcs| && u != t :: s.pcs[u].Outside?
  }

  /**
   * A successful destruction finds every other thread outside if and only if no post is outstanding,
   * the surplus of tokens being all in the queue, and no caller stands before its first operation.
   */
  lemma DestroyedExact(s: System, t: nat, action: Action, s': System)
    requires Inv(s) && Steps(s, t, action, s') && s'.cv.destroyed
    ensures AllOutsideBut(s, t) <==> Surplus(s) == s.cv.queue && Sum(s.pcs, IsCalling) == 0
  {
    NothingPassed(s, t);
    SumZero(s.pcs, Bound);
    SumZero(s.pcs, IsCalling);
    forall u | 0 <= u < |s.pcs| && u != t
      ensures s.pcs[u].Outside? <==> Bound(s.pcs[u]) == 0 && IsCalling(s.pcs[u]) == 0
    {
      DestroyedUnused(s, t, action, s', u);
      assert LocalInv(s.cv, s.pcs[u]);
    }
  }

  lemma NothingPassed(s: System, t: nat)
    requires Inv(s) && t < |s.pcs| && s.pcs[t].Testing? && s.cv.blocked <= s.cv.gone && !s.cv.destroyed
    ensures Surplus(s) == s.cv.queue + Sum(s.pcs, Bound)
  {
    BusyTestExact(s, t);
    SumTwo(s.pcs, HasGate, t, t);
    SumZero(s.pcs, Passed);
  }

  /**
   * Main result on destruction, for every run of any number of threads: when the variable is
   * destroyed nobody is inside if and only if the give-ups that were not used up by retractions are
   * all in the queue as tokens, and every call that began has got past its first operation.
   */
  lemma RunDestroyedExact(n: nat, trace: seq<System>, plays: seq<Play>, i: nat)
    requires Played(n, trace, plays) && i < |plays| && trace[i + 1].cv.destroyed
    ensures AllOutside(trace[i + 1]) <==>
      (Count(trace, plays, i, GivesUp) - Count(trace, plays, i, Unsignalled) == trace[i].cv.queue
       && Count(trace, plays, i, Begins) == Count(trace, plays, i, Proceeds))
  {
    var s, s', t := trace[i], trace[i + 1], plays[i].thread;
    assert Steps(s, t, plays[i].action, s');
    PlayedInv(n, trace, plays, i);
    SurplusCounts(n, trace, plays, i);
    CallingCounts(n, trace, plays, i);
    DestroyedExact(s, t, plays[i].action, s');
    assert s'.pcs[t].Outside?;
    assert forall u | 0 <= u < |s.pcs| && u != t :: s'.pcs[u] == s.pcs[u];
  }

  // ---------- Runs in which nobody gives up ----------

  /** A step other than a time-out or a cancellation. */
  ghost predicate Patient(s: System, s': System) {
    exists t: nat, action :: action != GiveUp && Steps(s, t, action, s')
  }

  ghost predicate OnlyCallers(s: System) {
    forall u | 0 <= u < |s.pcs| :: s.pcs[u].Outside? || Calling(s.pcs[u])
  }

  /** Tokens are exact and no wait was written off; once destroyed, only callers may be left inside. */
  ghost predicate Tidy(s: System) {
    if s.cv.destroyed then OnlyCallers(s)
    else Inv(s) && Surplus(s) == 0 && s.cv.gone == 0
  }

  lemma PassedIsSignalled(s: System, t: nat)
    requires Inv(s) && Surplus(s) == 0 && t < |s.pcs| && Passed(s.pcs[t]) == 1
    ensures s.cv.toUnblock > 0
  {
    SumTwo(s.pcs, Passed, t, t);
  }

  lemma PatientDestroys(s: System, t: nat, action: Action, s': System)
    requires Inv(s) && Surplus(s) == 0 && Steps(s, t, action, s') && s'.cv.destroyed
    ensures Tidy(s')
  {
    NothingPassed(s, t);
    SumZero(s.pcs, Bound);
    forall u | 0 <= u < |s.pcs|
      ensures s'.pcs[u].Outside? || Calling(s'.pcs[u])
    {
      if u != t {
        DestroyedUnused(s, t, action, s', u);
        assert LocalInv(s.cv, s.pcs[u]);
      }
    }
  }

  lemma PatientKept(s: System, s': System)
    requires Tidy(s) && Patient(s, s')
    ensures Tidy(s')
  {
    var t: nat, action :| action != GiveUp && Steps(s, t, action, s');
    if s'.cv.destroyed {
      PatientDestroys(s, t, action, s');
    } else {
      StepInv(s, t, action, s');
      SurplusStep(s, t, action, s');
      if s.pcs[t].Cleaning? {
        PassedIsSignalled(s, t);
      }
    }
  }

  /**
   * In a run in which nobody times out or is cancelled, only callers before their first operation
   * can be inside a destroyed variable; and nobody wakes spuriously: those past the queue are at most
   * as many as are to be unblocked, tokens are exact, and no wait is ever counted as gone.
   */
  lemma NobodyLeftInside(n: nat, trace: seq<System>, i: nat)
    requires Run(trace, Patient) && trace[0] == System(Start(), seq(n, _ => Outside)) && i < |trace|
    ensures trace[i].cv.destroyed ==> OnlyCallers(trace[i])
    ensures !trace[i].cv.destroyed ==>
      Surplus(trace[i]) == 0 && Sum(trace[i].pcs, Passed) <= trace[i].cv.toUnblock && trace[i].cv.gone == 0
  {
    StartInv(n);
    var pcs := seq(n, _ => Outside);
    SumZero(pcs, Bound);
    SumZero(pcs, Passed);
    forall s, s' | Tidy(s) && Patient(s, s')
      ensures Tidy(s')
    {
      PatientKept(s, s');
    }
    Invariance(trace, Patient, Tidy, i);
  }

  // ---------- Runs that reach the delicate states ----------

  /** Thread `t` goes on. */
  lemma Then(s0: System, s: System, t: nat, action: Action) returns (s': System)
    requires Reaches(s0, s, Next) && t < |s.pcs| && Enabled(s.cv, s.pcs[t], action)
    ensures Reaches(s0, s', Next)
    ensures s' == System(Act(s.cv, s.pcs[t], action).0, s.pcs[t := Act(s.cv, s.pcs[t], action).1])
  {
    s' := System(Act(s.cv, s.pcs[t], action).0, s.pcs[t := Act(s.cv, s.pcs[t], action).1]);
    assert Steps(s, t, action, s');
    ReachesNext(s0, s, s', Next);
  }

  /** Thread `t` goes on without giving up. */
  lemma ThenPatiently(s0: System, s: System, t: nat, action: Action) returns (s': System)
    requires Reaches(s0, s, Patient) && t < |s.pcs| && Enabled(s.cv, s.pcs[t], action) && action != GiveUp
    ensures Reaches(s0, s', Patient)
    ensures s' == System(Act(s.cv, s.pcs[t], action).0, s.pcs[t := Act(s.cv, s.pcs[t], action).1])
  {
    s' := System(Act(s.cv, s.pcs[t], action).0, s.pcs[t := Act(s.cv, s.pcs[t], action).1]);
    assert Steps(s, t, action, s');
    ReachesNext(s0, s, s', Patient);
  }

  const THREE := System(Start(), [Outside, Outside, Outside])

  lemma Waits() returns (s: System)
    ensures Reaches(THREE, s, Next)
    ensures s == System(Cv(1, 0, 0, 0, 1, true, false), [Waiting, Outside, Outside])
  {
    ReachesSelf(THREE, Next);
    s := Then(THREE, THREE, 0, Enter);
    s := Then(THREE, s, 0, Go);
    s := Then(THREE, s, 0, Go);
    s := Then(THREE, s, 0, Go);
  }

  lemma Signals() returns (s: System)
    ensures Reaches(THREE, s, Next)
    ensures s == System(Cv(1, 0, 0, 0, 0, false, false), [Waiting, Closed(false), Outside])
  {
    s := Waits();
    s := Then(THREE, s, 1, Signal(false));
    s := Then(THREE, s, 1, Go);
    s := Then(THREE, s, 1, Go);
    s := Then(THREE, s, 1, Go);
  }

  /** Thread 0 waits; thread 1 signals and gives the mutex back, its token not yet posted. */
  lemma SignalsLate() returns (s: System)
    ensures Reaches(THREE, s, Next)
    ensures s == System(Cv(0, 0, 1, 0, 0, true, false), [Waiting, Posting(1), Outside])
  {
    s := Signals();
    s := Then(THREE, s, 1, Go);
    s := Then(THREE, s, 1, Go);
  }

  /** Thread 0 gives up, and its clean-up opens the gate again. */
  lemma ReopensGate(s0: System) returns (s: System)
    requires s0 == System(Cv(0, 0, 1, 0, 0, true, false), [Waiting, Posting(1), Outside])
    requires Reaches(THREE, s0, Next)
    ensures Reaches(THREE, s, Next)
    ensures s == System(Cv(0, 0, 0, 0, 1, true, false), [Outside, Posting(1), Outside])
  {
    s := Then(THREE, s0, 0, GiveUp);
    s := Then(THREE, s, 0, Go);
    assert s == System(Cv(0, 0, 1, 0, 0, false, false), [Cleaning, Posting(1), Outside]);
    s := Then(THREE, s, 0, Go);
    s := Then(THREE, s, 0, Go);
    assert s == System(Cv(0, 0, 0, 0, 0, true, false), [Reopening, Posting(1), Outside]);
    s := Then(THREE, s, 0, Go);
  }

  /**
   * With a time-out it does happen: a run in which thread 2 destroys the variable while thread 1 has
   * yet to post a token to its semaphore.
   */
  lemma DestroyedTooEarly() returns (s: System)
    ensures Reaches(THREE, s, Next)
    ensures s.cv.destroyed && |s.pcs| == 3 && s.pcs[1] == Posting(1)
  {
    s := SignalsLate();
    s := ReopensGate(s);
    s := Then(THREE, s, 2, Destroy);
    s := Then(THREE, s, 2, Go);
    s := Then(THREE, s, 2, Go);
  }

  /**
   * It happens without anybody giving up, too: a run in which thread 0 has called
   * pthread_cond_wait, and stands at the gate when thread 2 destroys the variable.
   */
  lemma DestroyedUnderCaller() returns (s: System)
    ensures Reaches(THREE, s, Patient)
    ensures s.cv.destroyed && |s.pcs| == 3 && s.pcs[0] == AtGate
  {
    ReachesSelf(THREE, Patient);
    s := ThenPatiently(THREE, THREE, 2, Destroy);
    s := ThenPatiently(THREE, s, 0, Enter);
    s := ThenPatiently(THREE, s, 2, Go);
    s := ThenPatiently(THREE, s, 2, Go);
  }

  /** A run in which a destroyer finds the mutex taken, although nobody waits. */
  lemma MutexTaken() returns (s: System)
    ensures Reaches(THREE, s, Next)
    ensures |s.pcs| == 3 && s.pcs[2] == Destroying && !s.cv.unlocked && !s.cv.destroyed && s.cv.blocked == 0
  {
    ReachesSelf(THREE, Next);
    s := Then(THREE, THREE, 1, Signal(false));
    s := Then(THREE, s, 1, Go);
    s := Then(THREE, s, 2, Destroy);
  }
}
