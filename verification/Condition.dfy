/**
 * The condition variable as an object that is updated in place.  Each method is what one thread does
 * between two points at which it may block; it is a run of that thread in the machine of CondVar,
 * wherever the other threads stand.
 */
module Condition {
  import opened Runs
  import opened CondVar
  import opened CondList

  /** Waiters that no signal has been spent on. */
  function Unsignalled(cv: Cv): int {
    cv.blocked - cv.gone
  }

  /** The effect of a waiter's clean-up. */
  function AfterRetract(cv: Cv): Cv {
    if cv.toUnblock != 0 then
      cv.(toUnblock := cv.toUnblock - 1, gate := cv.gate + if cv.toUnblock == 1 then 1 else 0)
    else if cv.gone + 1 == GONE_LIMIT then cv.(blocked := cv.blocked - (cv.gone + 1), gone := 0)
    else cv.(gone := cv.gone + 1)
  }

  /** Spends signals on `k` blocked waiters, from then on the gone ones are written off. */
  function Spend(cv: Cv, k: nat): Cv {
    if cv.toUnblock != 0 then
      cv.(toUnblock := cv.toUnblock + k, blocked := cv.blocked - k, queue := cv.queue + k)
    else if cv.gate > 0 then
      cv.(toUnblock := k, blocked := cv.blocked - cv.gone - k, gone := 0, gate := cv.gate - 1,
          queue := cv.queue + k)
    else cv
  }

  /** How many tokens a signal or a broadcast posts. */
  function Issued(cv: Cv, all: bool): nat {
    if Unsignalled(cv) <= 0 then 0 else if all then Unsignalled(cv) else 1
  }

  function AfterUnblock(cv: Cv, all: bool): Cv {
    if Issued(cv, all) == 0 then cv else Spend(cv, Issued(cv, all))
  }

  /** What a caller that is alone in the condition variable finds: nothing is held by a thread. */
  predicate Idle(cv: Cv) {
    && !cv.destroyed && cv.unlocked
    && cv.blocked >= 0 && cv.gone >= 0 && cv.toUnblock >= 0
    && (cv.toUnblock > 0 ==> cv.gone == 0)
    && cv.gate == if cv.toUnblock > 0 then 0 else 1
  }

  // ---------- Each method is a run of the machine ----------

  /** Thread `t` at `pc`, the other threads as in `pcs`. */
  ghost function At(cv: Cv, pcs: seq<Pc>, t: nat, pc: Pc): System
    requires t < |pcs|
  {
    System(cv, pcs[t := pc])
  }

  /** One more step of thread `t`. */
  lemma Then(s0: System, cv: Cv, pcs: seq<Pc>, t: nat, pc: Pc, action: Action)
    requires t < |pcs| && Enabled(cv, pc, action)
    requires Reaches(s0, At(cv, pcs, t, pc), Next)
    ensures var (cv', pc') := Act(cv, pc, action);
      Reaches(s0, At(cv', pcs, t, pc'), Next)
  {
    var (cv', pc') := Act(cv, pc, action);
    var s, s' := At(cv, pcs, t, pc), At(cv', pcs, t, pc');
    assert s.pcs[t := pc'] == s'.pcs;
    assert Steps(s, t, action, s');
    ReachesNext(s0, s, s', Next);
  }

  /** A waiter's clean-up, unless another thread steps in. */
  lemma RetractRuns(cv: Cv, pcs: seq<Pc>, t: nat)
    requires Idle(cv) && t < |pcs| && pcs[t] == Leaving
    ensures Reaches(System(cv, pcs), At(AfterRetract(cv), pcs, t, Outside), Next)
  {
    var s := System(cv, pcs);
    assert s == At(cv, pcs, t, Leaving);
    ReachesSelf(s, Next);
    var held := cv.(unlocked := false);
    Then(s, cv, pcs, t, Leaving, Go);
    Then(s, held, pcs, t, Cleaning, Go);
    var (after, pc) := Bookkeep(held);
    if pc.Flushing? {
      FlushRuns(s, after, pcs, t);
    } else {
      Then(s, after, pcs, t, pc, Go);
      if pc.left == 1 {
        Then(s, after.(unlocked := true), pcs, t, Reopening, Go);
      }
    }
  }

  /** The gone waiters are written off. */
  lemma FlushRuns(s: System, cv: Cv, pcs: seq<Pc>, t: nat)
    requires t < |pcs| && cv.gate > 0 && !cv.destroyed && Reaches(s, At(cv, pcs, t, Flushing), Next)
    ensures Reaches(s, At(cv.(blocked := cv.blocked - cv.gone, gone := 0, unlocked := true), pcs, t, Outside), Next)
  {
    var flushed := cv.(gate := cv.gate - 1, blocked := cv.blocked - cv.gone);
    Then(s, cv, pcs, t, Flushing, Go);
    Then(s, flushed, pcs, t, Flushed, Go);
    Then(s, flushed.(gate := cv.gate), pcs, t, Resetting, Go);
    Then(s, flushed.(gate := cv.gate, gone := 0), pcs, t, Unlocking(0), Go);
  }

  /** A signal or a broadcast, unless another thread steps in. */
  lemma UnblockRuns(cv: Cv, all: bool, pcs: seq<Pc>, t: nat)
    requires Idle(cv) && t < |pcs| && pcs[t] == Outside
    ensures Reaches(System(cv, pcs), At(AfterUnblock(cv, all), pcs, t, Outside), Next)
  {
    var s := System(cv, pcs);
    assert s == At(cv, pcs, t, Outside);
    ReachesSelf(s, Next);
    var held := cv.(unlocked := false);
    Then(s, cv, pcs, t, Outside, Signal(all));
    Then(s, cv, pcs, t, AtMutex(all), Go);
    Then(s, held, pcs, t, Signalling(all), Go);
    if Issued(cv, all) == 0 {
      Then(s, held, pcs, t, Unlocking(0), Go);
    } else if cv.toUnblock == 0 {
      CloseRuns(s, held, all, pcs, t);
    } else {
      IssueRuns(s, held, all, pcs, t);
    }
  }

  /** The gate is closed and the gone waiters are written off before the waiters are moved. */
  lemma CloseRuns(s: System, cv: Cv, all: bool, pcs: seq<Pc>, t: nat)
    requires t < |pcs| && !cv.destroyed && cv.gate > 0 && cv.blocked > cv.gone
    requires Reaches(s, At(cv, pcs, t, Closing(all)), Next)
    ensures var left := cv.blocked - cv.gone;
      var k := if all then left else 1;
      var posted := cv.(toUnblock := cv.toUnblock + k, blocked := left - k, gone := 0, gate := cv.gate - 1,
                        unlocked := true, queue := cv.queue + k);
      Reaches(s, At(posted, pcs, t, Outside), Next)
  {
    var closed := cv.(gate := cv.gate - 1);
    Then(s, cv, pcs, t, Closing(all), Go);
    Then(s, closed, pcs, t, Closed(all), Go);
    IssueRuns(s, closed.(blocked := closed.blocked - closed.gone, gone := 0), all, pcs, t);
  }

  /** The waiters are moved and the tokens posted. */
  lemma IssueRuns(s: System, cv: Cv, all: bool, pcs: seq<Pc>, t: nat)
    requires t < |pcs| && !cv.destroyed && cv.blocked > 0
    requires var (moved, issuing) := Move(cv, all);
      Reaches(s, At(moved, pcs, t, issuing), Next)
    ensures var k := if all then cv.blocked else 1;
      var posted := cv.(toUnblock := cv.toUnblock + k, blocked := cv.blocked - k, unlocked := true,
                        queue := cv.queue + k);
      Reaches(s, At(posted, pcs, t, Outside), Next)
  {
    var (moved, issuing) := Move(cv, all);
    Then(s, moved, pcs, t, issuing, Go);
    Then(s, moved.(unlocked := true), pcs, t, Posting(issuing.tokens), Go);
  }

  // ---------- What the methods do for the waiters ----------

  /**
   * A signal is spent on one waiter and a broadcast on all that no signal has been spent on: so many
   * tokens are posted, no waiter is forgotten, and the gate is closed while any is to be unblocked.
   */
  lemma UnblockExact(cv: Cv, all: bool)
    requires Idle(cv)
    ensures var n, cv' := if Unsignalled(cv) <= 0 then 0 else if all then Unsignalled(cv) else 1, AfterUnblock(cv, all);
      && Unsignalled(cv') == Unsignalled(cv) - n && cv'.toUnblock == cv.toUnblock + n
      && cv'.queue == cv.queue + n && cv'.gate == (if cv'.toUnblock > 0 then 0 else 1)
      && (n > 0 ==> cv'.gone == 0) && (n == 0 ==> cv' == cv)
      && cv'.unlocked == cv.unlocked && cv'.destroyed == cv.destroyed
  {
  }

  /**
   * A clean-up takes one waiter off those to be unblocked, or, if there is none, off those that no
   * signal has been spent on; takes no token; and opens the gate with the last to be unblocked.
   */
  lemma RetractExact(cv: Cv)
    requires Idle(cv) && (cv.toUnblock > 0 || 0 <= cv.gone < GONE_LIMIT)
    ensures var cv' := AfterRetract(cv);
      && (if cv.toUnblock > 0 then cv'.toUnblock == cv.toUnblock - 1 && cv'.blocked == cv.blocked && cv'.gone == 0
          else cv'.toUnblock == 0 && Unsignalled(cv') == Unsignalled(cv) - 1 && 0 <= cv'.gone < GONE_LIMIT)
      && cv'.queue == cv.queue && cv'.gate == (if cv'.toUnblock > 0 then 0 else 1)
      && cv'.unlocked == cv.unlocked && cv'.destroyed == cv.destroyed
  {
  }

  /**
   * With `n` waiters that no signal has been spent on, a broadcast leaves none, and one signal at a
   * time leaves none after `n` signals, with the same counters and the same number of tokens.
   */
  lemma {:induction false} BroadcastIsSignals(cv: Cv)
    requires Idle(cv)
    ensures AfterUnblock(cv, true) == Signals(cv, Unsignalled(cv))
    ensures Unsignalled(AfterUnblock(cv, true)) <= 0
    ensures AfterUnblock(AfterUnblock(cv, true), true) == AfterUnblock(cv, true)
    decreases Unsignalled(cv)
  {
    if Unsignalled(cv) <= 0 {
    } else {
      BroadcastIsSignals(AfterUnblock(cv, false));
    }
  }

  /** The effect of `n` signals. */
  function Signals(cv: Cv, n: int): Cv
    decreases n
  {
    if n <= 0 then cv else Signals(AfterUnblock(cv, false), n - 1)
  }

  /** The clean-ups of `n` waiters. */
  function Retracts(cv: Cv, n: nat): Cv
    decreases n
  {
    if n == 0 then cv else Retracts(AfterRetract(cv), n - 1)
  }

  /**
   * A broadcast and the clean-ups of all its waiters: every token is taken, the gate is open again,
   * and no counter remembers any of the waiters.
   */
  lemma {:induction false} GenerationEnds(cv: Cv)
    requires Idle(cv) && cv.toUnblock > 0 && cv.blocked == 0
    ensures Retracts(cv, cv.toUnblock) == cv.(toUnblock := 0, gate := 1)
    decreases cv.toUnblock
  {
    if cv.toUnblock == 1 {
      assert Retracts(AfterRetract(cv), 0) == AfterRetract(cv);
    } else {
      GenerationEnds(AfterRetract(cv));
    }
  }

  datatype Verdict = Destroyed | Busy

  class Condition {
    const node: Node           // its place in the registry
    var nWaitersBlocked: int
    var nWaitersGone: int
    var nWaitersToUnblock: int
    var semBlockQueue: nat
    var semBlockLock: nat
    var mtxUnblockLock: bool   // whether it is free
    ghost var destroyed: bool

    ghost function State(): Cv
      reads this
    {
      Cv(nWaitersBlocked, nWaitersGone, nWaitersToUnblock, semBlockQueue, semBlockLock,
         mtxUnblockLock, destroyed)
    }

    /** pthread_cond_init by thread `t`. */
    constructor (registry: Registry, t: nat)
      requires registry.Valid() && registry.lock.Admits(t)
      modifies registry, registry.nodes
      ensures State() == Start() && Idle(State())
      ensures registry.Valid() && registry.lock == old(registry.lock)
      ensures fresh(node) && registry.nodes == old(registry.nodes) + [node]
    {
      nWaitersBlocked, nWaitersToUnblock, nWaitersGone := 0, 0, 0;
      semBlockLock, semBlockQueue, mtxUnblockLock := 1, 0, true;
      destroyed := false;
      var place := new Node();
      node := place;
      new;
      registry.Append(place, t);
    }

    /** The first part of pthread_cond_wait: the thread registers itself. */
    method Register()
      requires Idle(State()) && nWaitersToUnblock == 0
      modifies this
      ensures Idle(State())
      ensures State() == old(State()).(blocked := old(nWaitersBlocked) + 1)
    {
      semBlockLock := semBlockLock - 1;
      nWaitersBlocked := nWaitersBlocked + 1;
      semBlockLock := semBlockLock + 1;
    }

    /** The last part of pthread_cond_wait, after a token, a time-out or a cancellation. */
    method Retract()
      requires Idle(State())
      requires nWaitersToUnblock > 0 || nWaitersBlocked > nWaitersGone
      modifies this
      ensures State() == AfterRetract(old(State())) && Idle(State())
    {
      mtxUnblockLock := false;
      var nSignalsWasLeft := nWaitersToUnblock;
      if nSignalsWasLeft != 0 {
        nWaitersToUnblock := nWaitersToUnblock - 1;
      } else {
        nWaitersGone := nWaitersGone + 1;
        if nWaitersGone == GONE_LIMIT {
          semBlockLock := semBlockLock - 1;
          nWaitersBlocked := nWaitersBlocked - nWaitersGone;
          semBlockLock := semBlockLock + 1;
          nWaitersGone := 0;
        }
      }
      mtxUnblockLock := true;
      if nSignalsWasLeft == 1 {
        semBlockLock := semBlockLock + 1;
      }
    }

    /** pthread_cond_signal and pthread_cond_broadcast. */
    method Unblock(all: bool)
      requires Idle(State())
      modifies this
      ensures State() == AfterUnblock(old(State()), all) && Idle(State())
    {
      mtxUnblockLock := false;
      var nSignalsToIssue: nat;
      if nWaitersToUnblock != 0 {
        if nWaitersBlocked == 0 {
          mtxUnblockLock := true;
          return;
        }
        if all {
          nSignalsToIssue := nWaitersBlocked;
          nWaitersToUnblock := nWaitersToUnblock + nSignalsToIssue;
          nWaitersBlocked := 0;
        } else {
          nSignalsToIssue := 1;
          nWaitersToUnblock := nWaitersToUnblock + 1;
          nWaitersBlocked := nWaitersBlocked - 1;
        }
      } else if nWaitersBlocked > nWaitersGone {
        semBlockLock := semBlockLock - 1;
        if nWaitersGone != 0 {
          nWaitersBlocked := nWaitersBlocked - nWaitersGone;
          nWaitersGone := 0;
        }
        if all {
          nSignalsToIssue := nWaitersBlocked;
          nWaitersToUnblock := nSignalsToIssue;
          nWaitersBlocked := 0;
        } else {
          nSignalsToIssue := 1;
          nWaitersToUnblock := 1;
          nWaitersBlocked := nWaitersBlocked - 1;
        }
      } else {
        mtxUnblockLock := true;
        return;
      }
      mtxUnblockLock := true;
      semBlockQueue := semBlockQueue + nSignalsToIssue;
    }

    /**
     * pthread_cond_destroy by thread `t`, for the condition variable at `k` in the registry: fails
     * exactly for a registered waiter or a mutex that is taken, and in the second case returns
     * inside the critical section of the registry.
     */
    method Destroy(registry: Registry, t: nat, ghost k: nat) returns (verdict: Verdict)
      requires semBlockLock > 0 && !destroyed
      requires registry.Valid() && registry.lock.Admits(t)
      requires k < |registry.nodes| && registry.nodes[k] == node
      modifies this, registry, registry.nodes
      ensures verdict.Destroyed? <==> destroyed
      ensures verdict.Destroyed? <==> old(mtxUnblockLock) && Unsignalled(old(State())) <= 0
      ensures verdict.Busy? ==> State() == old(State())
      ensures registry.Valid()
      ensures registry.nodes == if verdict.Busy? then old(registry.nodes)
                                else old(registry.nodes)[..k] + old(registry.nodes)[k + 1..]
      ensures registry.lock == AfterCall(old(registry.lock), CondList.Destroy(t, !old(mtxUnblockLock)))
      ensures old(registry.lock) == Free ==> (registry.lock.Held? <==> !old(mtxUnblockLock))
    {
      registry.lock := registry.lock.Enter(t);
      semBlockLock := semBlockLock - 1;
      if !mtxUnblockLock {
        semBlockLock := semBlockLock + 1;
        return Busy;
      }
      mtxUnblockLock := false;
      if nWaitersBlocked > nWaitersGone {
        semBlockLock := semBlockLock + 1;
        mtxUnblockLock := true;
        verdict := Busy;
      } else {
        destroyed := true;
        registry.Unlink(node, k);
        verdict := Destroyed;
      }
      registry.lock := registry.lock.Leave();
    }
  }
}
