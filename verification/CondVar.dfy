/**
 * The condition variable of pthreads-win32 ("Algorithm 9"), for any number of threads that wait,
 * time out, are cancelled, signal, broadcast and destroy, in any interleaving.  Semaphore and
 * mutex operations are atomic steps.
 */
module CondVar {
  import opened Runs
  import opened Threads

  /** The bound at which gone waiters are written off: half the largest 32-bit integer. */
  const GONE_LIMIT: int := 0x7fff_ffff / 2

  /** The shared fields. */
  datatype Cv = Cv(
    blocked: int,      // nWaitersBlocked
    gone: int,         // nWaitersGone
    toUnblock: int,    // nWaitersToUnblock
    queue: nat,        // the value of semBlockQueue
    gate: nat,         // the value of semBlockLock
    unlocked: bool,    // whether mtxUnblockLock is free
    destroyed: bool)

  /** Where a thread stands. */
  datatype Pc =
    | Outside
    // pthread_cond_wait
    | AtGate            // has called, wants the gate
    | Entering          // has the gate
    | Entered           // has counted itself, still has the gate
    | Waiting           // blocked on the queue
    | Leaving           // took a token, timed out or was cancelled
    | Cleaning          // has the mutex
    | Flushing          // the gone waiters reached their bound: wants the gate
    | Flushed           // has the gate, has written the gone waiters off
    | Resetting         // gave the gate back
    | Unlocking(left: int)  // still has the mutex; `left` was nWaitersToUnblock
    | Reopening         // gave the mutex back, is about to open the gate
    // pthread_cond_signal and pthread_cond_broadcast
    | AtMutex(all: bool)     // has called, wants the mutex
    | Signalling(all: bool)  // has the mutex
    | Closing(all: bool)     // wants the gate
    | Closed(all: bool)      // has the gate
    | Issuing(tokens: nat)   // moved waiters to be unblocked, still has the mutex
    | Posting(tokens: nat)   // is about to post the tokens
    // pthread_cond_destroy
    | Destroying        // has the gate
    | Testing           // has the gate and the mutex

  /**
   * What a thread may do next; most positions allow one action.  Giving up is a time-out or a
   * cancellation while waiting, or a cancellation at the gate, before anything is counted.
   */
  datatype Action = Enter | Signal(all: bool) | Destroy | GiveUp | Go

  function Start(): Cv {
    Cv(0, 0, 0, 0, 1, true, false)
  }

  /** Whether the action is possible; a thread without a possible action is blocked. */
  predicate Enabled(cv: Cv, pc: Pc, action: Action) {
    && !cv.destroyed
    && match pc
       case Outside =>
         match action {
           case Enter => true
           case Signal(_) => true
           case Destroy => cv.gate > 0
           case GiveUp => false
           case Go => false
         }
       case AtGate => action.GiveUp? || (action.Go? && cv.gate > 0)
       case AtMutex(_) => action.Go? && cv.unlocked
       case Waiting => action.GiveUp? || (action.Go? && cv.queue > 0)
       case Leaving => action.Go? && cv.unlocked
       case Flushing => action.Go? && cv.gate > 0
       case Closing(_) => action.Go? && cv.gate > 0
       case _ => action.Go?
  }

  /** One step of one thread. */
  function Act(cv: Cv, pc: Pc, action: Action): (Cv, Pc)
    requires Enabled(cv, pc, action)
  {
    match pc
    case Outside =>
      (match action
       case Enter => (cv, AtGate)
       case Signal(all) => (cv, AtMutex(all))
       case _ => (cv.(gate := cv.gate - 1), Destroying))
    // pthread_cond_wait
    case AtGate => if action.GiveUp? then (cv, Outside) else (cv.(gate := cv.gate - 1), Entering)
    case Entering => (cv.(blocked := cv.blocked + 1), Entered)
    case Entered => (cv.(gate := cv.gate + 1), Waiting)
    case Waiting => (if action.GiveUp? then cv else cv.(queue := cv.queue - 1), Leaving)
    case Leaving => (cv.(unlocked := false), Cleaning)
    case Cleaning => Bookkeep(cv)
    case Flushing => (cv.(gate := cv.gate - 1, blocked := cv.blocked - cv.gone), Flushed)
    case Flushed => (cv.(gate := cv.gate + 1), Resetting)
    case Resetting => (cv.(gone := 0), Unlocking(0))
    case Unlocking(left) => (cv.(unlocked := true), if left == 1 then Reopening else Outside)
    case Reopening => (cv.(gate := cv.gate + 1), Outside)
    // pthread_cond_signal and pthread_cond_broadcast
    case AtMutex(all) => (cv.(unlocked := false), Signalling(all))
    case Signalling(all) => Decide(cv, all)
    case Closing(all) => (cv.(gate := cv.gate - 1), Closed(all))
    case Closed(all) => Move(cv.(blocked := cv.blocked - cv.gone, gone := 0), all)
    case Issuing(k) => (cv.(unlocked := true), Posting(k))
    case Posting(k) => (cv.(queue := cv.queue + k), Outside)
    // pthread_cond_destroy
    case Destroying =>
      if cv.unlocked then (cv.(unlocked := false), Testing) else (cv.(gate := cv.gate + 1), Outside)
    case Testing =>
      if cv.blocked > cv.gone then (cv.(gate := cv.gate + 1), Unlocking(0))
      else (cv.(destroyed := true), Outside)
  }

  /** The waiter retracts its waiter status, whatever made it leave. */
  function Bookkeep(cv: Cv): (Cv, Pc) {
    if cv.toUnblock != 0 then (cv.(toUnblock := cv.toUnblock - 1), Unlocking(cv.toUnblock))
    else if cv.gone + 1 == GONE_LIMIT then (cv.(gone := cv.gone + 1), Flushing)
    else (cv.(gone := cv.gone + 1), Unlocking(0))
  }

  /** The signaller finds a closed gate, waiters to close the gate for, or nobody. */
  function Decide(cv: Cv, all: bool): (Cv, Pc) {
    if cv.toUnblock != 0 then
      if cv.blocked == 0 then (cv, Unlocking(0)) else Move(cv, all)
    else if cv.blocked > cv.gone then (cv, Closing(all))
    else (cv, Unlocking(0))
  }

  /** Moves one blocked waiter, or all of them, to those to be unblocked. */
  function Move(cv: Cv, all: bool): (Cv, Pc) {
    var k := if all then cv.blocked else 1;
    (cv.(toUnblock := cv.toUnblock + k, blocked := cv.blocked - k), Issuing(if k > 0 then k else 0))
  }

  datatype System = System(cv: Cv, pcs: seq<Pc>)

  predicate Steps(s: System, t: nat, action: Action, s': System) {
    && t < |s.pcs|
    && Enabled(s.cv, s.pcs[t], action)
    && var (cv, pc) := Act(s.cv, s.pcs[t], action);
       s' == System(cv, s.pcs[t := pc])
  }

  ghost predicate Next(s: System, s': System) {
    exists t, action :: Steps(s, t, action, s')
  }

  // ---------- What each position stands for ----------

  /** A registered waiter: it has counted itself and has not retracted that yet. */
  function Registered(pc: Pc): nat {
    if pc.Entered? || pc.Waiting? || pc.Leaving? || pc.Cleaning? then 1 else 0
  }

  /** The thread has the gate, or is the one that will open it. */
  function HasGate(pc: Pc): nat {
    if pc.Entering? || pc.Entered? || pc.Flushed? || pc == Unlocking(1) || pc.Reopening?
       || pc.Closed? || pc.Destroying? || pc.Testing? then 1 else 0
  }

  function HasMutex(pc: Pc): nat {
    if pc.Cleaning? || pc.Flushing? || pc.Flushed? || pc.Resetting? || pc.Unlocking?
       || pc.Signalling? || pc.Closing? || pc.Closed? || pc.Issuing? || pc.Testing? then 1 else 0
  }

  /** Tokens that the thread is bound to post, without any further signal. */
  function Bound(pc: Pc): nat {
    if pc.Issuing? || pc.Posting? then pc.tokens else 0
  }

  /** The waiter is past the queue and has not retracted its waiter status yet. */
  function Passed(pc: Pc): nat {
    if pc.Leaving? || pc.Cleaning? then 1 else 0
  }

  function Blocked(pc: Pc): nat {
    if pc.Waiting? then 1 else 0
  }

  /** The gone waiters are written off but the counter is not reset yet. */
  function WrittenOff(pc: Pc): nat {
    if pc.Flushed? || pc.Resetting? then 1 else 0
  }

  /** What a thread relies on. */
  predicate LocalInv(cv: Cv, pc: Pc) {
    match pc
    case Closing(_) => cv.toUnblock == 0 && cv.blocked > cv.gone
    case Closed(_) => cv.toUnblock == 0 && cv.blocked > cv.gone
    case Flushing => cv.toUnblock == 0 && cv.gone == GONE_LIMIT
    case Flushed => cv.toUnblock == 0 && cv.gone == GONE_LIMIT
    case Resetting => cv.toUnblock == 0 && cv.gone == GONE_LIMIT
    case Issuing(tokens) => tokens > 0
    case Posting(tokens) => tokens > 0
    case _ => true
  }

  /** Exactly one owner of the gate: it is free, a thread has it, or a generation keeps it closed. */
  ghost predicate GateInv(s: System) {
    s.cv.gate + Sum(s.pcs, HasGate) + (if s.cv.toUnblock > 0 then 1 else 0) == 1
  }

  ghost predicate MutexInv(s: System) {
    (if s.cv.unlocked then 1 else 0) + Sum(s.pcs, HasMutex) == 1
  }

  /** Waiters are conserved: the counters account for every registered waiter. */
  ghost predicate Conserved(s: System) {
    Sum(s.pcs, Registered)
      == s.cv.blocked + s.cv.toUnblock - if Sum(s.pcs, WrittenOff) > 0 then 0 else s.cv.gone
  }

  /** The gone waiters are at their bound, and are about to be written off. */
  function AtLimit(pc: Pc): nat {
    if pc.Flushing? || pc.Flushed? || pc.Resetting? then 1 else 0
  }

  ghost predicate CountersInv(s: System) {
    && s.cv.blocked >= 0 && 0 <= s.cv.gone <= GONE_LIMIT && s.cv.toUnblock >= 0
    && (s.cv.gone < GONE_LIMIT || Sum(s.pcs, AtLimit) > 0)
    && (s.cv.toUnblock > 0 ==> s.cv.gone == 0)
  }

  /** Tokens posted or bound to be posted suffice for all that are to be unblocked. */
  ghost predicate TokensInv(s: System) {
    s.cv.queue + Sum(s.pcs, Bound) + Sum(s.pcs, Passed) >= s.cv.toUnblock
  }

  ghost predicate ThreadsInv(s: System) {
    forall t | 0 <= t < |s.pcs| :: LocalInv(s.cv, s.pcs[t])
  }

  ghost predicate Inv(s: System) {
    && GateInv(s) && MutexInv(s) && Conserved(s) && CountersInv(s) && TokensInv(s) && ThreadsInv(s)
  }

  lemma StartInv(n: nat)
    ensures Inv(System(Start(), seq(n, _ => Outside)))
  {
    var pcs := seq(n, _ => Outside);
    SumZero(pcs, HasGate);
    SumZero(pcs, HasMutex);
    SumZero(pcs, Registered);
    SumZero(pcs, WrittenOff);
    SumZero(pcs, Bound);
    SumZero(pcs, Passed);
    SumZero(pcs, AtLimit);
  }

  // ---------- Every step keeps the invariant ----------

  /** How the sums change when one thread moves. */
  lemma SumsMove(s: System, t: nat, action: Action, s': System)
    requires Steps(s, t, action, s')
    ensures var p, p' := s.pcs[t], s'.pcs[t];
      && Sum(s'.pcs, HasGate) + HasGate(p) == Sum(s.pcs, HasGate) + HasGate(p')
      && Sum(s'.pcs, HasMutex) + HasMutex(p) == Sum(s.pcs, HasMutex) + HasMutex(p')
      && Sum(s'.pcs, Registered) + Registered(p) == Sum(s.pcs, Registered) + Registered(p')
      && Sum(s'.pcs, WrittenOff) + WrittenOff(p) == Sum(s.pcs, WrittenOff) + WrittenOff(p')
      && Sum(s'.pcs, Bound) + Bound(p) == Sum(s.pcs, Bound) + Bound(p')
      && Sum(s'.pcs, Passed) + Passed(p) == Sum(s.pcs, Passed) + Passed(p')
      && Sum(s'.pcs, AtLimit) + AtLimit(p) == Sum(s.pcs, AtLimit) + AtLimit(p')
  {
    var p' := s'.pcs[t];
    SumUpdate(s.pcs, HasGate, t, p');
    SumUpdate(s.pcs, HasMutex, t, p');
    SumUpdate(s.pcs, Registered, t, p');
    SumUpdate(s.pcs, WrittenOff, t, p');
    SumUpdate(s.pcs, Bound, t, p');
    SumUpdate(s.pcs, Passed, t, p');
    SumUpdate(s.pcs, AtLimit, t, p');
  }

  /** The mutex is used for something else than writing off gone waiters. */
  function OtherMutex(pc: Pc): nat {
    HasMutex(pc) - WrittenOff(pc)
  }

  function BelowLimit(pc: Pc): nat {
    HasMutex(pc) - AtLimit(pc)
  }

  /** What the moving thread contributes is part of the sums. */
  lemma SumsCover(s: System, t: nat)
    requires t < |s.pcs|
    ensures Sum(s.pcs, HasGate) >= HasGate(s.pcs[t])
    ensures Sum(s.pcs, HasMutex) >= HasMutex(s.pcs[t])
    ensures Sum(s.pcs, Registered) >= Registered(s.pcs[t])
    ensures Sum(s.pcs, WrittenOff) >= WrittenOff(s.pcs[t])
    ensures Sum(s.pcs, HasMutex) >= Sum(s.pcs, WrittenOff) + OtherMutex(s.pcs[t])
    ensures Sum(s.pcs, HasMutex) >= Sum(s.pcs, AtLimit) + BelowLimit(s.pcs[t])
  {
    SumTwo(s.pcs, HasGate, t, t);
    SumTwo(s.pcs, HasMutex, t, t);
    SumTwo(s.pcs, Registered, t, t);
    SumTwo(s.pcs, WrittenOff, t, t);
    SumTwo(s.pcs, OtherMutex, t, t);
    SumAdds(s.pcs, WrittenOff, OtherMutex, HasMutex);
    SumTwo(s.pcs, BelowLimit, t, t);
    SumAdds(s.pcs, AtLimit, BelowLimit, HasMutex);
  }

  function Owned(cv: Cv, pc: Pc): int {
    cv.gate + HasGate(pc) + if cv.toUnblock > 0 then 1 else 0
  }

  function Locked(cv: Cv, pc: Pc): int {
    HasMutex(pc) + if cv.unlocked then 1 else 0
  }

  /** A step of one thread hands gate and mutex over. */
  lemma ThreadOwns(cv: Cv, pc: Pc, action: Action)
    requires Enabled(cv, pc, action) && LocalInv(cv, pc)
    requires cv.blocked >= 0 && cv.gone >= 0 && cv.toUnblock >= 0
    requires pc.Leaving? || pc.AtMutex? ==> cv.unlocked
    requires HasMutex(pc) == 1 ==> !cv.unlocked
    ensures var (cv', pc') := Act(cv, pc, action);
      !cv'.destroyed ==> Owned(cv', pc') == Owned(cv, pc) && Locked(cv', pc') == Locked(cv, pc)
  {
  }

  lemma GateKept(s: System, t: nat, action: Action, s': System)
    requires Inv(s) && Steps(s, t, action, s') && !s'.cv.destroyed
    ensures GateInv(s') && MutexInv(s')
  {
    SumsMove(s, t, action, s');
    SumTwo(s.pcs, HasMutex, t, t);
    ThreadOwns(s.cv, s.pcs[t], action);
  }

  function Counted(cv: Cv, pc: Pc): int {
    Registered(pc) - cv.blocked - cv.toUnblock
  }

  /** A step of one thread keeps count of the waiters, but for the gone ones it writes off. */
  lemma ThreadConserves(cv: Cv, pc: Pc, action: Action)
    requires Enabled(cv, pc, action) && LocalInv(cv, pc)
    ensures var (cv', pc') := Act(cv, pc, action);
      && (!pc.Flushing? && !pc.Resetting? ==>
            WrittenOff(pc') == WrittenOff(pc) && Counted(cv', pc') + cv'.gone == Counted(cv, pc) + cv.gone)
      && (pc.Flushing? ==> Counted(cv', pc') == Counted(cv, pc) + cv.gone && WrittenOff(pc') == 1)
      && (pc.Resetting? ==> Counted(cv', pc') == Counted(cv, pc) && WrittenOff(pc') == 0 && cv'.gone == 0)
  {
  }

  lemma ConservedKept(s: System, t: nat, action: Action, s': System)
    requires Inv(s) && Steps(s, t, action, s')
    ensures Conserved(s')
  {
    SumsMove(s, t, action, s');
    SumsCover(s, t);
    ThreadConserves(s.cv, s.pcs[t], action);
  }

  predicate Counting(cv: Cv) {
    && cv.blocked >= 0 && 0 <= cv.gone <= GONE_LIMIT && cv.toUnblock >= 0
    && (cv.toUnblock > 0 ==> cv.gone == 0)
  }

  /** A step of one thread takes the gone waiters to their bound only to write them off at once. */
  lemma ThreadCounts(cv: Cv, pc: Pc, action: Action)
    requires Enabled(cv, pc, action) && LocalInv(cv, pc) && Counting(cv)
    requires pc.Flushing? ==> cv.blocked >= cv.gone
    requires pc.Cleaning? ==> cv.gone < GONE_LIMIT
    ensures var (cv', pc') := Act(cv, pc, action);
      && Counting(cv')
      && (cv'.gone < GONE_LIMIT || AtLimit(pc') == 1 || (cv.gone == GONE_LIMIT && AtLimit(pc) == 0))
  {
  }

  lemma CountersKept(s: System, t: nat, action: Action, s': System)
    requires Inv(s) && Steps(s, t, action, s')
    ensures CountersInv(s')
  {
    SumsMove(s, t, action, s');
    SumsCover(s, t);
    ThreadCounts(s.cv, s.pcs[t], action);
  }

  lemma TokensKept(s: System, t: nat, action: Action, s': System)
    requires Inv(s) && Steps(s, t, action, s')
    ensures TokensInv(s')
  {
    SumsMove(s, t, action, s');
  }

  /** A step establishes what its own thread relies on next. */
  lemma ThreadRelies(cv: Cv, pc: Pc, action: Action)
    requires Enabled(cv, pc, action) && LocalInv(cv, pc) && cv.blocked >= 0 && cv.gone >= 0
    ensures LocalInv(Act(cv, pc, action).0, Act(cv, pc, action).1)
  {
  }

  /** And it leaves alone what a thread relies on that has the mutex. */
  lemma OtherRelies(cv: Cv, pc: Pc, action: Action, other: Pc)
    requires Enabled(cv, pc, action) && LocalInv(cv, other)
    requires HasMutex(other) == 1 ==> !cv.unlocked && HasMutex(pc) == 0
    ensures LocalInv(Act(cv, pc, action).0, other)
  {
  }

  lemma LocalKept(s: System, t: nat, action: Action, s': System, u: nat)
    requires Inv(s) && Steps(s, t, action, s') && u < |s.pcs|
    ensures LocalInv(s'.cv, s'.pcs[u])
  {
    SumTwo(s.pcs, HasMutex, t, u);
    if u == t {
      ThreadRelies(s.cv, s.pcs[t], action);
    } else {
      SumTwo(s.pcs, HasMutex, u, u);
      OtherRelies(s.cv, s.pcs[t], action, s.pcs[u]);
    }
  }

  lemma StepInv(s: System, t: nat, action: Action, s': System)
    requires Inv(s) && Steps(s, t, action, s') && !s'.cv.destroyed
    ensures Inv(s')
  {
    GateKept(s, t, action, s');
    ConservedKept(s, t, action, s');
    CountersKept(s, t, action, s');
    TokensKept(s, t, action, s');
    forall u | 0 <= u < |s'.pcs|
      ensures LocalInv(s'.cv, s'.pcs[u])
    {
      LocalKept(s, t, action, s', u);
    }
  }

  /** Until the condition variable is destroyed, the invariant holds in every state of every run. */
  ghost predicate Live(s: System) {
    s.cv.destroyed || Inv(s)
  }

  lemma RunInv(trace: seq<System>, i: nat)
    requires Run(trace, Next) && Inv(trace[0]) && i < |trace|
    ensures trace[i].cv.destroyed || Inv(trace[i])
  {
    forall s, s' | Live(s) && Next(s, s')
      ensures Live(s')
    {
      var t, action :| Steps(s, t, action, s');
      if !s'.cv.destroyed {
        StepInv(s, t, action, s');
      }
    }
    Invariance(trace, Next, Live, i);
  }

  // ---------- Conservation and ownership ----------

  /**
   * Outside the writing off of gone waiters, the registered waiters are those blocked plus those to
   * be unblocked minus those gone; no counter is negative; and the gate is a binary semaphore.
   */
  lemma WaitersConserved(s: System)
    requires Inv(s)
    ensures s.cv.toUnblock > 0 || (forall t | 0 <= t < |s.pcs| :: WrittenOff(s.pcs[t]) == 0) ==>
              Sum(s.pcs, Registered) == s.cv.blocked + s.cv.toUnblock - s.cv.gone
    ensures s.cv.blocked >= 0 && s.cv.toUnblock >= 0 && s.cv.gone >= 0
    ensures s.cv.gate <= 1
    ensures s.cv.blocked <= |s.pcs| + GONE_LIMIT  // no overflow of 32 bits with that few threads
  {
    SumZero(s.pcs, WrittenOff);
    SumBounded(s.pcs);
  }

  lemma {:induction false} SumBounded(pcs: seq<Pc>)
    ensures Sum(pcs, Registered) <= |pcs|
    decreases |pcs|
  {
    if pcs == [] {
    } else {
      SumBounded(pcs[..|pcs| - 1]);
    }
  }

  /** The thread's next step writes nWaitersBlocked. */
  predicate WritesBlocked(cv: Cv, pc: Pc) {
    || pc.Entering? || pc.Closed?
    || (pc.Signalling? && cv.toUnblock != 0 && cv.blocked != 0)
    || (pc.Flushing? && cv.gate > 0)
  }

  /** Although entering waiters do not take the mutex, no two threads write nWaitersBlocked at once. */
  lemma OneWriter(s: System, t: nat, u: nat)
    requires Inv(s) && t < |s.pcs| && u < |s.pcs| && t != u
    ensures !(WritesBlocked(s.cv, s.pcs[t]) && WritesBlocked(s.cv, s.pcs[u]))
  {
    SumTwo(s.pcs, HasGate, t, u);
    SumTwo(s.pcs, HasMutex, t, u);
  }

  /** The gate has one holder at most. */
  lemma OneGateHolder(s: System, t: nat, u: nat)
    requires Inv(s) && t < |s.pcs| && u < |s.pcs| && t != u
    ensures HasGate(s.pcs[t]) + HasGate(s.pcs[u]) <= 1
    ensures HasGate(s.pcs[t]) == 1 ==> s.cv.gate == 0 && s.cv.toUnblock == 0
  {
    SumTwo(s.pcs, HasGate, t, u);
  }

  // ---------- Signals ----------

  /** Registered waiters that no signal was spent on. */
  ghost function NotSignalled(s: System): int {
    Sum(s.pcs, Registered) - s.cv.toUnblock
  }

  /** Thread `t` has spent signals on `n` of the waiters, and is going to post so many tokens. */
  ghost predicate Spent(s: System, t: nat, n: int, s': System)
    requires t < |s'.pcs|
  {
    && s'.cv.toUnblock == s.cv.toUnblock + n && s'.pcs[t].Issuing? && s'.pcs[t].tokens == n
    && NotSignalled(s') == NotSignalled(s) - n
    && s'.cv.blocked == NotSignalled(s') && s'.cv.gone == 0
    && s'.cv.queue == s.cv.queue && s'.cv.gate == s.cv.gate
  }

  /**
   * A signal is spent on one waiter and a broadcast on all, of those that no signal was spent on;
   * without any of those nothing happens; and the gate is closed first if it is open.
   */
  lemma SignalExact(s: System, t: nat, action: Action, s': System)
    requires Inv(s) && Steps(s, t, action, s')
    ensures s.pcs[t].Signalling? ==> var all := s.pcs[t].all;
      if NotSignalled(s) == 0 then s'.cv == s.cv && s'.pcs[t] == Unlocking(0)
      else if s.cv.toUnblock == 0 then s'.cv == s.cv && s'.pcs[t] == Closing(all)
      else Spent(s, t, if all then NotSignalled(s) else 1, s')
    ensures s.pcs[t].Closed? ==> Spent(s, t, if s.pcs[t].all then NotSignalled(s) else 1, s')
  {
    SumsMove(s, t, action, s');
    SumsCover(s, t);
  }

  // ---------- Progress ----------

  /** Neither outside nor waiting for a signal. */
  predicate Busy(pc: Pc) {
    !pc.Outside? && !pc.Waiting?
  }

  /** A thread inside that can go on without giving up. */
  predicate CanGo(s: System, t: nat)
    requires t < |s.pcs|
  {
    !s.pcs[t].Outside? && Enabled(s.cv, s.pcs[t], Go)
  }

  /**
   * Gate and mutex never deadlock: if any thread is busy, some thread inside can go on.  A caller may
   * have to wait for a generation at the gate, but then a member of the generation can go on.
   */
  lemma NeverStuck(s: System)
    requires Inv(s) && !s.cv.destroyed
    requires exists t | 0 <= t < |s.pcs| :: Busy(s.pcs[t])
    ensures exists t | 0 <= t < |s.pcs| :: CanGo(s, t)
  {
    if forall t | 0 <= t < |s.pcs| :: !CanGo(s, t) {
      StuckHoldsNothing(s);
      if s.cv.toUnblock > 0 {
        StuckGeneration(s);
      } else {
        var t :| 0 <= t < |s.pcs| && Busy(s.pcs[t]);
        assert CanGo(s, t);
      }
    }
  }

  lemma StuckHoldsNothing(s: System)
    requires Inv(s) && !s.cv.destroyed && forall t | 0 <= t < |s.pcs| :: !CanGo(s, t)
    ensures s.cv.gate == if s.cv.toUnblock > 0 then 0 else 1
    ensures s.cv.unlocked
    ensures forall t | 0 <= t < |s.pcs| :: s.pcs[t].Outside? || s.pcs[t].Waiting? || s.pcs[t].AtGate?
  {
    forall t | 0 <= t < |s.pcs|
      ensures HasGate(s.pcs[t]) == 0
      ensures HasMutex(s.pcs[t]) == 1 ==> s.pcs[t].Flushing? || s.pcs[t].Closing?
    {
      assert !CanGo(s, t);
    }
    SumZero(s.pcs, HasGate);
    forall t | 0 <= t < |s.pcs|
      ensures HasMutex(s.pcs[t]) == 0
    {
      assert !CanGo(s, t) && LocalInv(s.cv, s.pcs[t]);
    }
    SumZero(s.pcs, HasMutex);
    forall t | 0 <= t < |s.pcs|
      ensures s.pcs[t].Outside? || s.pcs[t].Waiting? || s.pcs[t].AtGate?
    {
      assert !CanGo(s, t) && HasGate(s.pcs[t]) == 0 && HasMutex(s.pcs[t]) == 0;
    }
  }

  /** A closed generation has a token in the queue and a member to take it, or a busy one. */
  lemma StuckGeneration(s: System)
    requires Inv(s) && !s.cv.destroyed && s.cv.toUnblock > 0
    requires forall t | 0 <= t < |s.pcs| :: s.pcs[t].Outside? || s.pcs[t].Waiting? || s.pcs[t].AtGate?
    ensures exists t | 0 <= t < |s.pcs| :: CanGo(s, t)
  {
    SumZero(s.pcs, Bound);
    SumZero(s.pcs, Passed);
    SumZero(s.pcs, WrittenOff);
    SumZero(s.pcs, Registered);
    var t :| 0 <= t < |s.pcs| && Registered(s.pcs[t]) != 0;
    assert CanGo(s, t);
  }

  // ---------- A broadcast and its generation ----------

  /** The generation `g` is being unblocked: the gate is closed and nobody else is registered. */
  ghost predicate Generation(s: System, g: set<nat>) {
    && Inv(s) && !s.cv.destroyed
    && s.cv.toUnblock > 0 && s.cv.blocked == 0
    && forall t | 0 <= t < |s.pcs| && Registered(s.pcs[t]) == 1 :: t in g
  }

  /** Everybody has retracted the waiter status. */
  ghost predicate Retracted(s: System) {
    forall t | 0 <= t < |s.pcs| :: Registered(s.pcs[t]) == 0
  }

  function RegisteredThreads(s: System): set<nat> {
    set t: nat | t < |s.pcs| && Registered(s.pcs[t]) == 1
  }

  /** The section in which a broadcast moves the waiters opens a generation of all registered ones. */
  lemma BroadcastOpensGeneration(s: System, t: nat, action: Action, s': System)
    requires Inv(s) && Steps(s, t, action, s')
    requires s.pcs[t] == Signalling(true) || s.pcs[t] == Closed(true)
    requires s'.cv.toUnblock > 0
    ensures Generation(s', RegisteredThreads(s'))
  {
    StepInv(s, t, action, s');
  }

  /**
   * While a generation is open nobody enters, its members are as many as are to be unblocked, and
   * the tokens posted or bound to be posted suffice for all of them that are still blocked.
   */
  lemma GenerationServed(s: System, g: set<nat>)
    requires Generation(s, g)
    ensures s.cv.gate == 0
    ensures forall t | 0 <= t < |s.pcs| :: HasGate(s.pcs[t]) == 0 && !s.pcs[t].Entering?
    ensures Sum(s.pcs, Registered) == s.cv.toUnblock
    ensures s.cv.queue + Sum(s.pcs, Bound) >= Sum(s.pcs, Blocked)
  {
    SumZero(s.pcs, HasGate);
    SumAdds(s.pcs, Blocked, Passed, BlockedOrPassed);
    SumOrdered(s.pcs, Registered, RegisteredOrGate);
    SumAdds(s.pcs, BlockedOrPassed, EnteredOnly, Registered);
    SumZero(s.pcs, EnteredOnly);
  }

  function BlockedOrPassed(pc: Pc): nat {
    Blocked(pc) + Passed(pc)
  }

  function EnteredOnly(pc: Pc): nat {
    if pc.Entered? then 1 else 0
  }

  function RegisteredOrGate(pc: Pc): nat {
    Registered(pc) + HasGate(pc)
  }

  /** A step keeps the generation open, or is the last retraction of all. */
  lemma GenerationStep(s: System, g: set<nat>, t: nat, action: Action, s': System)
    requires Generation(s, g) && Steps(s, t, action, s')
    ensures Generation(s', g) || Retracted(s')
  {
    GenerationServed(s, g);
    SumsMove(s, t, action, s');
    assert !s'.cv.destroyed;
    StepInv(s, t, action, s');
    if s'.cv.toUnblock == 0 {
      SumZero(s'.pcs, Registered);
    }
  }

  /**
   * Main result on broadcasts: from the section in which a broadcast moved the waiters on, the
   * generation stays open, with what that means, until every registered thread has retracted its
   * waiter status; in any interleaving with any other signals, broadcasts, time-outs and waits.
   */
  lemma {:induction false} GenerationDrains(trace: seq<System>, g: set<nat>, i: nat)
    requires Run(trace, Next) && Generation(trace[0], g) && i < |trace|
    ensures (forall j | 0 <= j <= i :: Generation(trace[j], g))
         || (exists j | 0 <= j <= i :: Retracted(trace[j]))
    decreases i
  {
    if i > 0 {
      GenerationDrains(trace, g, i - 1);
      if forall j | 0 <= j <= i - 1 :: Generation(trace[j], g) {
        assert Next(trace[i - 1], trace[i - 1 + 1]);
        var t, action :| Steps(trace[i - 1], t, action, trace[i]);
        GenerationStep(trace[i - 1], g, t, action, trace[i]);
      } else {
        var j :| 0 <= j <= i - 1 && Retracted(trace[j]);
        assert 0 <= j <= i && Retracted(trace[j]);
      }
    }
  }

  // ---------- Destruction ----------

  /**
   * The test of a destroyer is exact: it finds the variable busy if and only if a waiter is registered,
   * and then opens the gate and gives the mutex back.
   */
  lemma BusyTestExact(s: System, t: nat)
    requires Inv(s) && t < |s.pcs| && s.pcs[t].Testing? && !s.cv.destroyed
    ensures var (cv, pc) := Act(s.cv, s.pcs[t], Go);
      if exists u | 0 <= u < |s.pcs| :: Registered(s.pcs[u]) == 1 then
        cv == s.cv.(gate := 1) && pc == Unlocking(0)
      else cv == s.cv.(destroyed := true) && pc == Outside
  {
    SumsCover(s, t);
    SumZero(s.pcs, Registered);
  }

  /** Has called, and stands before its first operation on the gate or the mutex. */
  predicate Calling(pc: Pc) {
    pc.AtGate? || pc.AtMutex?
  }

  /**
   * When a condition variable is destroyed, no other thread is anywhere in it, but for callers before
   * their first operation and signallers that have yet to post tokens; module Destruction says
   * exactly when there are none.
   */
  lemma DestroyedUnused(s: System, t: nat, action: Action, s': System, u: nat)
    requires Inv(s) && Steps(s, t, action, s') && s'.cv.destroyed
    requires u < |s.pcs| && u != t
    ensures s.pcs[u].Outside? || Calling(s.pcs[u]) || s.pcs[u].Posting?
  {
    SumTwo(s.pcs, HasGate, t, u);
    SumTwo(s.pcs, HasMutex, t, u);
    BusyTestExact(s, t);
  }
}
