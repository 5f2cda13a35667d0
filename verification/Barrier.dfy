/**
 * The barrier of pthreads-win32 for any number n of threads that call it again and again, in any
 * interleaving of its atomic steps: the read of the step, the interlocked decrement, the reset of
 * the height, the posts, the semaphore wait and the compare-exchange.
 */
module Barrier {
  import opened Runs
  import opened Threads

  /**
   * The shared fields.  A token of a semaphore is tagged with the call in which it was posted; the
   * tags only serve to say where tokens end up: a wait takes any token.
   */
  datatype Barrier = Barrier(
    initial: nat,       // nInitialBarrierHeight
    height: int,        // nCurrentBarrierHeight
    step: int,          // iStep
    stone0: seq<nat>,   // semBarrierBreeched[0]
    stone1: seq<nat>)   // semBarrierBreeched[1]
  {
    function Stone(step: int): seq<nat> {
      if step == 0 then stone0 else stone1
    }

    function WithStone(step: int, tokens: seq<nat>): Barrier {
      if step == 0 then this.(stone0 := tokens) else this.(stone1 := tokens)
    }
  }

  /** A thread in its call number `k`, counted from zero; `step` is what it read from iStep. */
  datatype Pc =
    | Outside(k: nat)
    | Started(k: nat, step: int)
    | Last(k: nat, step: int)     // has brought the height to zero
    | Posting(k: nat, step: int)  // has reset the height
    | Waiting(k: nat, step: int)
    | Crossing(k: nat, step: int)

  /**
   * `results[t]` lists what the calls of thread t returned, true for PTHREAD_BARRIER_SERIAL_THREAD.
   * `resets` counts the resets of the height and `serial` lists the threads whose compare-exchange
   * succeeded; no step depends on these histories.
   */
  datatype System = System(b: Barrier, pcs: seq<Pc>, results: seq<seq<bool>>, resets: nat, serial: seq<nat>)

  /** A new barrier for `count` threads, and so many threads. */
  function Start(count: nat): System {
    System(Barrier(count, count, 0, [], []), seq(count, _ => Outside(0)), seq(count, _ => []), 0, [])
  }

  /** Whether thread `t` can go on; a waiting thread takes the token at `token`. */
  predicate Enabled(s: System, t: nat, token: nat) {
    && t < |s.pcs| == |s.results|
    && (s.pcs[t].Waiting? ==> token < |s.b.Stone(s.pcs[t].step)|)
  }

  /** One step of pthread_barrier_wait by thread `t`. */
  function Act(s: System, t: nat, token: nat): System
    requires Enabled(s, t, token)
  {
    var b := s.b;
    match s.pcs[t]
    case Outside(k) =>
      s.(pcs := s.pcs[t := Started(k, b.step)])
    case Started(k, step) =>
      s.(b := b.(height := b.height - 1),
         pcs := s.pcs[t := if b.height - 1 == 0 then Last(k, step) else Waiting(k, step)])
    case Last(k, step) =>
      s.(b := b.(height := b.initial), resets := s.resets + 1, pcs := s.pcs[t := Posting(k, step)])
    case Posting(k, step) =>
      var tokens := if b.initial > 1 then seq(b.initial - 1, _ => k) else [];
      s.(b := b.WithStone(step, b.Stone(step) + tokens), pcs := s.pcs[t := Crossing(k, step)])
    case Waiting(k, step) =>
      var tokens := b.Stone(step)[..token] + b.Stone(step)[token + 1..];
      s.(b := b.WithStone(step, tokens), pcs := s.pcs[t := Crossing(k, step)])
    case Crossing(k, step) =>
      var first := b.step == step;
      s.(b := if first then b.(step := 1 - step) else b,
         pcs := s.pcs[t := Outside(k + 1)],
         results := s.results[t := s.results[t] + [first]],
         serial := if first then s.serial + [t] else s.serial)
  }

  predicate Steps(s: System, t: nat, token: nat, s': System) {
    Enabled(s, t, token) && s' == Act(s, t, token)
  }

  ghost predicate Next(s: System, s': System) {
    exists t, token :: Steps(s, t, token, s')
  }

  // ---------- The invariant ----------

  function WaitingIn(k: int): Pc -> nat {
    (pc: Pc) => if pc.Waiting? && pc.k == k then 1 else 0
  }

  function IsLast(pc: Pc): nat {
    if pc.Last? then 1 else 0
  }

  function IsPosting(pc: Pc): nat {
    if pc.Posting? then 1 else 0
  }

  /** Has arrived in the open round `k`. */
  function ArrivedIn(k: int): Pc -> nat {
    (pc: Pc) => if (pc.Waiting? || pc.Last?) && pc.k == k then 1 else 0
  }

  /**
   * With `r` rounds closed and `c` of them crossed by a first thread: where a thread may be.  Rounds
   * overlap by one at most, and the step that a thread has read is the parity of its own round.
   */
  predicate LocalInv(r: nat, c: nat, pc: Pc) {
    && r - 1 <= c <= r
    && (!pc.Outside? ==> pc.step == pc.k % 2)
    && match pc
       case Outside(k) => k == r && c == r
       case Started(k, _) => k == r && c == r
       case Last(k, _) => k == r && c == r
       case Waiting(k, _) => (k == r && c == r) || k + 1 == r
       case Posting(k, _) => k + 1 == r
       case Crossing(k, _) => k + 1 == r
  }

  ghost predicate ThreadsInv(s: System) {
    && |s.pcs| == |s.results| == s.b.initial
    && s.b.step == |s.serial| % 2
    && forall t | 0 <= t < |s.pcs| :: LocalInv(s.resets, |s.serial|, s.pcs[t])
  }

  /** The height counts who has not arrived in the open round. */
  ghost predicate HeightInv(s: System) {
    && s.b.height + Sum(s.pcs, ArrivedIn(s.resets)) == s.b.initial
    && s.b.height >= 0
    && Sum(s.pcs, IsLast) == if s.b.height == 0 && s.b.initial > 0 then 1 else 0
  }

  /** The stones of the round that is open and of the one that was closed last. */
  function Ahead(s: System): seq<nat> {
    s.b.Stone(s.resets % 2)
  }

  function Behind(s: System): seq<nat> {
    s.b.Stone((s.resets + 1) % 2)
  }

  predicate PostedIn(tokens: seq<nat>, k: int) {
    forall i | 0 <= i < |tokens| :: tokens[i] == k
  }

  /** The tokens of the closed round are for those who still wait in it; the other stone is empty. */
  ghost predicate TokensInv(s: System) {
    && Ahead(s) == []
    && PostedIn(Behind(s), s.resets - 1)
    && Sum(s.pcs, IsPosting) <= 1
    && Sum(s.pcs, WaitingIn(s.resets - 1))
         == |Behind(s)| + if Sum(s.pcs, IsPosting) == 1 then s.b.initial - 1 else 0
  }

  /** A thread's results are those of its calls so far, and who crossed first is remembered. */
  ghost predicate ResultsInv(s: System) {
    && |s.pcs| == |s.results|
    && (forall t | 0 <= t < |s.pcs| :: |s.results[t]| == s.pcs[t].k <= |s.serial|)
    && (forall t, k | 0 <= t < |s.pcs| && 0 <= k < |s.results[t]| :: s.results[t][k] <==> s.serial[k] == t)
    && (forall k | 0 <= k < |s.serial| :: s.serial[k] < |s.pcs| && k < |s.results[s.serial[k]]|)
  }

  ghost predicate Inv(s: System) {
    ThreadsInv(s) && HeightInv(s) && TokensInv(s) && ResultsInv(s)
  }

  lemma StartInv(count: nat)
    ensures Inv(Start(count))
  {
    var s := Start(count);
    SumZero(s.pcs, IsLast);
    SumZero(s.pcs, IsPosting);
    SumZero(s.pcs, ArrivedIn(0));
    SumZero(s.pcs, WaitingIn(-1));
  }

  // ---------- Every step keeps the invariant ----------

  /** When a thread is about to reset the height, everybody has arrived. */
  lemma AllArrived(s: System, t: nat, u: nat)
    requires Inv(s) && t < |s.pcs| && u < |s.pcs| && s.pcs[t].Last?
    ensures s.b.height == 0 && s.pcs[u].k == s.resets
    ensures u != t ==> s.pcs[u].Waiting?
  {
    SumTwo(s.pcs, IsLast, t, u);
    SumRoom(s.pcs, ArrivedIn(s.resets), u);
  }

  lemma ThreadsKept(s: System, t: nat, token: nat, s': System)
    requires Inv(s) && Steps(s, t, token, s')
    ensures ThreadsInv(s')
  {
    forall u | 0 <= u < |s.pcs|
      ensures LocalInv(s'.resets, |s'.serial|, s'.pcs[u])
    {
      if s.pcs[t].Last? {
        AllArrived(s, t, u);
      }
    }
  }

  lemma HeightKept(s: System, t: nat, token: nat, s': System)
    requires Inv(s) && Steps(s, t, token, s')
    ensures HeightInv(s')
  {
    SumUpdate(s.pcs, IsLast, t, s'.pcs[t]);
    SumUpdate(s.pcs, ArrivedIn(s.resets), t, s'.pcs[t]);
    if s.pcs[t].Last? {
      AllArrived(s, t, t);
      SumTwo(s.pcs, IsLast, t, t);
      ThreadsKept(s, t, token, s');
      forall u | 0 <= u < |s.pcs|
        ensures ArrivedIn(s'.resets)(s'.pcs[u]) == 0
      {
        AllArrived(s, t, u);
      }
      SumZero(s'.pcs, ArrivedIn(s'.resets));
    } else if s.pcs[t].Started? {
      SumRoom(s.pcs, ArrivedIn(s.resets), t);
    }
  }

  lemma TokensKept(s: System, t: nat, token: nat, s': System)
    requires Inv(s) && Steps(s, t, token, s')
    ensures TokensInv(s')
  {
    if s.pcs[t].Last? {
      ResetTokens(s, t, token, s');
    } else {
      SumUpdate(s.pcs, IsPosting, t, s'.pcs[t]);
      SumUpdate(s.pcs, WaitingIn(s.resets - 1), t, s'.pcs[t]);
      SumTwo(s.pcs, IsPosting, t, t);
      StonesMove(s, t, token, s');
    }
  }

  /** Unless the height is reset, only the stone behind changes, by what is posted or taken. */
  lemma StonesMove(s: System, t: nat, token: nat, s': System)
    requires TokensInv(s) && Steps(s, t, token, s') && LocalInv(s.resets, |s.serial|, s.pcs[t])
    requires |s.pcs| == s.b.initial && !s.pcs[t].Last?
    ensures Ahead(s') == Ahead(s) && PostedIn(Behind(s'), s.resets - 1)
    ensures |Behind(s')| == |Behind(s)|
      + if s.pcs[t].Posting? then s.b.initial - 1 else if s.pcs[t].Waiting? then -1 else 0
  {
    if s.pcs[t].Posting? {
      BehindMoves(s, t, token, s');
      PostedAppend(Behind(s), s.b.initial - 1, s.pcs[t].k);
    } else if s.pcs[t].Waiting? {
      BehindMoves(s, t, token, s');
      PostedRemove(Behind(s), token, s.pcs[t].k);
    } else {
      assert Ahead(s') == Ahead(s) && Behind(s') == Behind(s);
    }
  }

  lemma PostedAppend(tokens: seq<nat>, n: nat, k: nat)
    requires PostedIn(tokens, k)
    ensures PostedIn(tokens + seq(n, _ => k), k) && |tokens + seq(n, _ => k)| == |tokens| + n
  {
  }

  lemma PostedRemove(tokens: seq<nat>, i: nat, k: int)
    requires PostedIn(tokens, k) && i < |tokens|
    ensures PostedIn(tokens[..i] + tokens[i + 1..], k) && |tokens[..i] + tokens[i + 1..]| == |tokens| - 1
  {
  }

  lemma BehindMoves(s: System, t: nat, token: nat, s': System)
    requires TokensInv(s) && Steps(s, t, token, s') && LocalInv(s.resets, |s.serial|, s.pcs[t])
    requires |s.pcs| == s.b.initial && (s.pcs[t].Posting? || s.pcs[t].Waiting?)
    ensures s.pcs[t].k + 1 == s.resets
    ensures s.pcs[t].Waiting? ==> token < |Behind(s)|
    ensures Ahead(s') == Ahead(s)
    ensures Behind(s') == if s.pcs[t].Waiting? then Behind(s)[..token] + Behind(s)[token + 1..]
                          else Behind(s) + seq(s.b.initial - 1, _ => s.pcs[t].k)
  {
    assert s.pcs[t].Waiting? ==> s.b.Stone(s.pcs[t].step) != [];
  }

  /** Before the reset both stones are empty and all others wait in the round that is closed. */
  lemma ResetTokens(s: System, t: nat, token: nat, s': System)
    requires Inv(s) && Steps(s, t, token, s') && s.pcs[t].Last?
    ensures TokensInv(s')
  {
    forall u | 0 <= u < |s.pcs|
      ensures IsPosting(s.pcs[u]) == 0 && WaitingIn(s.resets - 1)(s.pcs[u]) == 0
      ensures ArrivedIn(s.resets)(s.pcs[u]) == WaitingIn(s.resets)(s.pcs[u]) + IsLast(s.pcs[u])
    {
      AllArrived(s, t, u);
    }
    SumZero(s.pcs, IsPosting);
    SumZero(s.pcs, WaitingIn(s.resets - 1));
    SumUpdate(s.pcs, IsPosting, t, s'.pcs[t]);
    SumAdds(s.pcs, WaitingIn(s.resets), IsLast, ArrivedIn(s.resets));
    SumUpdate(s.pcs, WaitingIn(s.resets), t, s'.pcs[t]);
    AllArrived(s, t, t);
  }

  lemma ResultsKept(s: System, t: nat, token: nat, s': System)
    requires Inv(s) && Steps(s, t, token, s')
    ensures ResultsInv(s')
  {
    if s.pcs[t].Crossing? {
      var k := s.pcs[t].k;
      assert k == s.resets - 1;
      if |s.serial| == s.resets {
        assert k < |s.results[s.serial[k]]|;
      }
    }
  }

  lemma StepInv(s: System, t: nat, token: nat, s': System)
    requires Inv(s) && Steps(s, t, token, s')
    ensures Inv(s')
  {
    ThreadsKept(s, t, token, s');
    HeightKept(s, t, token, s');
    TokensKept(s, t, token, s');
    ResultsKept(s, t, token, s');
  }

  lemma RunInv(trace: seq<System>, count: nat, i: nat)
    requires Run(trace, Next) && trace[0] == Start(count) && i < |trace|
    ensures Inv(trace[i])
  {
    StartInv(count);
    forall s, s' | Inv(s) && Next(s, s')
      ensures Inv(s')
    {
      var t, token :| Steps(s, t, token, s');
      StepInv(s, t, token, s');
    }
    Invariance(trace, Next, Inv, i);
  }

  // ---------- What the barrier is for ----------

  /** Thread `t` is in or past its call number `k`. */
  predicate Entered(s: System, t: nat, k: nat)
    requires t < |s.pcs|
  {
    s.pcs[t].k > k || (s.pcs[t].k == k && !s.pcs[t].Outside?)
  }

  /** Thread `t` has returned from its call number `k`. */
  predicate Returned(s: System, t: nat, k: nat)
    requires t < |s.results|
  {
    k < |s.results[t]|
  }

  /** No thread returns from a call before every thread has entered its call of the same number. */
  lemma NobodyReturnsEarly(s: System, t: nat, u: nat, k: nat)
    requires Inv(s) && t < |s.pcs| && u < |s.pcs| && Returned(s, t, k)
    ensures Entered(s, u, k)
  {
    assert LocalInv(s.resets, |s.serial|, s.pcs[t]);
    assert LocalInv(s.resets, |s.serial|, s.pcs[u]);
  }

  /** The same for every state of every run of a new barrier. */
  lemma RunHoldsBack(trace: seq<System>, count: nat, i: nat, t: nat, u: nat, k: nat)
    requires Run(trace, Next) && trace[0] == Start(count) && i < |trace|
    ensures |trace[i].pcs| == |trace[i].results| == count
    ensures t < count && u < count && Returned(trace[i], t, k) ==> Entered(trace[i], u, k)
  {
    RunInv(trace, count, i);
    RunSize(trace, count, i);
    if t < count && u < count && Returned(trace[i], t, k) {
      NobodyReturnsEarly(trace[i], t, u, k);
    }
  }

  lemma {:induction false} RunSize(trace: seq<System>, count: nat, i: nat)
    requires Run(trace, Next) && trace[0] == Start(count) && i < |trace|
    ensures |trace[i].pcs| == count
  {
    if i > 0 {
      RunSize(trace, count, i - 1);
      assert Next(trace[i - 1], trace[i - 1 + 1]);
    }
  }

  predicate IsSerial(s: System, t: nat, k: nat) {
    t < |s.results| && k < |s.results[t]| && s.results[t][k]
  }

  /** When all have returned from a call, exactly one of them was told that it is the serial thread. */
  lemma OneSerialThread(s: System, k: nat)
    requires Inv(s) && |s.pcs| > 0
    requires forall t | 0 <= t < |s.results| :: Returned(s, t, k)
    ensures exists t: nat :: IsSerial(s, t, k) && forall u: nat | IsSerial(s, u, k) :: u == t
  {
    assert Returned(s, 0, k);
    var t := s.serial[k];
    assert Returned(s, t, k);
    assert IsSerial(s, t, k);
  }

  /** Even before all have returned, no two are told so, and the first one to return is. */
  lemma SerialThreadIsFirst(s: System, t: nat, token: nat, s': System, k: nat)
    requires Inv(s) && Steps(s, t, token, s') && Returned(s', t, k) && !Returned(s, t, k)
    ensures s'.results[t][k] <==> forall u | 0 <= u < |s.results| :: !Returned(s, u, k)
  {
    if |s.serial| == s.resets {
      assert Returned(s, s.serial[k], k);
    } else {
      forall u | 0 <= u < |s.results|
        ensures !Returned(s, u, k)
      {
        assert |s.results[u]| == s.pcs[u].k <= |s.serial|;
      }
    }
  }

  /** A thread reads the step of its own call, and no token of another call ever wakes it. */
  lemma OwnRound(s: System, t: nat, token: nat, s': System)
    requires Inv(s) && Steps(s, t, token, s')
    ensures s.pcs[t].Outside? ==> s'.pcs[t].step == s.pcs[t].k % 2
    ensures s.pcs[t].Waiting? ==> s.b.Stone(s.pcs[t].step)[token] == s.pcs[t].k
    ensures s'.b.height >= 0
  {
    StepInv(s, t, token, s');
    if s.pcs[t].Waiting? {
      assert s.b.Stone(s.pcs[t].step) != [];
    }
  }

  /** The threads are never all stuck. */
  lemma NeverStuck(s: System)
    requires Inv(s) && |s.pcs| > 0
    ensures exists t :: Enabled(s, t, 0)
  {
    if forall t | 0 <= t < |s.pcs| :: !Enabled(s, t, 0) {
      forall t | 0 <= t < |s.pcs|
        ensures s.pcs[t].Waiting? && IsPosting(s.pcs[t]) == 0 && IsLast(s.pcs[t]) == 0
        ensures s.pcs[t].step != (s.resets + 1) % 2 || Behind(s) == []
      {
        assert !Enabled(s, t, 0);
      }
      StuckImpossible(s);
    }
  }

  lemma StuckImpossible(s: System)
    requires Inv(s) && |s.pcs| > 0
    requires forall t | 0 <= t < |s.pcs| :: s.pcs[t].Waiting?
    ensures Behind(s) != []
    ensures exists t | 0 <= t < |s.pcs| :: s.pcs[t].k + 1 == s.resets
  {
    SumZero(s.pcs, IsPosting);
    SumZero(s.pcs, IsLast);
    SumZero(s.pcs, WaitingIn(s.resets - 1));
    if forall t | 0 <= t < |s.pcs| :: s.pcs[t].k == s.resets {
      ComplementFull(s.pcs, ArrivedIn(s.resets));
    }
  }

  /** If everybody contributes one, the sum is the number of threads. */
  lemma {:induction false} ComplementFull(pcs: seq<Pc>, weight: Pc -> nat)
    requires forall t | 0 <= t < |pcs| :: weight(pcs[t]) == 1
    ensures Sum(pcs, weight) == |pcs|
    decreases |pcs|
  {
    if pcs == [] {
    } else {
      var n := |pcs| - 1;
      assert forall t | 0 <= t < n :: pcs[..n][t] == pcs[t];
      ComplementFull(pcs[..n], weight);
    }
  }

  // ---------- The barrier as an object that is updated in place ----------

  /** What a thread does up to the wait, unless another thread steps in. */
  function AfterArrival(s: System, t: nat): System
    requires Enabled(s, t, 0) && s.pcs[t].Outside?
  {
    var arrived := Act(Act(s, t, 0), t, 0);
    if arrived.pcs[t].Last? then Act(Act(arrived, t, 0), t, 0) else arrived
  }

  lemma ArrivalRuns(s: System, t: nat)
    requires Enabled(s, t, 0) && s.pcs[t].Outside?
    ensures Reaches(s, AfterArrival(s, t), Next)
  {
    ReachesSelf(s, Next);
    Onward(s, s, t);
    Onward(s, Act(s, t, 0), t);
    var arrived := Act(Act(s, t, 0), t, 0);
    if arrived.pcs[t].Last? {
      Onward(s, arrived, t);
      Onward(s, Act(arrived, t, 0), t);
    }
  }

  lemma Onward(s0: System, s: System, t: nat)
    requires Enabled(s, t, 0) && Reaches(s0, s, Next)
    ensures Reaches(s0, Act(s, t, 0), Next)
  {
    assert Steps(s, t, 0, Act(s, t, 0));
    ReachesNext(s0, s, Act(s, t, 0), Next);
  }

  datatype Created = Ready(barrier: PthreadBarrier) | InvalidArgument

  class PthreadBarrier {
    var nCurrentBarrierHeight: int
    var nInitialBarrierHeight: nat
    var iStep: int
    const semBarrierBreeched: array<nat>

    ghost predicate Represents(b: Barrier)
      reads this, semBarrierBreeched
    {
      && semBarrierBreeched.Length == 2
      && nInitialBarrierHeight == b.initial > 0
      && nCurrentBarrierHeight == b.height
      && iStep == b.step && 0 <= b.step <= 1
      && semBarrierBreeched[0] == |b.stone0| && semBarrierBreeched[1] == |b.stone1|
    }

    constructor (count: nat)
      requires count > 0
      ensures Represents(Start(count).b) && fresh(semBarrierBreeched)
    {
      nCurrentBarrierHeight, nInitialBarrierHeight, iStep := count, count, 0;
      semBarrierBreeched := new nat[2](_ => 0);
    }

    /** pthread_barrier_init: refuses a barrier for no thread. */
    static method Init(count: nat) returns (created: Created)
      ensures created.InvalidArgument? <==> count == 0
      ensures created.Ready? ==> fresh(created.barrier) && created.barrier.Represents(Start(count).b)
    {
      if count == 0 {
        return InvalidArgument;
      }
      var b := new PthreadBarrier(count);
      return Ready(b);
    }

    /** From the entry up to the semaphore wait, which the last thread to arrive does not do. */
    method Arrive(ghost s: System, ghost t: nat) returns (step: int, last: bool)
      requires Represents(s.b) && Enabled(s, t, 0) && s.pcs[t].Outside?
      modifies this, semBarrierBreeched
      ensures Represents(AfterArrival(s, t).b)
      ensures AfterArrival(s, t).pcs[t] == if last then Crossing(s.pcs[t].k, step) else Waiting(s.pcs[t].k, step)
    {
      step := iStep;
      nCurrentBarrierHeight := nCurrentBarrierHeight - 1;
      last := nCurrentBarrierHeight == 0;
      if last {
        nCurrentBarrierHeight := nInitialBarrierHeight;
        if nInitialBarrierHeight > 1 {
          semBarrierBreeched[step] := semBarrierBreeched[step] + nInitialBarrierHeight - 1;
        }
      }
    }

    /** The semaphore wait, once there is a token. */
    method Take(step: int, ghost s: System, ghost t: nat, ghost token: nat)
      requires Represents(s.b) && Enabled(s, t, token)
      requires s.pcs[t].Waiting? && s.pcs[t].step == step && 0 <= step <= 1
      modifies semBarrierBreeched
      ensures Represents(Act(s, t, token).b)
    {
      semBarrierBreeched[step] := semBarrierBreeched[step] - 1;
    }

    /** The compare-exchange: the first thread across sets up the other stone. */
    method Cross(step: int, ghost s: System, ghost t: nat) returns (serial: bool)
      requires Represents(s.b) && Enabled(s, t, 0)
      requires s.pcs[t].Crossing? && s.pcs[t].step == step && 0 <= step <= 1
      modifies this
      ensures Represents(Act(s, t, 0).b)
      ensures Act(s, t, 0).results[t] == s.results[t] + [serial]
    {
      serial := iStep == step;
      if serial {
        iStep := 1 - step;
      }
    }
  }
}
