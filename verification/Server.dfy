/**
 * The sending server of a transfer: the walk through the file, the answers to requests, the control of
 * the delay, and the watch over the client's heartbeat.
 */
module Server {
  import opened Tsunami
  import opened Pace

  /** What one look at the control connection yields. */
  datatype Poll = Nothing | Arrived(decoded: Decoded)

  const STOP_POLL := Arrived(Known(Stop))

  /** So many passes in a row without a request make the server look at the clock. */
  const IDLE_LIMIT: nat := 2048

  datatype Server = Server(blockCount: nat, block: nat, stopped: bool) {

    /** The transfer loop starts before the first block. */
    static function Start(blockCount: nat): Server {
      Server(blockCount, 0, false)
    }

    ghost predicate Inv() {
      1 <= blockCount && blockCount + 1 < TWO_TO_THE_32 && block <= blockCount
    }

    /** Advances to the next block and sends it; the last block is sent over and over. */
    function SendNext(): (Server, Datagram) {
      var next := Min(Add32(block, 1), blockCount);
      (this.(block := next), Datagram(next, if next == blockCount then Terminate else Original))
    }

    /** Handles a request. A restart at block r makes r + 1 the next block to be sent. */
    function Accept(request: Request): (Server, seq<Datagram>) {
      match request
      case Stop => (this.(stopped := true), [])
      case ErrorRate(_) => (this, [])
      case Restart(r) => (if r == 0 || r > blockCount then this else this.(block := r), [])
      case Retransmit(b) => (this, [Datagram(b, Retransmission)])
    }

    /** What one pass of the transfer loop sends; a request of an unknown type is refused. */
    function Serve(poll: Poll): (Server, seq<Datagram>) {
      match poll
      case Nothing => var (server, d) := SendNext(); (server, [d])
      case Arrived(Known(request)) => Accept(request)
      case Arrived(Unknown(_)) => (this, [])
    }

    /** The server goes on with a poll after it has sent `sent`, unless it has stopped. */
    function GoOn(sent: seq<Datagram>, poll: Poll): (Server, seq<Datagram>) {
      if stopped || block > blockCount then (this, sent)
      else (Serve(poll).0, sent + Serve(poll).1)
    }

    /** Poll after poll until a stop request, or while the block number is in range. */
    function ServeAll(polls: seq<Poll>): (Server, seq<Datagram>) {
      if polls == [] then (this, [])
      else
        var before := ServeAll(polls[..|polls| - 1]);
        before.0.GoOn(before.1, polls[|polls| - 1])
    }
  }

  /**
   * At the last block the walk stays there if and only if the file has fewer than 2^32 - 1 blocks;
   * with that many the block number wraps around to 0, which is sent as an original.
   */
  lemma WalkStaysAtEnd(s: Server)
    requires 1 <= s.blockCount < TWO_TO_THE_32 && s.block == s.blockCount
    ensures s.SendNext().0 == s <==> s.blockCount + 1 < TWO_TO_THE_32
    ensures s.blockCount + 1 == TWO_TO_THE_32 ==> s.SendNext().1 == Datagram(0, Original)
  {
  }

  /** A datagram of the walk through the file, as opposed to a retransmission. */
  predicate Walked(d: Datagram) {
    d.kind != Retransmission
  }

  function Walk(sent: seq<Datagram>): seq<Datagram> {
    if sent == [] then []
    else Walk(sent[..|sent| - 1]) + if Walked(sent[|sent| - 1]) then [sent[|sent| - 1]] else []
  }

  lemma {:induction false} WalkConcat(a: seq<Datagram>, b: seq<Datagram>)
    ensures Walk(a + b) == Walk(a) + Walk(b)
  {
    if b == [] {
      assert a + b == a;
    } else {
      WalkConcat(a, b[..|b| - 1]);
      assert (a + b)[..|a + b| - 1] == a + b[..|b| - 1];
    }
  }

  /** The block number stays in range, so the test of the loop never fails. */
  lemma {:induction false} BlockStaysInRange(s: Server, polls: seq<Poll>)
    requires s.Inv() && !s.stopped
    ensures var (s', _) := s.ServeAll(polls);
      && s'.Inv()
      && s'.blockCount == s.blockCount
      && (s'.stopped <==> STOP_POLL in polls)
  {
    if polls == [] {
    } else {
      BlockStaysInRange(s, polls[..|polls| - 1]);
      assert polls == polls[..|polls| - 1] + [polls[|polls| - 1]];
    }
  }

  /** An accepted restart: the request names a block of the file. */
  predicate Restarts(poll: Poll, blockCount: nat) {
    && poll.Arrived? && poll.decoded.Known? && poll.decoded.request.Restart?
    && 1 <= poll.decoded.request.block <= blockCount
  }

  function Silences(polls: seq<Poll>): nat {
    if polls == [] then 0
    else Silences(polls[..|polls| - 1]) + if polls[|polls| - 1].Nothing? then 1 else 0
  }

  /** The i-th datagram of an uninterrupted walk from `block`. */
  function Step(block: nat, blockCount: nat, i: nat): Datagram {
    var b := Min(block + 1 + i, blockCount);
    Datagram(b, if b == blockCount then Terminate else Original)
  }

  /** The walk from `block` is so far the uninterrupted one, and the server stands at its end. */
  ghost predicate Consecutive(s: Server, walk: seq<Datagram>, n: nat, s': Server) {
    && s' == s.(block := Min(s.block + n, s.blockCount))
    && |walk| == n && forall i | 0 <= i < n :: walk[i] == Step(s.block, s.blockCount, i)
  }

  /** One more pass of the walk. */
  lemma ConsecutiveNext(s: Server, walk: seq<Datagram>, n: nat, s1: Server, poll: Poll)
    requires s.Inv() && Consecutive(s, walk, n, s1)
    requires poll != STOP_POLL && !Restarts(poll, s.blockCount)
    ensures var (s2, sent) := s1.Serve(poll);
      Consecutive(s, walk + Walk(sent), n + if poll.Nothing? then 1 else 0, s2)
  {
    PassWalks(s1, poll);
    var more := Walk(s1.Serve(poll).1);
    assert forall i | 0 <= i < n :: (walk + more)[i] == walk[i];
  }

  /**
   * Between accepted restarts the walk is consecutive up to the last block, which alone is
   * marked as the end of the transmission and is repeated.
   */
  lemma {:induction false} WalkIsConsecutive(s: Server, polls: seq<Poll>)
    requires s.Inv() && !s.stopped && STOP_POLL !in polls
    requires forall p | p in polls :: !Restarts(p, s.blockCount)
    ensures var (s', sent) := s.ServeAll(polls);
      Consecutive(s, Walk(sent), Silences(polls), s')
  {
    if polls == [] {
    } else {
      var front, last := polls[..|polls| - 1], polls[|polls| - 1];
      assert polls == front + [last];
      assert last in polls && forall p | p in front :: p in polls;
      WalkIsConsecutive(s, front);
      var (s1, sent1) := s.ServeAll(front);
      WalkConcat(sent1, s1.Serve(last).1);
      ConsecutiveNext(s, Walk(sent1), Silences(front), s1, last);
    }
  }

  /** A pass without a request sends the next block of the walk; one with a request none. */
  lemma PassWalks(s: Server, poll: Poll)
    requires s.Inv() && poll != STOP_POLL && !Restarts(poll, s.blockCount)
    ensures var (s', sent) := s.Serve(poll);
      if poll.Nothing? then
        Walk(sent) == [Step(s.block, s.blockCount, 0)] && s' == s.(block := Min(s.block + 1, s.blockCount))
      else Walk(sent) == [] && s' == s
  {
    var (s', sent) := s.Serve(poll);
    assert |sent| == 1 ==> sent[..0] == [] && Walk(sent[..0]) == [];
  }

  /**
   * After a restart at block r is accepted the walk resumes at r + 1, and never sends r unless r is
   * the last block, which is then sent again.
   */
  lemma RestartSkipsItsBlock(s: Server, r: nat, polls: seq<Poll>)
    requires s.Inv() && !s.stopped && 1 <= r <= s.blockCount
    requires STOP_POLL !in polls && Silences(polls) > 0
    requires forall p | p in polls :: !Restarts(p, s.blockCount)
    ensures var (s', sent) := s.Accept(Restart(r)).0.ServeAll(polls);
      && |Walk(sent)| > 0
      && Walk(sent)[0].block == Min(r + 1, s.blockCount)
      && ((exists d :: d in Walk(sent) && d.block == r) <==> r == s.blockCount)
  {
    var restarted := s.Accept(Restart(r)).0;
    WalkIsConsecutive(restarted, polls);
    var walk := Walk(restarted.ServeAll(polls).1);
    assert walk[0] in walk;
  }

  // ---------- Answers to requests ----------

  /** A restart outside the file and a request of an unknown type change nothing and send nothing. */
  lemma RefusedChangesNothing(s: Server, poll: Poll)
    requires poll.Arrived? && (poll.decoded.Known? ==>
      poll.decoded.request.Restart? && !(1 <= poll.decoded.request.block <= s.blockCount))
    ensures s.Serve(poll) == (s, [])
  {
  }

  /** The blocks that are retransmitted, and those that are asked for, in order. */
  function Retransmitted(sent: seq<Datagram>): seq<nat> {
    if sent == [] then []
    else
      Retransmitted(sent[..|sent| - 1])
      + if sent[|sent| - 1].kind == Retransmission then [sent[|sent| - 1].block] else []
  }

  function AskedFor(polls: seq<Poll>): seq<nat> {
    if polls == [] then []
    else
      var last := polls[|polls| - 1];
      AskedFor(polls[..|polls| - 1])
      + if last.Arrived? && last.decoded.Known? && last.decoded.request.Retransmit?
        then [last.decoded.request.block] else []
  }

  lemma {:induction false} RetransmittedConcat(a: seq<Datagram>, b: seq<Datagram>)
    ensures Retransmitted(a + b) == Retransmitted(a) + Retransmitted(b)
  {
    if b == [] {
      assert a + b == a;
    } else {
      RetransmittedConcat(a, b[..|b| - 1]);
      assert (a + b)[..|a + b| - 1] == a + b[..|b| - 1];
    }
  }

  /** A pass retransmits the block asked for, if one is, once. */
  lemma PassAnswers(s: Server, poll: Poll)
    ensures Retransmitted(s.Serve(poll).1) == AskedFor([poll])
    ensures |s.Serve(poll).1| <= 1
  {
    var sent := s.Serve(poll).1;
    assert |sent| == 1 ==> sent[..0] == [] && Retransmitted(sent[..0]) == [];
    assert [poll][..0] == [] && AskedFor([poll][..0]) == [];
  }

  /** Until a stop request the server retransmits exactly what is asked for, in order, each once. */
  lemma {:induction false} AnswersExactly(s: Server, polls: seq<Poll>)
    requires s.Inv() && !s.stopped && STOP_POLL !in polls
    ensures Retransmitted(s.ServeAll(polls).1) == AskedFor(polls)
  {
    if polls == [] {
    } else {
      var front, last := polls[..|polls| - 1], polls[|polls| - 1];
      assert polls == front + [last] && forall p | p in front :: p in polls;
      AnswersExactly(s, front);
      BlockStaysInRange(s, front);
      var before := s.ServeAll(front);
      RetransmittedConcat(before.1, before.0.Serve(last).1);
      PassAnswers(before.0, last);
      assert [last][..0] == [];
    }
  }

  // ---------- The loop with its clock ----------

  /**
   * One pass: what the control connection yields, and what the clock says, whether half a second has
   * passed since the last report of a lost heartbeat, and whether the client has been silent for
   * longer than the heartbeat timeout.
   */
  datatype Pass = Pass(poll: Poll, reportDue: bool, overdue: bool)

  datatype Loop = Loop(
    server: Server,
    pace: Pace,
    ipd: real,       // ipd_current
    idle: nat,       // deadconnection_counter
    expired: bool)   // the loop was left because of the heartbeat
  {
    static function Start(blockCount: nat, pace: Pace): Loop {
      Loop(Server.Start(blockCount), pace, pace.Initial(), 0, false)
    }

    ghost predicate Inv() {
      server.Inv() && pace.Defined()
    }

    predicate Over() {
      server.stopped || expired || server.block > server.blockCount
    }

    /** The delay after a request. */
    function Paced(poll: Poll): real
      requires pace.Defined()
    {
      match poll
      case Arrived(Known(ErrorRate(rate))) => pace.Adjust(ipd, rate)
      case _ => ipd
    }

    /** One pass: a dead client is answered by a made-up report of complete loss, and in time left. */
    function Next(pass: Pass): (Loop, seq<Datagram>)
      requires pace.Defined()
    {
      var (server', sent) := server.Serve(pass.poll);
      var served := this.(server := server', ipd := Paced(pass.poll));
      if server'.stopped then (served.(idle := 0), sent)
      else
        var idle' := if pass.poll.Arrived? then 0 else idle;
        if idle' <= IDLE_LIMIT then (served.(idle := idle' + 1), sent)
        else if !pass.reportDue then (served.(idle := 0), sent)
        else (served.(idle := 0, ipd := pace.Adjust(served.ipd, 100000), expired := pass.overdue), sent)
    }

    function Iterate(passes: seq<Pass>): (Loop, seq<Datagram>)
      requires pace.Defined()
      ensures Iterate(passes).0.pace == pace
    {
      if passes == [] then (this, [])
      else
        var (loop, sent) := Iterate(passes[..|passes| - 1]);
        if loop.Over() then (loop, sent)
        else
          var (loop', more) := loop.Next(passes[|passes| - 1]);
          (loop', sent + more)
    }
  }

  function Polls(passes: seq<Pass>): seq<Poll> {
    seq(|passes|, i requires 0 <= i < |passes| => passes[i].poll)
  }

  /** Unless the heartbeat ends it, the loop serves the polls, whatever the clock says. */
  lemma {:induction false} LoopServes(l: Loop, passes: seq<Pass>)
    requires l.Inv() && !l.Over() && !l.Iterate(passes).0.expired
    ensures (l.Iterate(passes).0.server, l.Iterate(passes).1) == l.server.ServeAll(Polls(passes))
  {
    if passes == [] {
    } else {
      var n := |passes| - 1;
      var (front, sent) := l.Iterate(passes[..n]);
      assert !front.expired;
      LoopServes(l, passes[..n]);
      var polls := Polls(passes);
      assert polls[..|polls| - 1] == Polls(passes[..n]) && polls[|polls| - 1] == passes[n].poll;
      assert l.server.ServeAll(polls) == front.server.GoOn(sent, passes[n].poll);
    }
  }

  /** The `n` passes before pass `k`, and pass `k`, saw no request. */
  predicate SilentTo(passes: seq<Pass>, k: nat, n: nat)
    requires k < |passes|
  {
    n <= k && forall i | k - n <= i <= k :: passes[i].poll.Nothing?
  }

  /** The counter exceeds the number of passes without a request just before by one at most. */
  lemma {:induction false} IdleIsSilent(l: Loop, passes: seq<Pass>)
    requires l.Inv() && l.idle == 0 && !l.Over() && !l.Iterate(passes).0.Over()
    ensures l.Iterate(passes).0.idle <= |passes|
    ensures forall i | |passes| - l.Iterate(passes).0.idle < i < |passes| :: passes[i].poll.Nothing?
  {
    if passes == [] {
    } else {
      var n := |passes| - 1;
      IdleIsSilent(l, passes[..n]);
      assert forall i | 0 <= i < n :: passes[..n][i] == passes[i];
    }
  }

  /**
   * Pass `k` ends the loop: a stop request, or, after more than IDLE_LIMIT passes in a row without a
   * request, a clock that says that a report is due and that the client is overdue.
   */
  predicate Ends(l: Loop, passes: seq<Pass>, k: nat)
    requires k < |passes| && l.pace.Defined()
  {
    || passes[k].poll == STOP_POLL
    || (l.Iterate(passes[..k]).0.idle > IDLE_LIMIT && passes[k] == Pass(Nothing, true, true))
  }

  lemma NextEnds(l: Loop, passes: seq<Pass>)
    requires l.Inv() && passes != [] && l.Iterate(passes[..|passes| - 1]).0.Inv()
    requires !l.Iterate(passes[..|passes| - 1]).0.Over()
    ensures l.Iterate(passes).0.Inv()
    ensures l.Iterate(passes).0.Over() <==> Ends(l, passes, |passes| - 1)
    ensures l.Iterate(passes).0.expired ==> passes[|passes| - 1].poll.Nothing?
  {
  }

  ghost predicate SomePassEnds(l: Loop, passes: seq<Pass>)
    requires l.pace.Defined()
  {
    exists k | 0 <= k < |passes| :: Ends(l, passes, k)
  }

  ghost predicate SilentForLong(passes: seq<Pass>) {
    exists k | 0 <= k < |passes| :: SilentTo(passes, k, IDLE_LIMIT)
  }

  /** What the passes before the last one do does not depend on the last one. */
  lemma LastPass(l: Loop, passes: seq<Pass>)
    requires l.pace.Defined() && passes != []
    ensures var n := |passes| - 1;
      && (SomePassEnds(l, passes) <==> SomePassEnds(l, passes[..n]) || Ends(l, passes, n))
      && (SilentForLong(passes) <==> SilentForLong(passes[..n]) || SilentTo(passes, n, IDLE_LIMIT))
      && Polls(passes) == Polls(passes[..n]) + [passes[n].poll]
  {
    var n := |passes| - 1;
    var front := passes[..n];
    forall k | 0 <= k < n
      ensures Ends(l, front, k) <==> Ends(l, passes, k)
      ensures SilentTo(front, k, IDLE_LIMIT) <==> SilentTo(passes, k, IDLE_LIMIT)
    {
      assert front[..k] == passes[..k];
      assert forall i | 0 <= i < n :: front[i] == passes[i];
    }
  }

  /**
   * Main result on the loop: the test of the block number never ends it.  It ends if and only if a
   * pass ends it, by a stop request or by the heartbeat; and by the heartbeat only after more than
   * IDLE_LIMIT passes in a row without any request.
   */
  lemma {:induction false} LoopEnds(l: Loop, passes: seq<Pass>)
    requires l.Inv() && !l.Over() && l.idle == 0
    ensures var l' := l.Iterate(passes).0;
      && l'.Inv()
      && (l'.Over() <==> SomePassEnds(l, passes))
      && (l'.expired ==> SilentForLong(passes))
      && (!l'.Over() ==> STOP_POLL !in Polls(passes))
  {
    if passes == [] {
    } else {
      var n := |passes| - 1;
      var front := passes[..n];
      LoopEnds(l, front);
      LastPass(l, passes);
      if !l.Iterate(front).0.Over() {
        NextEnds(l, passes);
        IdleIsSilent(l, front);
      }
    }
  }

  /** So many silent passes with a clock that says the client is overdue. */
  function Silence(n: nat): seq<Pass> {
    seq(n, _ => Pass(Nothing, true, true))
  }

  lemma {:induction false} SilenceCounts(l: Loop, n: nat)
    requires l.Inv() && !l.Over() && l.idle == 0 && n <= IDLE_LIMIT + 1
    ensures var l' := l.Iterate(Silence(n)).0; l'.Inv() && !l'.Over() && l'.idle == n
  {
    if n == 0 {
    } else {
      SilenceCounts(l, n - 1);
      assert Silence(n)[..n - 1] == Silence(n - 1);
    }
  }

  /** A client that is silent for long enough is dropped, after IDLE_LIMIT + 2 passes. */
  lemma DeadClientIsDropped(l: Loop)
    requires l.Inv() && !l.Over() && l.idle == 0
    ensures l.Iterate(Silence(IDLE_LIMIT + 2)).0.expired
  {
    SilenceCounts(l, IDLE_LIMIT + 1);
    assert Silence(IDLE_LIMIT + 2)[..IDLE_LIMIT + 1] == Silence(IDLE_LIMIT + 1);
  }

  /** The loop starts before block 1, with three times the target delay. */
  lemma LoopStarts(n: nat, p: Pace)
    requires 1 <= n && n + 1 < TWO_TO_THE_32 && p.Defined()
    ensures var l := Loop.Start(n, p);
      && l.ipd == 3.0 * p.ipdTime as real && l.pace == p && l.Inv() && !l.Over() && l.idle == 0
      && l.Next(Pass(Nothing, true, true)).1 == [Datagram(1, if n == 1 then Terminate else Original)]
  {
  }

  /** What a pass does to the delay: only error reports change it, the made-up one included. */
  lemma PassPaces(l: Loop, pass: Pass)
    requires l.Inv() && !l.Over()
    ensures var ipd, p := l.Next(pass).0.ipd, l.pace;
      if pass.poll.Arrived? && pass.poll.decoded.Known? && pass.poll.decoded.request.ErrorRate? then
        ipd == p.Adjust(l.ipd, pass.poll.decoded.request.rate)
      else if pass.poll.Nothing? && l.idle > IDLE_LIMIT && pass.reportDue then
        ipd == p.Adjust(l.ipd, 100000)
      else ipd == l.ipd
  {
  }

  /** The report that is made up for a client that seems dead slows the server down. */
  lemma DeadClientSlowsDown(l: Loop, overdue: bool)
    requires l.Inv() && !l.Over() && l.idle > IDLE_LIMIT
    requires l.pace.slowerNum > l.pace.slowerDen && l.pace.errorRate < 100000
    requires 0.0 < l.ipd < 10000.0 && l.pace.ipdTime as real <= l.ipd
    ensures l.Next(Pass(Nothing, true, overdue)).0.ipd > l.ipd
  {
    PassPaces(l, Pass(Nothing, true, overdue));
    BadReportRaises(l.pace, l.ipd, 100000);
  }

  /** Whenever the clock has been looked at, the counter starts again. */
  lemma {:induction false} IdleIsBounded(l: Loop, passes: seq<Pass>)
    requires l.Inv() && l.idle <= IDLE_LIMIT + 1
    ensures l.Iterate(passes).0.idle <= IDLE_LIMIT + 1
  {
    if passes == [] {
    } else {
      IdleIsBounded(l, passes[..|passes| - 1]);
    }
  }

  /** Whatever happens, the delay is the initial one or in its range. */
  lemma {:induction false} LoopPaces(l: Loop, passes: seq<Pass>)
    requires l.Inv()
    ensures var ipd := l.Iterate(passes).0.ipd; ipd == l.ipd || l.pace.InRange(ipd)
  {
    if passes == [] {
    } else {
      var before, pass := l.Iterate(passes[..|passes| - 1]).0, passes[|passes| - 1];
      LoopPaces(l, passes[..|passes| - 1]);
      AdjustInRange(l.pace, before.Paced(pass.poll), 100000);
      if pass.poll.Arrived? && pass.poll.decoded.Known? && pass.poll.decoded.request.ErrorRate? {
        AdjustInRange(l.pace, before.ipd, pass.poll.decoded.request.rate);
      }
    }
  }

  /** Once over, what else arrives changes nothing. */
  lemma {:induction false} OverStays(l: Loop, passes: seq<Pass>, k: nat)
    requires l.Inv() && k <= |passes| && l.Iterate(passes[..k]).0.Over()
    ensures l.Iterate(passes) == l.Iterate(passes[..k])
    decreases |passes| - k
  {
    if k == |passes| {
      assert passes[..k] == passes;
    } else {
      assert passes[..k + 1][..k] == passes[..k];
      OverStays(l, passes, k + 1);
    }
  }

  // ---------- The loop, in place ----------

  class Transfer {
    const blockCount: nat
    const pace: Pace
    var block: nat
    var ipdCurrent: real
    var deadconnectionCounter: nat
    var stopped: bool
    var expired: bool

    ghost predicate Valid()
      reads this
    {
      State().Inv()
    }

    function State(): Loop
      reads this
    {
      Loop(Server(blockCount, block, stopped), pace, ipdCurrent, deadconnectionCounter, expired)
    }

    constructor (blockCount: nat, pace: Pace)
      requires 1 <= blockCount && blockCount + 1 < TWO_TO_THE_32 && pace.Defined()
      ensures Valid()
      ensures this.blockCount == blockCount && this.pace == pace
      ensures State() == Loop.Start(blockCount, pace)
    {
      this.blockCount := blockCount;
      this.pace := pace;
      block, deadconnectionCounter := 0, 0;
      ipdCurrent := pace.Initial();
      stopped, expired := false, false;
    }

    /** Handles a request other than a stop; an illegal restart and an unknown type are refused. */
    method AcceptRetransmit(decoded: Decoded) returns (sent: seq<Datagram>, ok: bool)
      requires Valid() && decoded != Known(Stop)
      modifies this`block, this`ipdCurrent
      ensures Valid()
      ensures (State().server, sent) == old(State()).server.Serve(Arrived(decoded))
      ensures ok <==> decoded.Known? && (decoded.request.Restart? ==> 1 <= decoded.request.block <= blockCount)
      ensures ipdCurrent == old(State()).Paced(Arrived(decoded))
    {
      sent, ok := [], true;
      match decoded {
        case Known(ErrorRate(rate)) =>
          ipdCurrent := pace.Adjust(ipdCurrent, rate);
        case Known(Restart(r)) =>
          if r == 0 || r > blockCount {
            ok := false;
          } else {
            block := r;
          }
        case Known(Retransmit(b)) =>
          sent := [Datagram(b, Retransmission)];
        case Unknown(_) =>
          ok := false;
      }
    }

    /** One pass of the transfer loop. */
    method Next(pass: Pass) returns (sent: seq<Datagram>)
      requires Valid() && !stopped && !expired
      modifies this
      ensures Valid()
      ensures (State(), sent) == old(State()).Next(pass)
    {
      match pass.poll {
        case Arrived(decoded) =>
          deadconnectionCounter := 0;
          if decoded == Known(Stop) {
            stopped := true;
            return [];
          }
          var ok;
          sent, ok := AcceptRetransmit(decoded);
        case Nothing =>
          block := Min(Add32(block, 1), blockCount);
          sent := [Datagram(block, if block == blockCount then Terminate else Original)];
      }
      var counter := deadconnectionCounter;
      deadconnectionCounter := deadconnectionCounter + 1;
      if counter > IDLE_LIMIT {
        deadconnectionCounter := 0;
        if pass.reportDue {
          var none, ok := AcceptRetransmit(Known(ErrorRate(100000)));
          expired := pass.overdue;
        }
      }
    }

    /** The transfer loop over what the control connection and the clock yield. */
    method ClientHandler(passes: seq<Pass>) returns (sent: seq<Datagram>)
      requires Valid() && !State().Over() && deadconnectionCounter == 0
      modifies this
      ensures Valid()
      ensures (State(), sent) == old(State()).Iterate(passes)
      ensures stopped || expired <==> SomePassEnds(old(State()), passes)
    {
      ghost var start := State();
      LoopEnds(start, passes);
      sent := [];
      var i := 0;
      while i < |passes| && block <= blockCount && !stopped && !expired
        invariant i <= |passes| && Valid() && State().server.blockCount == start.server.blockCount
        invariant (State(), sent) == start.Iterate(passes[..i])
      {
        assert passes[..i + 1][..i] == passes[..i];
        var more := Next(passes[i]);
        sent := sent + more;
        i := i + 1;
      }
      if State().Over() {
        OverStays(start, passes, i);
      } else {
        assert passes[..i] == passes;
      }
    }
  }
}
