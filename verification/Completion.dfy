/**
 * Completion: once no datagram is lost any more, the client breaks out of its receive loop
 * within three rounds, whatever state the transfer had reached.
 */
module Completion {
  import opened Tsunami
  import opened Retransmit
  import opened Client
  import opened Server
  import opened Session

  // ---------- What one end-of-transmission block makes the client ask for ----------

  predicate AsksForAll(sent: seq<Request>, missing: set<nat>) {
    forall b | b in missing :: Retransmit(b) in sent
  }

  /** Where the server stands after reading the requests, if it stood at `from`. */
  function RestartPoint(from: nat, sent: seq<Request>): nat
    decreases |sent|
  {
    if sent == [] then from
    else RestartPoint(if sent[0].Restart? then sent[0].block else from, sent[1..])
  }

  predicate IsLeast(b: nat, s: set<nat>) {
    b in s && forall x | x in s :: b <= x
  }

  lemma {:induction false} RestartPointConcat(from: nat, a: seq<Request>, b: seq<Request>)
    ensures RestartPoint(from, a + b) == RestartPoint(RestartPoint(from, a), b)
    decreases |a|
  {
    if a == [] {
      assert a + b == b;
    } else {
      RestartPointConcat(if a[0].Restart? then a[0].block else from, a[1..], b);
      assert (a + b)[1..] == a[1..] + b;
    }
  }

  lemma {:induction false} NoRestartNoMove(from: nat, sent: seq<Request>)
    requires forall q | q in sent :: !q.Restart?
    ensures RestartPoint(from, sent) == from
    decreases |sent|
  {
    if sent == [] {
    } else {
      NoRestartNoMove(from, sent[1..]);
    }
  }

  /** After the sweep the table holds every missing block, unless it refused one. */
  lemma SweepFinds(c: Client, swept: Client)
    requires c.Inv() && c.blockCount in c.received && swept == c.Sweep()
    requires swept.refused == c.refused
    ensures forall b | b in c.Missing() :: b in swept.table
  {
    forall b | b in c.Missing()
      ensures b in swept.table
    {
      assert c.gaplessToBlock < b < c.blockCount;
      RequestRangeAsks(c, c.gaplessToBlock + 1, c.blockCount);
    }
  }

  /** The requests sent list exactly the missing blocks, or are one restart at the first of them. */
  ghost predicate Complete(sent: seq<Request>, missing: set<nat>, least: nat) {
    || (forall q: Request :: q in sent <==> q.Retransmit? && q.block in missing)
    || (sent == [Restart(least)] && IsLeast(least, missing))
  }

  /**
   * One processed end-of-transmission block with blocks missing and nothing refused: either a
   * request for every missing block and for nothing else, or a restart at the smallest one;
   * with the ordered table, the restart only if too many are missing.
   */
  lemma TerminateRequestsComplete(c: Client)
    requires c.Inv() && c.blockCount in c.received && c.blocksLeft > 0
    requires c.gaplessToBlock < c.blockCount ==> c.gaplessToBlock + 1 !in c.received
    requires c.Sweep().refused == c.refused
    ensures Complete(c.Sweep().Repeat().1, c.Missing(), c.gaplessToBlock + 1)
    ensures c.sorting && |c.Missing()| < MAX_RETRANSMISSION_BUFFER ==>
              AsksForAll(c.Sweep().Repeat().1, c.Missing())
  {
    var swept := c.Sweep();
    SweepInv(c);
    SweepGrows(c);
    SweepFinds(c, swept);
    FirstMissing(c);
    RepeatComplete(swept);
  }

  /** A table that holds all missing blocks is asked for, or the server restarts at the first. */
  lemma RepeatComplete(c: Client)
    requires c.Inv() && c.gaplessToBlock < c.blockCount && IsLeast(c.gaplessToBlock + 1, c.Missing())
    requires forall b | b in c.Missing() :: b in c.table
    ensures Complete(c.Repeat().1, c.Missing(), c.gaplessToBlock + 1)
    ensures c.sorting && |c.Missing()| < MAX_RETRANSMISSION_BUFFER ==> AsksForAll(c.Repeat().1, c.Missing())
  {
    var wanted := Wanted(c.table, c.Missing());
    WantedElements(c.table, c.Missing());
    if c.sorting {
      WantedAscends(c.table, c.Missing());
      AscendingSize(wanted, c.Missing());
    }
    if |wanted| < MAX_RETRANSMISSION_BUFFER {
      RetransmitsListed(wanted, c.Repeat().1);
    }
  }

  lemma RetransmitsListed(wanted: seq<nat>, sent: seq<Request>)
    requires |sent| == |wanted| && forall i | 0 <= i < |sent| :: sent[i] == Retransmit(wanted[i])
    ensures forall q: Request :: q in sent <==> q.Retransmit? && q.block in wanted
  {
    forall q: Request | q.Retransmit? && q.block in wanted
      ensures q in sent
    {
      var i :| 0 <= i < |wanted| && wanted[i] == q.block;
      assert sent[i] == q;
    }
  }

  /** A positive counter means that a block is missing. */
  lemma SomeMissing(c: Client)
    requires c.Inv()
    ensures c.blocksLeft == 0 <==> c.Missing() == {}
    ensures c.blocksLeft == 0 <==> c.received == Blocks(c.blockCount)
  {
    ReceivedFits(c.received, c.blockCount);
    BlocksSize(c.blockCount);
    if c.Missing() == {} {
      forall b | b in Blocks(c.blockCount)
        ensures b in c.received
      {
        assert b !in c.Missing();
      }
      assert c.received == Blocks(c.blockCount);
    }
  }

  lemma FirstMissing(c: Client)
    requires c.Inv() && c.blocksLeft > 0
    requires c.gaplessToBlock < c.blockCount ==> c.gaplessToBlock + 1 !in c.received
    ensures c.gaplessToBlock < c.blockCount && IsLeast(c.gaplessToBlock + 1, c.Missing())
  {
    SomeMissing(c);
    var b :| b in c.Missing();
    assert c.gaplessToBlock < b;
  }

  /** What is asked for, or where the server restarts, after an end-of-transmission block. */
  ghost predicate Covers(sent: seq<Request>, missing: set<nat>) {
    || AsksForAll(sent, missing)
    || exists r: nat :: IsLeast(r, missing) && forall from: nat :: RestartPoint(from, sent) == r
  }

  /** Repeating the requests at once, because feedback is due, does not undo them. */
  lemma RepeatTwice(c: Client)
    requires c.Inv()
    ensures forall q | q in c.Repeat().0.Repeat().1 :: !q.Restart?
  {
    var (r, _) := c.Repeat();
    WantedElements(c.table, c.Missing());
    WantedElements(r.table, r.Missing());
  }

  /** The state in which a pass over an end-of-transmission block reaches its last part. */
  lemma TerminateTracks(c: Client, a: Arrival) returns (t: Client)
    requires c.Inv() && !a.ringFull && a.datagram == Datagram(c.blockCount, Terminate)
    ensures t.Inv() && t.blockCount == c.blockCount && t.sorting == c.sorting && t.blockCount in t.received
    ensures t.gaplessToBlock < t.blockCount ==> t.gaplessToBlock + 1 !in t.received
    ensures c.refused <= t.refused
    ensures c.Receive(a) == t.Finish(a, !c.GotBlock(c.blockCount))
  {
    var d := a.datagram;
    var recorded := c.Record(d.block);
    RecordInv(c, d.block);
    TrackInv(recorded, d);
    TrackGrows(recorded, d);
    TrackStops(recorded, d);
    t := recorded.Track(d);
  }

  /** At the end of the transmission the client breaks out if and only if it has all blocks. */
  lemma TerminateEnds(c: Client, a: Arrival)
    requires c.Inv() && !a.ringFull && a.datagram == Datagram(c.blockCount, Terminate)
    ensures var o := c.Receive(a);
      o.client.Inv() && (o.done <==> o.client.received == Blocks(c.blockCount))
  {
    var t := TerminateTracks(c, a);
    ReceiveInv(c, a);
    SomeMissing(t);
    FinishGrows(t, a, !c.GotBlock(c.blockCount));
  }

  /** Whatever feedback follows, a processed end-of-transmission block covers all that is missing. */
  lemma TerminateCovers(c: Client, a: Arrival)
    requires c.Inv() && !a.ringFull && a.datagram == Datagram(c.blockCount, Terminate)
    ensures var o := c.Receive(a);
      && o.client.Inv()
      && (o.done <==> o.client.received == Blocks(c.blockCount))
      && (!o.done && o.client.refused == c.refused ==>
            && Covers(o.sent, o.client.Missing())
            && (c.sorting && |o.client.Missing()| < MAX_RETRANSMISSION_BUFFER ==>
                  AsksForAll(o.sent, o.client.Missing())))
  {
    TerminateEnds(c, a);
    var t := TerminateTracks(c, a);
    FinishGrows(t, a, !c.GotBlock(c.blockCount));
    if t.blocksLeft > 0 && c.Receive(a).client.refused == c.refused {
      FinishCovers(t, a, !c.GotBlock(c.blockCount));
    }
  }

  /** Moving the marks leaves the gapless mark right before the first missing block. */
  lemma TrackStops(c: Client, d: Datagram)
    requires c.gaplessToBlock <= c.blockCount
    ensures var t := c.Track(d);
      t.gaplessToBlock < t.blockCount ==> t.gaplessToBlock + 1 !in t.received
  {
    var asked := c;
    if d.block > c.nextBlock {
      RequestRangeAsks(c, c.nextBlock, d.block);
      asked := c.RequestRange(c.nextBlock, d.block);
    }
    AdvanceStops(asked);
  }

  /** Appending requests that contain no restart keeps the coverage. */
  lemma CoverageKept(first: seq<Request>, rest: seq<Request>, missing: set<nat>, least: nat)
    requires Complete(first, missing, least) && forall q | q in rest :: !q.Restart?
    ensures Covers(first + rest, missing)
  {
    if first == [Restart(least)] && IsLeast(least, missing) {
      forall from
        ensures RestartPoint(from, first + rest) == least
      {
        RestartPointConcat(from, first, rest);
        NoRestartNoMove(least, rest);
      }
    } else {
      assert AsksForAll(first + rest, missing);
    }
  }

  lemma FeedbackAppends(c: Client, a: Arrival, sent: seq<Request>, stored: bool) returns (rest: seq<Request>)
    requires forall q | q in c.Repeat().1 :: !q.Restart?
    ensures c.Feedback(a, sent, stored).sent == sent + rest
    ensures forall q | q in rest :: !q.Restart?
  {
    rest := if a.due then c.Repeat().1 + [ErrorRate(a.rate)] else [];
    assert sent + c.Repeat().1 + [ErrorRate(a.rate)] == sent + (c.Repeat().1 + [ErrorRate(a.rate)]);
  }

  lemma FinishCovers(t: Client, a: Arrival, stored: bool)
    requires t.Inv() && t.blockCount in t.received && t.blocksLeft > 0
    requires t.gaplessToBlock < t.blockCount ==> t.gaplessToBlock + 1 !in t.received
    requires a.datagram.kind == Terminate
    requires t.Finish(a, stored).client.refused == t.refused
    ensures var o := t.Finish(a, stored);
      && Covers(o.sent, t.Missing())
      && (t.sorting && |t.Missing()| < MAX_RETRANSMISSION_BUFFER ==> AsksForAll(o.sent, t.Missing()))
  {
    SweepInv(t);
    TerminateRequestsComplete(t);
    RepeatTwice(t.Sweep());
    var (repeated, first) := t.Sweep().Repeat();
    var rest := FeedbackAppends(repeated, a, first, stored);
    CoverageKept(first, rest, t.Missing(), t.gaplessToBlock + 1);
  }
}
