/**
 * Completion for both builds of the table, ordered or appending, when the datagrams of a round
 * arrive in the order in which they were sent, once each, and requests are repeated only at the
 * end of the transmission.
 */
module InOrder {
  import opened Tsunami
  import opened Retransmit
  import opened Client
  import opened Server
  import opened Session
  import opened Completion
  import opened Rounds

  /** A round whose arrivals are what was sent. */
  predicate Exact(s: System, arrivals: seq<Arrival>) {
    Datagrams(arrivals) == RoundSent(s) && forall a | a in arrivals :: !a.ringFull && !a.due
  }

  lemma ExactIsLossless(s: System, arrivals: seq<Arrival>)
    requires Session.Inv(s) && !s.done && Exact(s, arrivals)
    ensures Lossless(s, arrivals)
  {
    DrainEffect(s.server, s.control);
    BlastEffect(Drain(s.server, s.control).0);
    var i := |arrivals| - 1;
    assert |arrivals| == |Datagrams(arrivals)| > 0;
    assert Datagrams(arrivals)[i] == arrivals[i].datagram;
    forall a | a in arrivals
      ensures a.datagram in RoundSent(s)
    {
      var j :| 0 <= j < |arrivals| && arrivals[j] == a;
      assert Datagrams(arrivals)[j] == a.datagram;
    }
  }

  // ---------- A first round asks once, at its end ----------

  lemma QuietReceive(c: Client, a: Arrival)
    requires a.datagram.kind != Terminate && !a.due
    ensures c.Receive(a).sent == [] && !c.Receive(a).done
  {
  }

  lemma {:induction false} QuietReceiveAll(c: Client, arrivals: seq<Arrival>)
    requires forall a | a in arrivals :: a.datagram.kind != Terminate && !a.due
    ensures ReceiveAll(c, arrivals).sent == [] && !ReceiveAll(c, arrivals).done
    decreases |arrivals|
  {
    if arrivals == [] {
    } else {
      var front, last := arrivals[..|arrivals| - 1], arrivals[|arrivals| - 1];
      assert last in arrivals && forall a | a in front :: a in arrivals;
      QuietReceiveAll(c, front);
      QuietReceive(ReceiveAll(c, front).client, last);
    }
  }

  /** Only the last datagram of a round marks the end of the transmission. */
  lemma OnlyLastTerminates(s: System, arrivals: seq<Arrival>)
    requires Session.Inv(s) && !s.done && Exact(s, arrivals)
    ensures |arrivals| > 0
    ensures forall a | a in arrivals[..|arrivals| - 1] :: a.datagram.kind != Terminate && !a.due
  {
    ExactIsLossless(s, arrivals);
    DrainEffect(s.server, s.control);
    var (s1, resent) := Drain(s.server, s.control);
    BlastEffect(s1);
    forall i | 0 <= i < |arrivals| - 1
      ensures arrivals[i].datagram.kind != Terminate
    {
      assert arrivals[i].datagram == Datagrams(arrivals)[i] == RoundSent(s)[i];
      if i < |resent| {
        assert RoundSent(s)[i] in resent;
      } else {
        assert RoundSent(s)[i] == Blast(s1).1[i - |resent|];
      }
    }
    forall a | a in arrivals[..|arrivals| - 1]
      ensures a.datagram.kind != Terminate && !a.due
    {
      assert a in arrivals;
    }
  }

  /** Where a restart leaves the client: the table is empty and the first missing block is next. */
  predicate Restarted(c: Client, sent: seq<Request>) {
    && c.table == [] && 1 <= c.nextBlock < c.blockCount
    && sent == [Restart(c.nextBlock)]
    && IsLeast(c.nextBlock, c.Missing())
  }

  /** The end of the transmission asks for all missing blocks, or restarts at the first. */
  lemma TerminateRestarts(c: Client, a: Arrival)
    requires c.Inv() && !a.ringFull && !a.due && a.datagram == Datagram(c.blockCount, Terminate)
    requires !c.Receive(a).done && c.Receive(a).client.refused == c.refused
    ensures var o := c.Receive(a);
      AsksForAll(o.sent, o.client.Missing()) || Restarted(o.client, o.sent)
  {
    var recorded := c.Record(c.blockCount);
    RecordInv(c, c.blockCount);
    TrackInv(recorded, a.datagram);
    TrackGrows(recorded, a.datagram);
    TrackStops(recorded, a.datagram);
    var t := recorded.Track(a.datagram);
    FinishGrows(t, a, !c.GotBlock(c.blockCount));
    FinishRestarts(t, a, !c.GotBlock(c.blockCount));
  }

  lemma FinishRestarts(t: Client, a: Arrival, stored: bool)
    requires t.Inv() && t.blockCount in t.received && a.datagram.kind == Terminate && !a.due
    requires t.gaplessToBlock < t.blockCount ==> t.gaplessToBlock + 1 !in t.received
    requires !t.Finish(a, stored).done && t.Finish(a, stored).client.refused == t.refused
    ensures var o := t.Finish(a, stored);
      AsksForAll(o.sent, o.client.Missing()) || Restarted(o.client, o.sent)
  {
    SweepInv(t);
    SweepGrows(t);
    TerminateRequestsComplete(t);
    FirstMissing(t);
    var (repeated, sent) := t.Sweep().Repeat();
    if repeated.table == [] && sent != [] && sent[0].Restart? {
    } else if Complete(sent, t.Missing(), t.gaplessToBlock + 1) {
      assert sent != [Restart(t.gaplessToBlock + 1)] by {
        assert sent != [] ==> !sent[0].Restart?;
      }
    }
  }

  /** The client before the last arrival of a round. */
  function BeforeLast(s: System, arrivals: seq<Arrival>): Client
    requires arrivals != []
  {
    ReceiveAll(s.client, arrivals[..|arrivals| - 1]).client
  }

  /** A round that does not end the transfer sends what its last pass sends. */
  lemma LastOfRound(s: System, arrivals: seq<Arrival>)
    requires Session.Inv(s) && !s.done && Exact(s, arrivals) && !Round(s, arrivals).done
    ensures arrivals != []
    ensures var s', c, last := Round(s, arrivals), BeforeLast(s, arrivals), arrivals[|arrivals| - 1];
      && c.Inv() && Orderly(c) && Grows(s.client, c) && Grows(c, s'.client)
      && last.datagram == Datagram(c.blockCount, Terminate) && !last.ringFull && !last.due
      && s'.client == c.Receive(last).client && s'.control == c.Receive(last).sent
      && !c.Receive(last).done
  {
    ExactIsLossless(s, arrivals);
    OnlyLastTerminates(s, arrivals);
    RoundDelivers(s, arrivals);
    var front, last := arrivals[..|arrivals| - 1], arrivals[|arrivals| - 1];
    assert last in arrivals && forall a | a in front :: a in arrivals;
    QuietReceiveAll(s.client, front);
    ReceiveAllKeeps(s.client, front);
    ReceiveGrows(ReceiveAll(s.client, front).client, last);
  }

  lemma FirstRound(s: System, arrivals: seq<Arrival>)
    requires Session.Inv(s) && !s.done && Exact(s, arrivals)
    requires !Round(s, arrivals).done && Round(s, arrivals).client.refused == s.client.refused
    ensures var s' := Round(s, arrivals);
      AsksForAll(s'.control, s'.client.Missing()) || Restarted(s'.client, s'.control)
  {
    LastOfRound(s, arrivals);
    TerminateRestarts(BeforeLast(s, arrivals), arrivals[|arrivals| - 1]);
  }

  // ---------- The round after a restart ----------

  /** Of the blocks up to `upto`, the client misses `r` only, and has requested it once at most. */
  ghost predicate Resumed(c: Client, r: nat, upto: nat) {
    && c.Inv() && 1 <= r < c.blockCount && r !in c.received
    && (forall b | 1 <= b <= upto && b != r :: b in c.received)
    && ((c.table == [] && c.nextBlock == r) || (c.table == [r] && c.nextBlock > r))
  }

  /** Asking for a range in which at most `r` is missing asks for `r` at most. */
  lemma {:induction false} RequestOnly(c: Client, lo: nat, hi: nat, r: nat)
    requires lo <= hi && !c.GotBlock(r)
    requires forall b | lo <= b < hi && b != r :: c.GotBlock(b)
    ensures c.RequestRange(lo, hi) == if lo <= r < hi then c.RequestBlock(r) else c
    decreases hi - lo
  {
    if lo == hi {
    } else {
      var asked := c.RequestBlock(lo);
      assert forall b :: asked.GotBlock(b) == c.GotBlock(b);
      RequestOnly(asked, lo + 1, hi, r);
    }
  }

  /** The next block in order. */
  lemma ResumedTrack(c: Client, r: nat, d: Datagram)
    requires Resumed(c, r, d.block) && r < d.block <= c.blockCount
    requires d.kind == Original ==> d.block < c.blockCount
    ensures var t := c.Track(d);
      && t.Inv() && t.received == c.received && t.blockCount == c.blockCount
      && t.table == [r]
      && (d.kind == Original ==> t.nextBlock > r)
      && t.gaplessToBlock < r
  {
    var asked := c;
    if d.block > c.nextBlock {
      RequestOnly(c, c.nextBlock, d.block, r);
      asked := c.RequestRange(c.nextBlock, d.block);
    }
    TrackInv(c, d);
    AdvanceStops(asked);
  }

  lemma ResumedReceive(c: Client, r: nat, a: Arrival)
    requires r < a.datagram.block < c.blockCount
    requires Resumed(c, r, a.datagram.block - 1)
    requires a.datagram.kind == Original && !a.ringFull && !a.due
    ensures Resumed(c.Receive(a).client, r, a.datagram.block)
  {
    var d := a.datagram;
    if c.GotBlock(d.block) && !c.restartPending {
    } else {
      RecordInv(c, d.block);
      var recorded := c.Record(d.block);
      if !recorded.Skips(d) {
        ResumedTrack(recorded, r, d);
      }
    }
  }

  /** The end of the transmission after a restart asks for the block that was skipped. */
  lemma ResumedTerminate(c: Client, r: nat, a: Arrival)
    requires 1 <= c.blockCount && Resumed(c, r, c.blockCount - 1)
    requires a.datagram == Datagram(c.blockCount, Terminate) && !a.ringFull && !a.due
    ensures AsksForAll(c.Receive(a).sent, c.Receive(a).client.Missing())
  {
    var d := a.datagram;
    RecordInv(c, d.block);
    var recorded := c.Record(d.block);
    ResumedTrack(recorded, r, d);
    ResumedFinish(recorded.Track(d), r, a, !c.GotBlock(d.block));
  }

  /** A short table is repeated request by request. */
  lemma ShortTable(c: Client, r: nat)
    requires |c.table| < MAX_RETRANSMISSION_BUFFER && r in c.table && r in c.Missing()
    ensures Retransmit(r) in c.Repeat().1
    ensures c.Repeat().0.Missing() == c.Missing()
  {
    var wanted := Wanted(c.table, c.Missing());
    WantedElements(c.table, c.Missing());
    RetransmitsListed(wanted, c.Repeat().1);
  }

  lemma ResumedSweep(t: Client, r: nat)
    requires t.table == [r] && t.gaplessToBlock < r < t.blockCount && r !in t.received
    requires forall b | 1 <= b <= t.blockCount && b != r :: b in t.received
    ensures t.Sweep().Missing() == {r} && r in t.Sweep().table && |t.Sweep().table| <= 2
  {
    RequestOnly(t, t.gaplessToBlock + 1, t.blockCount, r);
    InsertElements(t.sorting, [r], r);
    assert t.RequestBlock(r).Missing() == {r};
  }

  lemma ResumedFinish(t: Client, r: nat, a: Arrival, stored: bool)
    requires t.Inv() && t.table == [r] && t.gaplessToBlock < r < t.blockCount && r !in t.received
    requires forall b | 1 <= b <= t.blockCount && b != r :: b in t.received
    requires a.datagram.kind == Terminate && !a.due
    ensures AsksForAll(t.Finish(a, stored).sent, t.Finish(a, stored).client.Missing())
  {
    SomeMissing(t);
    assert r in t.Missing();
    ResumedSweep(t, r);
    ShortTable(t.Sweep(), r);
  }

  /** All arrivals of the round before the last. */
  lemma {:induction false} ResumedAll(c: Client, r: nat, arrivals: seq<Arrival>)
    requires Resumed(c, r, r)
    requires r + |arrivals| < c.blockCount
    requires forall a | a in arrivals :: !a.ringFull && !a.due
    requires forall i | 0 <= i < |arrivals| :: arrivals[i].datagram == Datagram(r + 1 + i, Original)
    ensures Resumed(ReceiveAll(c, arrivals).client, r, r + |arrivals|)
    ensures ReceiveAll(c, arrivals).client.blockCount == c.blockCount
    decreases |arrivals|
  {
    if arrivals == [] {
    } else {
      var front, last := arrivals[..|arrivals| - 1], arrivals[|arrivals| - 1];
      assert last in arrivals && forall a | a in front :: a in arrivals;
      ResumedAll(c, r, front);
      QuietReceiveAll(c, front);
      var o := ReceiveAll(c, front);
      ResumedReceive(o.client, r, last);
      ReceiveGrows(o.client, last);
    }
  }

  /** After a restart request for block r the server sends r + 1, ..., n. */
  lemma RestartSent(s: System, arrivals: seq<Arrival>)
    requires Session.Inv(s) && !s.done && Restarted(s.client, s.control)
    requires Exact(s, arrivals)
    ensures |arrivals| == s.client.blockCount - s.client.nextBlock
    ensures forall i | 0 <= i < |arrivals| ::
              arrivals[i].datagram == Step(s.client.nextBlock, s.client.blockCount, i)
  {
    var r := s.client.nextBlock;
    assert RestartPoint(s.server.block, s.control) == r;
    DrainEffect(s.server, s.control);
    var (s1, resent) := Drain(s.server, s.control);
    assert resent == [];
    BlastEffect(s1);
    assert RoundSent(s) == Blast(s1).1;
    assert |arrivals| == |Datagrams(arrivals)|;
    forall i | 0 <= i < |arrivals|
      ensures arrivals[i].datagram == Step(r, s.client.blockCount, i)
    {
      assert arrivals[i].datagram == Datagrams(arrivals)[i];
    }
  }

  lemma RestartHeard(c: Client, arrivals: seq<Arrival>)
    requires c.Inv() && Restarted(c, [Restart(c.nextBlock)])
    requires |arrivals| == c.blockCount - c.nextBlock
    requires forall a | a in arrivals :: !a.ringFull && !a.due
    requires forall i | 0 <= i < |arrivals| ::
               arrivals[i].datagram == Step(c.nextBlock, c.blockCount, i)
    ensures var o := ReceiveAll(c, arrivals); AsksForAll(o.sent, o.client.Missing())
  {
    var n, r := |arrivals|, c.nextBlock;
    var front, last := arrivals[..n - 1], arrivals[n - 1];
    assert last in arrivals && forall a | a in front :: a in arrivals;
    forall b | 1 <= b <= r && b != r
      ensures b in c.received
    {
      assert b !in c.Missing();
    }
    ResumedAll(c, r, front);
    QuietReceiveAll(c, front);
    var o := ReceiveAll(c, front);
    ResumedTerminate(o.client, r, last);
    var sent := o.client.Receive(last).sent;
    assert [] + sent == sent;
  }

  lemma RestartRound(s: System, arrivals: seq<Arrival>)
    requires Session.Inv(s) && !s.done && Restarted(s.client, s.control)
    requires Exact(s, arrivals) && !Round(s, arrivals).done
    ensures AsksForAll(Round(s, arrivals).control, Round(s, arrivals).client.Missing())
  {
    RestartSent(s, arrivals);
    RestartHeard(s.client, arrivals);
    var sent := ReceiveAll(s.client, arrivals).sent;
    assert sent + [] == sent;
  }

  /**
   * Main liveness result for either table: from any reachable state, three rounds that arrive in
   * order end the transfer, if the table refused nothing in the first.
   */
  lemma InOrderRoundsEnd(s0: System, a1: seq<Arrival>, a2: seq<Arrival>, a3: seq<Arrival>)
    requires Session.Inv(s0)
    requires !s0.done ==> Exact(s0, a1)
    requires !Round(s0, a1).done ==> Exact(Round(s0, a1), a2)
    requires !Round(Round(s0, a1), a2).done ==> Exact(Round(Round(s0, a1), a2), a3)
    requires Round(s0, a1).client.refused == s0.client.refused
    ensures Round(Round(Round(s0, a1), a2), a3).done
  {
    var s1 := Round(s0, a1);
    if !s1.done {
      ExactIsLossless(s0, a1);
      RoundReaches(s0, a1);
      FirstRound(s0, a1);
      AfterFirstRound(s1, a2, Round(s1, a2), a3);
    }
  }

  lemma AfterFirstRound(s1: System, a2: seq<Arrival>, s2: System, a3: seq<Arrival>)
    requires Session.Inv(s1) && !s1.done && Exact(s1, a2) && s2 == Round(s1, a2)
    requires !s2.done ==> Exact(s2, a3)
    requires AsksForAll(s1.control, s1.client.Missing()) || Restarted(s1.client, s1.control)
    ensures Round(s2, a3).done
  {
    ExactIsLossless(s1, a2);
    if AsksForAll(s1.control, s1.client.Missing()) {
      AskedForAllEnds(s1, a2);
    } else if !s2.done {
      RoundReaches(s1, a2);
      RestartRound(s1, a2);
      ExactIsLossless(s2, a3);
      AskedForAllEnds(s2, a3);
    }
  }
}
