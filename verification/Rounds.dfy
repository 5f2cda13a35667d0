/**
 * Completion: once no datagram is lost any more, the client breaks out of its receive loop
 * within three rounds, whatever state the transfer had reached.  In a round the server reads
 * all outstanding requests and then sends up to and including the last block; everything sent
 * in the round arrives.
 */
module Rounds {
  import opened Tsunami
  import opened Retransmit
  import opened Client
  import opened Server
  import opened Session
  import opened Completion
  import opened Runs

  // ---------- One round ----------

  /** The server reads all outstanding requests. */
  function Drain(s: Server, control: seq<Request>): (Server, seq<Datagram>)
    decreases |control|
  {
    if control == [] then (s, [])
    else
      var (s1, sent1) := s.Accept(control[0]);
      var (s2, sent2) := Drain(s1, control[1..]);
      (s2, sent1 + sent2)
  }

  /** The server sends block after block until it has sent the last one. */
  function Blast(s: Server): (Server, seq<Datagram>)
    decreases s.blockCount - s.block
  {
    var (s1, d) := s.SendNext();
    if s1.block >= s1.blockCount || s1.block <= s.block then (s1, [d])
    else
      var (s2, rest) := Blast(s1);
      (s2, [d] + rest)
  }

  function RoundServer(s: System): Server {
    Blast(Drain(s.server, s.control).0).0
  }

  /** What the server sends in a round. */
  function RoundSent(s: System): seq<Datagram> {
    Drain(s.server, s.control).1 + Blast(Drain(s.server, s.control).0).1
  }

  function Datagrams(arrivals: seq<Arrival>): seq<Datagram> {
    seq(|arrivals|, i requires 0 <= i < |arrivals| => arrivals[i].datagram)
  }

  /**
   * A round without loss: everything sent in the round arrives, in any order, duplicated or not,
   * among stale datagrams of earlier rounds; the last arrival marks the end of the transmission.
   */
  predicate Lossless(s: System, arrivals: seq<Arrival>) {
    && |arrivals| > 0
    && arrivals[|arrivals| - 1].datagram == Datagram(s.client.blockCount, Terminate)
    && (forall a | a in arrivals :: !a.ringFull)
    && (forall a | a in arrivals :: a.datagram in s.net || a.datagram in RoundSent(s))
    && (forall d | d in RoundSent(s) :: d in Datagrams(arrivals))
  }

  /** The state after a round. */
  function Round(s: System, arrivals: seq<Arrival>): System {
    if s.done then s
    else
      var o := ReceiveAll(s.client, arrivals);
      System(RoundServer(s), s.net + ToSet(RoundSent(s)), o.sent + if o.done then [Stop] else [],
             o.client, o.done)
  }

  // ---------- The server's part of a round ----------

  /** Draining answers every request, and moves the server to the last restart point. */
  lemma {:induction false} DrainEffect(s: Server, control: seq<Request>)
    requires s.Inv() && !s.stopped && Stop !in control
    requires forall q | q in control :: Legal(q, s.blockCount)
    ensures var (s', sent) := Drain(s, control);
      && s' == s.(block := RestartPoint(s.block, control))
      && s'.Inv()
      && (forall b | Retransmit(b) in control :: Datagram(b, Retransmission) in sent)
      && (forall d | d in sent ::
            Proper(d, s.blockCount) && d.kind == Retransmission && Retransmit(d.block) in control)
    decreases |control|
  {
    if control == [] {
    } else {
      var (s1, sent1) := s.Accept(control[0]);
      assert control[0] in control;
      assert forall q | q in control[1..] :: q in control;
      DrainEffect(s1, control[1..]);
      var sent2 := Drain(s1, control[1..]).1;
      forall b | Retransmit(b) in control
        ensures Datagram(b, Retransmission) in sent1 + sent2
      {
        if Retransmit(b) == control[0] {
          assert Datagram(b, Retransmission) in sent1;
        } else {
          assert Retransmit(b) in control[1..];
        }
      }
    }
  }

  /** From block p on, the server sends p + 1, ..., n in order, and n at least. */
  lemma {:induction false} BlastEffect(s: Server)
    requires s.Inv()
    ensures var (s', sent) := Blast(s);
      && s' == s.(block := s.blockCount)
      && |sent| == (if s.block < s.blockCount then s.blockCount - s.block else 1)
      && (forall i | 0 <= i < |sent| :: sent[i] == Step(s.block, s.blockCount, i))
    decreases s.blockCount - s.block
  {
    var (s1, d) := s.SendNext();
    if s1.block >= s1.blockCount || s1.block <= s.block {
    } else {
      BlastEffect(s1);
      var rest := Blast(s1).1;
      forall i | 0 < i < |[d] + rest|
        ensures ([d] + rest)[i] == Step(s.block, s.blockCount, i)
      {
        assert ([d] + rest)[i] == rest[i - 1];
      }
    }
  }

  lemma BlastCovers(s: Server, b: nat)
    requires s.Inv() && s.block < b <= s.blockCount
    ensures exists d :: d in Blast(s).1 && d.block == b
  {
    BlastEffect(s);
    var d := Blast(s).1[b - s.block - 1];
    assert d in Blast(s).1 && d.block == b;
  }

  lemma RoundSentProper(s: System)
    requires Session.Inv(s) && !s.done
    ensures RoundServer(s) == s.server.(block := s.server.blockCount)
    ensures forall d | d in RoundSent(s) :: Proper(d, s.client.blockCount)
  {
    DrainEffect(s.server, s.control);
    BlastEffect(Drain(s.server, s.control).0);
  }

  // ---------- The client's part of a round ----------

  lemma {:induction false} ReceiveAllKeeps(c: Client, arrivals: seq<Arrival>)
    requires c.Inv() && Orderly(c)
    requires forall a | a in arrivals :: Proper(a.datagram, c.blockCount)
    ensures var o := ReceiveAll(c, arrivals);
      && o.client.Inv() && Orderly(o.client) && Grows(c, o.client)
      && (forall q | q in o.sent :: Legal(q, c.blockCount) && !q.Stop?)
      && (o.done ==> o.client.received == Blocks(c.blockCount))
      && (!o.done ==> forall a | a in arrivals && !a.ringFull :: a.datagram.block in o.client.received)
    decreases |arrivals|
  {
    if arrivals == [] {
    } else {
      var front, last := arrivals[..|arrivals| - 1], arrivals[|arrivals| - 1];
      assert arrivals == front + [last];
      assert last in arrivals && forall a | a in front :: a in arrivals;
      ReceiveAllKeeps(c, front);
      var o := ReceiveAll(c, front);
      if !o.done {
        ReceiveOrderly(o.client, last);
        ReceiveGrows(o.client, last);
      }
    }
  }

  // ---------- What a round achieves ----------

  /** What the requests outstanding at the start of a round ask for has arrived at its end. */
  ghost predicate Delivered(s: System, received: set<nat>) {
    && (forall b | Retransmit(b) in s.control :: b in received)
    && (forall b | RestartPoint(s.server.block, s.control) < b <= s.client.blockCount :: b in received)
  }

  lemma RoundDelivers(s: System, arrivals: seq<Arrival>)
    requires Session.Inv(s) && !s.done && Lossless(s, arrivals)
    ensures forall a | a in arrivals :: Proper(a.datagram, s.client.blockCount)
    ensures !Round(s, arrivals).done ==> Delivered(s, Round(s, arrivals).client.received)
  {
    RoundSentProper(s);
    DrainEffect(s.server, s.control);
    ReceiveAllKeeps(s.client, arrivals);
    var s1 := Drain(s.server, s.control).0;
    if !Round(s, arrivals).done {
      forall d | d in RoundSent(s)
        ensures d.block in Round(s, arrivals).client.received
      {
        assert d in Datagrams(arrivals);
        var i :| 0 <= i < |arrivals| && Datagrams(arrivals)[i] == d;
        assert arrivals[i] in arrivals;
      }
      forall b | Retransmit(b) in s.control
        ensures b in Round(s, arrivals).client.received
      {
        assert Datagram(b, Retransmission) in RoundSent(s);
      }
      forall b | RestartPoint(s.server.block, s.control) < b <= s.client.blockCount
        ensures b in Round(s, arrivals).client.received
      {
        BlastCovers(s1, b);
        var d :| d in Blast(s1).1 && d.block == b;
        assert d in RoundSent(s);
      }
    }
  }

  /** The last arrival, which marks the end of the transmission, covers all that is still missing. */
  lemma LastArrivalCovers(c: Client, arrivals: seq<Arrival>)
    requires c.Inv() && Orderly(c) && |arrivals| > 0
    requires forall a | a in arrivals :: Proper(a.datagram, c.blockCount) && !a.ringFull
    requires arrivals[|arrivals| - 1].datagram == Datagram(c.blockCount, Terminate)
    requires !ReceiveAll(c, arrivals).done
    requires ReceiveAll(c, arrivals).client.refused == c.refused
    ensures var o := ReceiveAll(c, arrivals);
      && o.client.Missing() != {}
      && Covers(o.sent, o.client.Missing())
      && (c.sorting && |o.client.Missing()| < MAX_RETRANSMISSION_BUFFER ==>
            AsksForAll(o.sent, o.client.Missing()))
  {
    var front, last := arrivals[..|arrivals| - 1], arrivals[|arrivals| - 1];
    assert last in arrivals && forall a | a in front :: a in arrivals;
    ReceiveAllKeeps(c, front);
    var o := ReceiveAll(c, front);
    ReceiveGrows(o.client, last);
    TerminateCovers(o.client, last);
    var o' := o.client.Receive(last);
    SomeMissing(o'.client);
    CoversPrepended(o.sent, o'.sent, o'.client.Missing());
  }

  /** A round without refusals that does not end the transfer covers all that is still missing. */
  lemma RoundCovers(s: System, arrivals: seq<Arrival>)
    requires Session.Inv(s) && !s.done && Lossless(s, arrivals)
    requires !Round(s, arrivals).done
    requires Round(s, arrivals).client.refused == s.client.refused
    ensures var s' := Round(s, arrivals);
      && s'.client.Missing() != {}
      && Covers(s'.control, s'.client.Missing())
      && (s.client.sorting && |s'.client.Missing()| < MAX_RETRANSMISSION_BUFFER ==>
            AsksForAll(s'.control, s'.client.Missing()))
  {
    RoundDelivers(s, arrivals);
    LastArrivalCovers(s.client, arrivals);
    var sent := ReceiveAll(s.client, arrivals).sent;
    assert sent + [] == sent;
  }

  /** The end of the transmission ends the transfer unless a block is missing. */
  lemma RoundUnfinished(s: System, arrivals: seq<Arrival>)
    requires Session.Inv(s) && !s.done && Lossless(s, arrivals)
    requires !Round(s, arrivals).done
    ensures Round(s, arrivals).client.Missing() != {}
  {
    RoundDelivers(s, arrivals);
    var front, last := arrivals[..|arrivals| - 1], arrivals[|arrivals| - 1];
    assert last in arrivals && forall a | a in front :: a in arrivals;
    ReceiveAllKeeps(s.client, front);
    var o := ReceiveAll(s.client, front);
    ReceiveGrows(o.client, last);
    TerminateCovers(o.client, last);
    SomeMissing(o.client.Receive(last).client);
  }

  lemma CoversPrepended(before: seq<Request>, sent: seq<Request>, missing: set<nat>)
    requires Covers(sent, missing)
    ensures Covers(before + sent, missing)
    ensures AsksForAll(sent, missing) ==> AsksForAll(before + sent, missing)
  {
    if !AsksForAll(sent, missing) {
      var r: nat :| IsLeast(r, missing) && forall from: nat :: RestartPoint(from, sent) == r;
      forall from
        ensures RestartPoint(from, before + sent) == r
      {
        RestartPointConcat(from, before, sent);
      }
    }
  }

  // ---------- A round is a run of the transfer ----------

  lemma {:induction false} DrainReaches(start: System, s: System)
    requires Reaches(start, s, Next) && !s.server.stopped && Stop !in s.control
    ensures var (server, sent) := Drain(s.server, s.control);
      Reaches(start, s.(server := server, net := s.net + ToSet(sent), control := []), Next)
    decreases |s.control|
  {
    var (server, sent) := Drain(s.server, s.control);
    if s.control == [] {
      assert s.net + ToSet(sent) == s.net;
    } else {
      var (s1, sent1) := s.server.Accept(s.control[0]);
      var mid := s.(server := s1, net := s.net + ToSet(sent1), control := s.control[1..]);
      assert ServerReads(s, mid);
      ReachesNext(start, s, mid, Next);
      assert s.control[0] in s.control && forall q | q in s.control[1..] :: q in s.control;
      DrainReaches(start, mid);
      var sent2 := Drain(s1, s.control[1..]).1;
      assert s.net + ToSet(sent1) + ToSet(sent2) == s.net + ToSet(sent1 + sent2);
    }
  }

  lemma {:induction false} BlastReaches(start: System, s: System)
    requires Reaches(start, s, Next) && !s.server.stopped
    ensures var (server, sent) := Blast(s.server);
      Reaches(start, s.(server := server, net := s.net + ToSet(sent)), Next)
    decreases s.server.blockCount - s.server.block
  {
    var (server, sent) := Blast(s.server);
    var (s1, d) := s.server.SendNext();
    var mid := s.(server := s1, net := s.net + {d});
    assert ServerSends(s, mid);
    ReachesNext(start, s, mid, Next);
    if s1.block >= s1.blockCount || s1.block <= s.server.block {
      assert ToSet([d]) == {d};
    } else {
      BlastReaches(start, mid);
      var rest := Blast(s1).1;
      assert s.net + {d} + ToSet(rest) == s.net + ToSet([d] + rest);
    }
  }

  /** The state once the client met some arrivals with the given outcome. */
  function Heard(s: System, o: Outcome): System {
    s.(client := o.client, done := o.done,
       control := s.control + (o.sent + if o.done then [Stop] else []))
  }

  lemma HeardStep(s: System, o: Outcome, a: Arrival)
    requires !o.done && a.datagram in s.net
    ensures var o' := o.client.Receive(a);
      ClientReceives(Heard(s, o), a, Heard(s, o'.(sent := o.sent + o'.sent)))
  {
    var o' := o.client.Receive(a);
    var stop := if o'.done then [Stop] else [];
    assert s.control + (o.sent + []) + o'.sent + stop == s.control + (o.sent + o'.sent + stop);
  }

  lemma {:induction false} ReceiveAllReaches(start: System, s: System, arrivals: seq<Arrival>)
    requires Reaches(start, s, Next) && !s.done
    requires forall a | a in arrivals :: a.datagram in s.net
    ensures Reaches(start, Heard(s, ReceiveAll(s.client, arrivals)), Next)
    decreases |arrivals|
  {
    if arrivals == [] {
      assert s.control + ([] + []) == s.control;
    } else {
      var front, last := arrivals[..|arrivals| - 1], arrivals[|arrivals| - 1];
      assert last in arrivals && forall a | a in front :: a in arrivals;
      ReceiveAllReaches(start, s, front);
      var o := ReceiveAll(s.client, front);
      if !o.done {
        HeardStep(s, o, last);
        ReachesNext(start, Heard(s, o), Heard(s, ReceiveAll(s.client, arrivals)), Next);
      }
    }
  }

  /** A round is a run of the transfer, so that it leads to a reachable state. */
  lemma RoundReaches(s: System, arrivals: seq<Arrival>)
    requires Session.Inv(s) && Lossless(s, arrivals)
    ensures Reaches(s, Round(s, arrivals), Next) && Session.Inv(Round(s, arrivals))
  {
    ReachesSelf(s, Next);
    if !s.done {
      DrainReaches(s, s);
      DrainEffect(s.server, s.control);
      var (s1, resent) := Drain(s.server, s.control);
      var drained := s.(server := s1, net := s.net + ToSet(resent), control := []);
      BlastReaches(s, drained);
      var (s2, walked) := Blast(s1);
      var sent := drained.(server := s2, net := drained.net + ToSet(walked));
      assert sent.net == s.net + ToSet(RoundSent(s));
      ReceiveAllReaches(s, sent, arrivals);
      var o := ReceiveAll(s.client, arrivals);
      assert [] + (o.sent + if o.done then [Stop] else []) == o.sent + if o.done then [Stop] else [];
    }
    ReachesInv(s, Round(s, arrivals));
  }

  // ---------- Three rounds ----------

  /** If every missing block was requested, a round ends the transfer. */
  lemma AskedForAllEnds(s: System, arrivals: seq<Arrival>)
    requires Session.Inv(s) && !s.done && Lossless(s, arrivals)
    requires AsksForAll(s.control, s.client.Missing())
    ensures Round(s, arrivals).done
  {
    if !Round(s, arrivals).done {
      RoundDelivers(s, arrivals);
      RoundGrows(s, arrivals);
      var r := Round(s, arrivals).client;
      assert r.Missing() <= s.client.Missing();
      assert s.client.Missing() !! r.Missing();
      assert r.Missing() == {};
      RoundUnfinished(s, arrivals);
    }
  }

  lemma RoundGrows(s: System, arrivals: seq<Arrival>)
    requires Session.Inv(s) && Lossless(s, arrivals)
    ensures Grows(s.client, Round(s, arrivals).client)
  {
    if !s.done {
      RoundDelivers(s, arrivals);
      ReceiveAllKeeps(s.client, arrivals);
    }
  }

  /** A restart at the first missing block leaves at most that block missing. */
  lemma RestartLeavesOne(s: System, arrivals: seq<Arrival>, r: nat)
    requires Session.Inv(s) && !s.done && Lossless(s, arrivals)
    requires IsLeast(r, s.client.Missing()) && RestartPoint(s.server.block, s.control) == r
    requires !Round(s, arrivals).done
    ensures Round(s, arrivals).client.Missing() <= {r}
  {
    RoundDelivers(s, arrivals);
    RoundGrows(s, arrivals);
    forall b | b in Round(s, arrivals).client.Missing()
      ensures b == r
    {
      assert b in s.client.Missing();
    }
  }

  /** So the block before which the server resumed is requested at the end of that round. */
  lemma RestartThenAsked(s: System, arrivals: seq<Arrival>)
    requires Session.Inv(s) && !s.done && Lossless(s, arrivals) && s.client.sorting
    requires Covers(s.control, s.client.Missing()) && !AsksForAll(s.control, s.client.Missing())
    requires Round(s, arrivals).client.refused == s.client.refused
    requires !Round(s, arrivals).done
    ensures AsksForAll(Round(s, arrivals).control, Round(s, arrivals).client.Missing())
  {
    var r: nat :| IsLeast(r, s.client.Missing()) && forall from: nat :: RestartPoint(from, s.control) == r;
    RestartLeavesOne(s, arrivals, r);
    SubsetSize(Round(s, arrivals).client.Missing(), {r});
    RoundCovers(s, arrivals);
  }

  /** Two more rounds suffice once all that is missing is covered. */
  lemma CoveredEnds(s: System, a1: seq<Arrival>, s1: System, a2: seq<Arrival>)
    requires Session.Inv(s) && s.client.sorting && !s.done
    requires Covers(s.control, s.client.Missing())
    requires Lossless(s, a1) && s1 == Round(s, a1) && Lossless(s1, a2)
    requires s1.client.refused == s.client.refused
    ensures Round(s1, a2).done
  {
    if AsksForAll(s.control, s.client.Missing()) {
      AskedForAllEnds(s, a1);
    } else if !s1.done {
      RoundReaches(s, a1);
      RestartThenAsked(s, a1);
      AskedForAllEnds(s1, a2);
    }
  }

  /**
   * Main liveness result, for the ordered table.  From any reachable state: three rounds without
   * loss, in the first two of which the table refuses nothing, end the transfer.  Requests may also be repeated at
   * any other time, stale datagrams may arrive, and all may arrive out of order and duplicated.
   */
  lemma ThreeRoundsEnd(s0: System, a1: seq<Arrival>, a2: seq<Arrival>, a3: seq<Arrival>)
    requires Session.Inv(s0) && s0.client.sorting
    requires Lossless(s0, a1)
    requires Lossless(Round(s0, a1), a2)
    requires Lossless(Round(Round(s0, a1), a2), a3)
    requires Round(Round(s0, a1), a2).client.refused == s0.client.refused
    ensures Round(Round(Round(s0, a1), a2), a3).done
  {
    var s1 := Round(s0, a1);
    var s2 := Round(s1, a2);
    RoundReaches(s0, a1);
    RoundGrows(s0, a1);
    RoundReaches(s1, a2);
    RoundGrows(s1, a2);
    if !s1.done {
      RoundCovers(s0, a1);
      CoveredEnds(s1, a2, s2, a3);
    }
  }

  /** The table of the client is ordered, a choice that no step changes. */
  ghost predicate Ordered(s: System) {
    Session.Inv(s) && s.client.sorting
  }

  lemma OrderedKept(s: System, s': System)
    requires Ordered(s) && Next(s, s')
    ensures Ordered(s')
  {
    NextInv(s, s');
    if !ServerReads(s, s') && !ServerSends(s, s') {
      var a: Arrival :| a.datagram in s.net && ClientReceives(s, a, s');
      ReceiveGrows(s.client, a);
    }
  }

  function AfterRounds(s: System, rounds: seq<seq<Arrival>>): System
    decreases |rounds|
  {
    if rounds == [] then s else AfterRounds(Round(s, rounds[0]), rounds[1..])
  }

  predicate AllLossless(s: System, rounds: seq<seq<Arrival>>)
    decreases |rounds|
  {
    rounds == [] || (Lossless(s, rounds[0]) && AllLossless(Round(s, rounds[0]), rounds[1..]))
  }

  lemma {:induction false} DoneForGood(s: System, rounds: seq<seq<Arrival>>)
    requires s.done
    ensures AfterRounds(s, rounds) == s
    decreases |rounds|
  {
    if rounds == [] {
    } else {
      DoneForGood(s, rounds[1..]);
    }
  }

  /**
   * The same, said of whole transfers: whatever happened since the start, from the third round
   * without loss on the client is out of its loop and has every block.
   */
  lemma TransferEnds(n: nat, onWireEstimate: nat, s0: System, rounds: seq<seq<Arrival>>)
    requires 1 <= n && n + 1 < TWO_TO_THE_32 && Reaches(Initial(n, true, onWireEstimate), s0, Next)
    requires |rounds| >= 3 && AllLossless(s0, rounds)
    requires AfterRounds(s0, rounds[..2]).client.refused == s0.client.refused
    ensures var end := AfterRounds(s0, rounds);
      end.done && end.client.received == Blocks(end.client.blockCount)
  {
    InitialInv(n, true, onWireEstimate);
    forall s, s' | Ordered(s) && Next(s, s')
      ensures Ordered(s')
    {
      OrderedKept(s, s');
    }
    ReachesKeeps(Initial(n, true, onWireEstimate), s0, Next, Ordered);
    var s1, s2, s3 := UnrollThree(s0, rounds);
    ThreeRoundsEnd(s0, rounds[0], rounds[1], rounds[2]);
    RoundReaches(s0, rounds[0]);
    RoundReaches(s1, rounds[1]);
    RoundReaches(s2, rounds[2]);
    DoneForGood(s3, rounds[3..]);
  }

  lemma UnrollThree(s0: System, rounds: seq<seq<Arrival>>) returns (s1: System, s2: System, s3: System)
    requires |rounds| >= 3 && AllLossless(s0, rounds)
    ensures s1 == Round(s0, rounds[0]) && s2 == Round(s1, rounds[1]) && s3 == Round(s2, rounds[2])
    ensures Lossless(s0, rounds[0]) && Lossless(s1, rounds[1]) && Lossless(s2, rounds[2])
    ensures AfterRounds(s0, rounds) == AfterRounds(s3, rounds[3..])
    ensures AfterRounds(s0, rounds[..2]) == s2
  {
    s1 := UnrollOne(s0, rounds, 2);
    s2 := UnrollOne(s1, rounds[1..], 1);
    s3 := UnrollOne(s2, rounds[2..], 0);
    assert rounds[1..][..1] == rounds[..2][1..];
  }

  lemma UnrollOne(s: System, rounds: seq<seq<Arrival>>, k: nat) returns (s': System)
    requires |rounds| > k && AllLossless(s, rounds)
    ensures s' == Round(s, rounds[0]) && Lossless(s, rounds[0]) && AllLossless(s', rounds[1..])
    ensures AfterRounds(s, rounds) == AfterRounds(s', rounds[1..])
    ensures AfterRounds(s, rounds[..k]) == if k == 0 then s else AfterRounds(s', rounds[..k][1..])
    ensures k > 0 ==> rounds[1..][1..] == rounds[2..]
  {
    s' := Round(s, rounds[0]);
  }
}
