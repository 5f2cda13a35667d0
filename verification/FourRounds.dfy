/**
 * Completion when the full table refuses requests: with the ordered table, four rounds that
 * arrive in order end the transfer, for files of any size and from any reachable state.
 */
module FourRounds {
  import opened Tsunami
  import opened Retransmit
  import opened Client
  import opened Server
  import opened Session
  import opened Completion
  import opened Rounds
  import opened InOrder

  // ---------- A full table ----------

  /** Requests never shorten the table, and are refused by a table at its cap only. */
  lemma {:induction false} RefusedWhenFull(c: Client, lo: nat, hi: nat)
    requires lo <= hi
    ensures var r := c.RequestRange(lo, hi);
      && |c.table| <= |r.table|
      && (r.refused != c.refused ==> |r.table| >= TABLE_CAP)
    decreases hi - lo
  {
    if lo == hi {
    } else {
      InsertSortedElements(c.table, lo);
      RefusedWhenFull(c.RequestBlock(lo), lo + 1, hi);
    }
  }

  /** An ascending table loses to compaction no more entries than there are stale blocks. */
  lemma {:induction false} StaleEntries(t: seq<nat>, missing: set<nat>, stale: set<nat>)
    requires Ascending(t)
    requires forall b | b in t && b !in missing :: b in stale
    ensures |t| <= |Wanted(t, missing)| + |stale|
    decreases |t|
  {
    if t == [] {
    } else {
      var front, last := t[..|t| - 1], t[|t| - 1];
      assert last in t && forall b | b in front :: b in t;
      if last in missing {
        StaleEntries(front, missing, stale);
      } else {
        StaleEntries(front, missing, stale - {last});
      }
    }
  }

  // ---------- The first round: whatever is wanted is listed, or the server restarts ----------

  /** The table holds missing blocks only, few enough to be requested at once, and they are. */
  ghost predicate Listed(c: Client, sent: seq<Request>) {
    && |c.table| < MAX_RETRANSMISSION_BUFFER
    && (forall b | b in c.table :: b in c.Missing())
    && |sent| == |c.table| && forall i | 0 <= i < |sent| :: sent[i] == Retransmit(c.table[i])
  }

  lemma FinishLists(t: Client, a: Arrival, stored: bool)
    requires t.Inv() && t.blockCount in t.received && a.datagram.kind == Terminate && !a.due
    requires t.gaplessToBlock < t.blockCount ==> t.gaplessToBlock + 1 !in t.received
    requires !t.Finish(a, stored).done
    ensures var o := t.Finish(a, stored);
      Listed(o.client, o.sent) || Restarted(o.client, o.sent)
  {
    SweepInv(t);
    SweepGrows(t);
    FirstMissing(t);
    RepeatLists(t.Sweep());
  }

  lemma RepeatLists(c: Client)
    requires c.Inv() && c.blockCount in c.received
    requires c.gaplessToBlock < c.blockCount && IsLeast(c.gaplessToBlock + 1, c.Missing())
    ensures var (r, sent) := c.Repeat();
      Listed(r, sent) || Restarted(r, sent)
  {
    WantedElements(c.table, c.Missing());
  }

  lemma TerminateLists(c: Client, a: Arrival)
    requires c.Inv() && !a.ringFull && !a.due && a.datagram == Datagram(c.blockCount, Terminate)
    requires !c.Receive(a).done
    ensures var o := c.Receive(a);
      Listed(o.client, o.sent) || Restarted(o.client, o.sent)
  {
    var recorded := c.Record(c.blockCount);
    RecordInv(c, c.blockCount);
    TrackInv(recorded, a.datagram);
    TrackGrows(recorded, a.datagram);
    TrackStops(recorded, a.datagram);
    FinishLists(recorded.Track(a.datagram), a, !c.GotBlock(c.blockCount));
  }

  lemma RoundLists(s: System, arrivals: seq<Arrival>)
    requires Session.Inv(s) && !s.done && Exact(s, arrivals) && !Round(s, arrivals).done
    ensures var s' := Round(s, arrivals);
      && (Listed(s'.client, s'.control) || Restarted(s'.client, s'.control))
      && s'.server.block == s'.client.blockCount && s'.client.blockCount in s'.client.received
  {
    LastOfRound(s, arrivals);
    RoundSentProper(s);
    var c, last := BeforeLast(s, arrivals), arrivals[|arrivals| - 1];
    ReceiveGrows(c, last);
    TerminateLists(c, last);
  }

  // ---------- The second round: the retransmissions of the listed blocks ----------

  /** The blocks that a listing asks for. */
  function Listing(table: seq<nat>): set<nat> {
    set b | b in table
  }

  lemma {:induction false} ListingSize(table: seq<nat>)
    ensures |Listing(table)| <= |table|
  {
    if table == [] {
    } else {
      var front := table[..|table| - 1];
      ListingSize(front);
      assert table == front + [table[|table| - 1]];
      assert Listing(table) == Listing(front) + {table[|table| - 1]};
    }
  }

  /** Moving the marks enters nothing into the table but missing blocks. */
  lemma TrackTable(c: Client, d: Datagram)
    requires c.gaplessToBlock <= c.blockCount
    ensures forall b | b in c.Track(d).table :: b in c.table || (c.nextBlock <= b && !c.GotBlock(b))
  {
    if d.block > c.nextBlock {
      RequestRangeAsks(c, c.nextBlock, d.block);
      AdvanceStops(c.RequestRange(c.nextBlock, d.block));
    } else {
      AdvanceStops(c);
    }
  }

  /** A pass over a retransmission requests blocks that were missing before it only. */
  lemma QuietTable(c: Client, a: Arrival)
    requires c.Inv() && 1 <= a.datagram.block <= c.blockCount
    requires a.datagram.kind != Terminate && !a.due
    ensures forall b | b in c.Receive(a).client.table :: b in c.table || !c.GotBlock(b)
  {
    TrackTable(c.Record(a.datagram.block), a.datagram);
  }

  lemma {:induction false} QuietTableAll(c: Client, arrivals: seq<Arrival>)
    requires c.Inv() && Orderly(c)
    requires forall b | b in c.table :: !c.GotBlock(b)
    requires forall a | a in arrivals ::
               Proper(a.datagram, c.blockCount) && a.datagram.kind != Terminate && !a.due
    ensures var o := ReceiveAll(c, arrivals);
      && (forall b | b in o.client.table :: !c.GotBlock(b))
      && (forall b | b in o.client.received :: b in c.received || exists a | a in arrivals :: a.datagram.block == b)
    decreases |arrivals|
  {
    if arrivals == [] {
    } else {
      var front, last := arrivals[..|arrivals| - 1], arrivals[|arrivals| - 1];
      assert last in arrivals && forall a | a in front :: a in arrivals;
      QuietTableAll(c, front);
      QuietReceiveAll(c, front);
      ReceiveAllKeeps(c, front);
      var o := ReceiveAll(c, front);
      QuietTable(o.client, last);
      ReceiveGrows(o.client, last);
    }
  }

  /** A sweep that meets refusals leaves many wanted entries in a table with few stale ones. */
  lemma FullSweepWantsMany(t: Client, stale: set<nat>)
    requires t.Inv() && t.sorting && t.gaplessToBlock < t.blockCount
    requires t.Sweep().refused != t.refused
    requires |stale| < MAX_RETRANSMISSION_BUFFER
    requires forall b | b in t.table && b !in t.Missing() :: b in stale
    ensures |Wanted(t.Sweep().table, t.Missing())| >= MAX_RETRANSMISSION_BUFFER
  {
    var swept := t.Sweep();
    SweepInv(t);
    RefusedWhenFull(t, t.gaplessToBlock + 1, t.blockCount);
    RequestRangeAsks(t, t.gaplessToBlock + 1, t.blockCount);
    forall b | b in swept.table && b !in t.Missing()
      ensures b in stale
    {
      assert b <= t.blockCount;
    }
    StaleEntries(swept.table, t.Missing(), stale);
  }

  /** With few stale entries, the end of the transmission covers all that is missing. */
  lemma FinishFew(t: Client, a: Arrival, stored: bool, stale: set<nat>)
    requires t.Inv() && t.sorting && t.blockCount in t.received && t.blocksLeft > 0
    requires a.datagram.kind == Terminate && !a.due
    requires t.gaplessToBlock < t.blockCount ==> t.gaplessToBlock + 1 !in t.received
    requires |stale| < MAX_RETRANSMISSION_BUFFER
    requires forall b | b in t.table && b !in t.Missing() :: b in stale
    ensures var o := t.Finish(a, stored);
      AsksForAll(o.sent, o.client.Missing()) || Restarted(o.client, o.sent)
  {
    FirstMissing(t);
    SweepGrows(t);
    if t.Sweep().refused == t.refused {
      FinishRestarts(t, a, stored);
    } else {
      FullSweepWantsMany(t, stale);
    }
  }

  lemma TerminateFew(c: Client, a: Arrival, stale: set<nat>)
    requires c.Inv() && Orderly(c) && c.sorting && c.blockCount in c.received
    requires !a.ringFull && !a.due && a.datagram == Datagram(c.blockCount, Terminate)
    requires !c.Receive(a).done
    requires |stale| < MAX_RETRANSMISSION_BUFFER
    requires forall b | b in c.table && b !in c.Missing() :: b in stale
    ensures var o := c.Receive(a);
      AsksForAll(o.sent, o.client.Missing()) || Restarted(o.client, o.sent)
  {
    var d := a.datagram;
    TrackInv(c, d);
    TrackGrows(c, d);
    TrackStops(c, d);
    TrackTable(c, d);
    var t := c.Track(d);
    FinishFew(t, a, false, stale);
  }

  /** After a listing the server sends the listed blocks and the last one. */
  lemma ListedSent(s: System, arrivals: seq<Arrival>)
    requires Session.Inv(s) && !s.done && Listed(s.client, s.control) && Exact(s, arrivals)
    requires s.server.block == s.server.blockCount
    ensures |arrivals| > 0
    ensures forall a | a in arrivals[..|arrivals| - 1] :: a.datagram.block in s.client.table
  {
    var c := s.client;
    assert forall q | q in s.control :: q.Retransmit? && q.block in c.table;
    NoRestartNoMove(s.server.block, s.control);
    DrainEffect(s.server, s.control);
    var (s1, resent) := Drain(s.server, s.control);
    BlastEffect(s1);
    assert |Blast(s1).1| == 1;
    assert |arrivals| == |Datagrams(arrivals)| == |resent| + 1;
    forall a | a in arrivals[..|arrivals| - 1]
      ensures a.datagram.block in c.table
    {
      var i :| 0 <= i < |resent| && arrivals[i] == a;
      assert a.datagram == Datagrams(arrivals)[i] == resent[i];
      assert Retransmit(a.datagram.block) in s.control;
    }
  }

  /** In the round after a listing few entries go stale, so that its end covers all that is missing. */
  lemma RoundAfterListing(s: System, arrivals: seq<Arrival>)
    requires Session.Inv(s) && !s.done && s.client.sorting && Listed(s.client, s.control)
    requires s.server.block == s.server.blockCount && s.client.blockCount in s.client.received
    requires Exact(s, arrivals) && !Round(s, arrivals).done
    ensures var s' := Round(s, arrivals);
      AsksForAll(s'.control, s'.client.Missing()) || Restarted(s'.client, s'.control)
  {
    ExactIsLossless(s, arrivals);
    OnlyLastTerminates(s, arrivals);
    RoundDelivers(s, arrivals);
    LastOfRound(s, arrivals);
    ListedSent(s, arrivals);
    ListingSize(s.client.table);
    var front, last := arrivals[..|arrivals| - 1], arrivals[|arrivals| - 1];
    assert forall a | a in front :: a in arrivals;
    StaleAfterListing(s.client, front);
    TerminateFew(BeforeLast(s, arrivals), last, Listing(s.client.table));
  }

  /** Of a table without stale entries, only what arrives can go stale. */
  lemma StaleAfterListing(c: Client, front: seq<Arrival>)
    requires c.Inv() && Orderly(c)
    requires forall b | b in c.table :: b in c.Missing()
    requires forall a | a in front ::
               Proper(a.datagram, c.blockCount) && !a.due
               && a.datagram.kind != Terminate && a.datagram.block in c.table
    ensures var r := ReceiveAll(c, front).client;
      forall b | b in r.table && b !in r.Missing() :: b in Listing(c.table)
  {
    ReceiveAllKeeps(c, front);
    QuietReceiveAll(c, front);
    QuietTableAll(c, front);
    var r := ReceiveAll(c, front).client;
    forall b | b in r.table && b !in r.Missing()
      ensures b in Listing(c.table)
    {
      assert 1 <= b <= r.blockCount;
      assert b in r.received && b !in c.received;
    }
  }

  // ---------- Four rounds ----------

  /**
   * Main liveness result without any assumption on the table's cap: with the ordered table, four
   * rounds that arrive in order end the transfer, from any reachable state.
   */
  lemma FourRoundsEnd(s0: System, a1: seq<Arrival>, a2: seq<Arrival>, a3: seq<Arrival>, a4: seq<Arrival>)
    requires Session.Inv(s0) && s0.client.sorting
    requires !s0.done ==> Exact(s0, a1)
    requires !Round(s0, a1).done ==> Exact(Round(s0, a1), a2)
    requires !Round(Round(s0, a1), a2).done ==> Exact(Round(Round(s0, a1), a2), a3)
    requires !Round(Round(Round(s0, a1), a2), a3).done ==>
               Exact(Round(Round(Round(s0, a1), a2), a3), a4)
    ensures Round(Round(Round(Round(s0, a1), a2), a3), a4).done
  {
    var s1 := Round(s0, a1);
    if !s1.done {
      ExactIsLossless(s0, a1);
      RoundReaches(s0, a1);
      RoundGrows(s0, a1);
      RoundLists(s0, a1);
      var s2 := Round(s1, a2);
      if Restarted(s1.client, s1.control) {
        AfterFirstRound(s1, a2, s2, a3);
      } else if !s2.done {
        AfterListing(s1, a2, s2, a3, Round(s2, a3), a4);
      }
    }
  }

  lemma AfterListing(s1: System, a2: seq<Arrival>, s2: System, a3: seq<Arrival>, s3: System, a4: seq<Arrival>)
    requires Session.Inv(s1) && !s1.done && s1.client.sorting && Listed(s1.client, s1.control)
    requires s1.server.block == s1.server.blockCount && s1.client.blockCount in s1.client.received
    requires Exact(s1, a2) && s2 == Round(s1, a2) && !s2.done
    requires Exact(s2, a3) && s3 == Round(s2, a3)
    requires !s3.done ==> Exact(s3, a4)
    ensures Round(s3, a4).done
  {
    ExactIsLossless(s1, a2);
    RoundReaches(s1, a2);
    RoundAfterListing(s1, a2);
    AfterFirstRound(s2, a3, s3, a4);
  }

  // ---------- Files smaller than the cap ----------

  /** With the ordered table, a file with fewer blocks than the cap never fills the table. */
  predicate Small(c: Client) {
    c.sorting && c.blockCount < TABLE_CAP
  }

  lemma SmallRange(c: Client, lo: nat, hi: nat)
    requires c.Inv() && Orderly(c) && Small(c) && 1 <= lo <= hi
    ensures c.RequestRange(lo, hi).refused == c.refused
  {
    var r := c.RequestRange(lo, hi);
    RequestRangeAsks(c, lo, hi);
    RefusedWhenFull(c, lo, hi);
    forall b | b in r.table
      ensures b in Blocks(c.blockCount)
    {
    }
    AscendingSize(r.table, Blocks(c.blockCount));
    BlocksSize(c.blockCount);
  }

  lemma SmallTrack(c: Client, d: Datagram)
    requires c.Inv() && Orderly(c) && Small(c)
    ensures c.Track(d).refused == c.refused
  {
    if d.block > c.nextBlock {
      SmallRange(c, c.nextBlock, d.block);
      RequestRangeAsks(c, c.nextBlock, d.block);
      AdvanceStops(c.RequestRange(c.nextBlock, d.block));
    } else {
      AdvanceStops(c);
    }
  }

  lemma SmallFinish(c: Client, a: Arrival, stored: bool)
    requires c.Inv() && Orderly(c) && Small(c)
    ensures c.Finish(a, stored).client.refused == c.refused
  {
    if c.gaplessToBlock < c.blockCount {
      SmallRange(c, c.gaplessToBlock + 1, c.blockCount);
    }
  }

  /** No request of such a transfer is ever refused. */
  lemma SmallReceive(c: Client, a: Arrival)
    requires c.Inv() && Orderly(c) && Small(c) && Proper(a.datagram, c.blockCount)
    ensures c.Receive(a).client.refused == c.refused
  {
    var d := a.datagram;
    var got := c.GotBlock(d.block);
    if a.ringFull || (got && d.kind != Terminate && !c.restartPending) {
    } else {
      RecordInv(c, d.block);
      var recorded := c.Record(d.block);
      if !recorded.Skips(d) {
        SmallTrack(recorded, d);
        TrackInv(recorded, d);
        TrackOrderly(recorded, d);
        TrackGrows(recorded, d);
        SmallFinish(recorded.Track(d), a, !got);
      }
    }
  }

  lemma {:induction false} SmallReceiveAll(c: Client, arrivals: seq<Arrival>)
    requires c.Inv() && Orderly(c) && Small(c)
    requires forall a | a in arrivals :: Proper(a.datagram, c.blockCount)
    ensures ReceiveAll(c, arrivals).client.refused == c.refused
    decreases |arrivals|
  {
    if arrivals == [] {
    } else {
      var front, last := arrivals[..|arrivals| - 1], arrivals[|arrivals| - 1];
      assert last in arrivals && forall a | a in front :: a in arrivals;
      SmallReceiveAll(c, front);
      ReceiveAllKeeps(c, front);
      SmallReceive(ReceiveAll(c, front).client, last);
    }
  }

  lemma SmallRound(s: System, arrivals: seq<Arrival>)
    requires Session.Inv(s) && Small(s.client) && Lossless(s, arrivals)
    ensures Round(s, arrivals).client.refused == s.client.refused
  {
    if !s.done {
      RoundDelivers(s, arrivals);
      SmallReceiveAll(s.client, arrivals);
    }
  }

  /**
   * Main liveness result for files below the cap, with the ordered table: three rounds without
   * loss end the transfer from any reachable state, in whatever order everything arrives,
   * duplicated or not, among stale datagrams, and however often requests are repeated.
   */
  lemma SmallFileThreeRoundsEnd(s0: System, a1: seq<Arrival>, a2: seq<Arrival>, a3: seq<Arrival>)
    requires Session.Inv(s0) && Small(s0.client)
    requires Lossless(s0, a1)
    requires Lossless(Round(s0, a1), a2)
    requires Lossless(Round(Round(s0, a1), a2), a3)
    ensures Round(Round(Round(s0, a1), a2), a3).done
  {
    var s1 := Round(s0, a1);
    RoundReaches(s0, a1);
    RoundGrows(s0, a1);
    SmallRound(s0, a1);
    SmallRound(s1, a2);
    ThreeRoundsEnd(s0, a1, a2, a3);
  }
}
