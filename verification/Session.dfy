/**
 * A transfer as a whole: the server, the client, a UDP channel that may lose, duplicate and
 * reorder datagrams, and the reliable control connection.
 */
module Session {
  import opened Tsunami
  import opened Retransmit
  import opened Client
  import opened Server
  import opened Runs

  datatype System = System(
    server: Server,
    net: set<Datagram>,      // every datagram ever sent: any of them may arrive, any number of times
    control: seq<Request>,   // requests sent and not yet read, in order
    client: Client,
    done: bool)              // the client broke out of its receive loop

  function Initial(n: nat, sorting: bool, onWireEstimate: nat): System {
    System(Server.Start(n), {}, [], Client.Start(n, sorting, onWireEstimate), false)
  }

  function ToSet(sent: seq<Datagram>): set<Datagram> {
    set d | d in sent
  }

  // ---------- Steps ----------

  /** The server reads and handles the oldest request. */
  predicate ServerReads(s: System, s': System) {
    && |s.control| > 0 && !s.server.stopped
    && var (server, sent) := s.server.Accept(s.control[0]);
       s' == s.(server := server, net := s.net + ToSet(sent), control := s.control[1..])
  }

  /** The server sees no request, whether or not one is on its way, and sends the next block. */
  predicate ServerSends(s: System, s': System) {
    && !s.server.stopped
    && var (server, d) := s.server.SendNext();
       s' == s.(server := server, net := s.net + {d})
  }

  /** A datagram arrives at the client, which may break out and ask the server to stop. */
  predicate ClientReceives(s: System, a: Arrival, s': System) {
    && !s.done && a.datagram in s.net
    && var o := s.client.Receive(a);
       s' == s.(client := o.client, control := s.control + o.sent + if o.done then [Stop] else [],
                done := o.done)
  }

  ghost predicate Next(s: System, s': System) {
    || ServerReads(s, s')
    || ServerSends(s, s')
    || exists a :: ClientReceives(s, a, s')
  }

  // ---------- What holds in every reachable state ----------

  /** Datagrams as the server numbers and marks them. */
  predicate Proper(d: Datagram, n: nat) {
    && 1 <= d.block <= n
    && (d.kind.Original? ==> d.block < n)
    && (d.kind.Terminate? ==> d.block == n)
  }

  /** Requests that name blocks name blocks of the file. */
  predicate Legal(r: Request, n: nat) {
    r.Retransmit? || r.Restart? ==> 1 <= r.block <= n
  }

  /** The client expects a block of the file, and asks for blocks of the file. */
  predicate Orderly(c: Client) {
    1 <= c.nextBlock <= c.blockCount && forall b | b in c.table :: 1 <= b
  }

  ghost predicate Inv(s: System) {
    && s.client.Inv() && s.server.Inv()
    && s.server.blockCount == s.client.blockCount
    && Orderly(s.client)
    && (forall d | d in s.net :: Proper(d, s.client.blockCount))
    && (forall r | r in s.control :: Legal(r, s.client.blockCount))
    && (s.done ==> s.client.received == Blocks(s.client.blockCount))
    && (s.server.stopped || Stop in s.control ==> s.done)
  }

  lemma InitialInv(n: nat, sorting: bool, onWireEstimate: nat)
    requires 1 <= n && n + 1 < TWO_TO_THE_32
    ensures Inv(Initial(n, sorting, onWireEstimate))
  {
  }

  lemma RepeatOrderly(c: Client)
    requires c.Inv() && Orderly(c)
    ensures var (r, sent) := c.Repeat();
      Orderly(r) && forall q | q in sent :: Legal(q, c.blockCount) && !q.Stop?
  {
    WantedElements(c.table, c.Missing());
    var wanted := Wanted(c.table, c.Missing());
    forall i | 0 <= i < |wanted|
      ensures wanted[i] in Blocks(c.blockCount)
    {
      assert wanted[i] in wanted;
    }
  }

  lemma FeedbackOrderly(c: Client, a: Arrival, sent: seq<Request>, stored: bool)
    requires c.Inv() && Orderly(c)
    requires forall q | q in sent :: Legal(q, c.blockCount) && !q.Stop?
    ensures var o := c.Feedback(a, sent, stored);
      Orderly(o.client) && !o.done && forall q | q in o.sent :: Legal(q, c.blockCount) && !q.Stop?
  {
    RepeatOrderly(c);
  }

  lemma TrackOrderly(c: Client, d: Datagram)
    requires c.Inv() && Orderly(c) && Proper(d, c.blockCount)
    ensures Orderly(c.Track(d))
  {
    var asked := c;
    if d.block > c.nextBlock {
      RequestRangeAsks(c, c.nextBlock, d.block);
      asked := c.RequestRange(c.nextBlock, d.block);
    }
    AdvanceStops(asked);
  }

  lemma FinishOrderly(c: Client, a: Arrival, stored: bool)
    requires c.Inv() && Orderly(c)
    ensures var o := c.Finish(a, stored);
      && Orderly(o.client)
      && (forall q | q in o.sent :: Legal(q, c.blockCount) && !q.Stop?)
      && (o.done ==> o.client.received == Blocks(c.blockCount))
  {
    if a.datagram.kind != Terminate {
      FeedbackOrderly(c, a, [], stored);
    } else if c.blocksLeft == 0 {
      ReceivedFits(c.received, c.blockCount);
    } else {
      var swept := c.Sweep();
      SweepInv(c);
      if c.gaplessToBlock < c.blockCount {
        RequestRangeAsks(c, c.gaplessToBlock + 1, c.blockCount);
      }
      RepeatOrderly(swept);
      RepeatInv(swept);
      FeedbackOrderly(swept.Repeat().0, a, swept.Repeat().1, stored);
    }
  }

  /** One pass of the client, fed by the server, stays orderly; it ends with every block only. */
  lemma ReceiveOrderly(c: Client, a: Arrival)
    requires c.Inv() && Orderly(c) && Proper(a.datagram, c.blockCount)
    ensures var o := c.Receive(a);
      && o.client.Inv() && Orderly(o.client)
      && (forall q | q in o.sent :: Legal(q, c.blockCount) && !q.Stop?)
      && (o.done ==> o.client.received == Blocks(c.blockCount))
  {
    ReceiveInv(c, a);
    var d := a.datagram;
    var got := c.GotBlock(d.block);
    if a.ringFull || (got && d.kind != Terminate && !c.restartPending) {
      FeedbackOrderly(c, a, [], false);
    } else {
      RecordInv(c, d.block);
      var recorded := c.Record(d.block);
      if recorded.Skips(d) {
        FeedbackOrderly(recorded, a, [], !got);
      } else {
        TrackOrderly(recorded, d);
        TrackInv(recorded, d);
        TrackGrows(recorded, d);
        FinishOrderly(recorded.Track(d), a, !got);
      }
    }
  }

  lemma NextInv(s: System, s': System)
    requires Inv(s) && Next(s, s')
    ensures Inv(s')
  {
    if ServerReads(s, s') {
      assert s.control[0] in s.control;
    } else if ServerSends(s, s') {
    } else {
      var a :| ClientReceives(s, a, s');
      ReceiveOrderly(s.client, a);
      ReceiveGrows(s.client, a);
    }
  }

  /** Safety over whole runs: the invariant holds in every state of every run. */
  lemma RunInv(trace: seq<System>, i: nat)
    requires Run(trace, Next) && Inv(trace[0]) && i < |trace|
    ensures Inv(trace[i])
  {
    forall s, s' | Inv(s) && Next(s, s')
      ensures Inv(s')
    {
      NextInv(s, s');
    }
    Invariance(trace, Next, Inv, i);
  }

  /** So it does in every state that a run reaches. */
  lemma ReachesInv(s: System, s': System)
    requires Inv(s) && Reaches(s, s', Next)
    ensures Inv(s')
  {
    forall s, s' | Inv(s) && Next(s, s')
      ensures Inv(s')
    {
      NextInv(s, s');
    }
    ReachesKeeps(s, s', Next, Inv);
  }
}
