/**
 * What a pass of the receive loop answers and leaves behind, for every state and every arrival, said
 * of the pass as a whole: the requests it sends, the error report, the marks, the table, and the
 * window of a restart.
 */
module Passes {
  import opened Tsunami
  import opened Retransmit
  import opened Client
  import opened Completion

  // ---------- Repeated requests ----------

  /** The requests for the entries at the places, or a restart at the mark + 1 if they are too many. */
  predicate Asks(requests: seq<Request>, places: seq<nat>, c: Client) {
    if |places| >= MAX_RETRANSMISSION_BUFFER then requests == [Restart(c.gaplessToBlock + 1)]
    else
      && |requests| == |places|
      && forall i | 0 <= i < |places| :: places[i] < |c.table| && requests[i] == Retransmit(c.table[places[i]])
  }

  /** The end of the window after a restart, as a 32-bit sum, and inside the file. */
  function WindowEnd(c: Client, last: nat): nat {
    var end := if last + c.onWireEstimate < TWO_TO_THE_32 then last + c.onWireEstimate
               else last + c.onWireEstimate - TWO_TO_THE_32;
    if end < c.blockCount then end else c.blockCount
  }

  /** The state that `c` is left in: the places are what is kept of the table, or a window is opened. */
  predicate Repeated(r: Client, places: seq<nat>, c: Client) {
    if |places| >= MAX_RETRANSMISSION_BUFFER then
      && |c.table| > 0
      && var last := c.table[|c.table| - 1];
         r == c.(table := [], nextBlock := c.gaplessToBlock + 1, restartPending := true,
                 restartLastIdx := last, restartWireClearIdx := WindowEnd(c, last))
    else
      r == c.(table := r.table) && At(r.table, places, c.table)
  }

  lemma RepeatExact(c: Client) returns (places: seq<nat>)
    requires c.Inv()
    ensures Picks(places, c.table, c.Missing())
    ensures var (r, requests) := c.Repeat();
      Asks(requests, places, c) && Repeated(r, places, c)
  {
    places := WantedPicks(c.table, c.Missing());
    if |places| >= MAX_RETRANSMISSION_BUFFER {
      assert c.table[places[0]] in c.Missing();
    }
  }

  /**
   * A pass with periodic feedback: it does what the pass does without, then requests again every
   * entry of the table that is still missing, each as often as it is listed and in that order, or
   * restarts at the mark + 1 if there are MAX of them, and last reports the error rate.
   */
  lemma FeedbackSends(c: Client, a: Arrival) returns (places: seq<nat>, requests: seq<Request>)
    requires c.Inv() && 1 <= a.datagram.block <= c.blockCount && a.due
    requires !c.Receive(a.(due := false)).done
    ensures var plain, o := c.Receive(a.(due := false)), c.Receive(a);
      && Picks(places, plain.client.table, plain.client.Missing()) && Asks(requests, places, plain.client)
      && o.sent == plain.sent + requests + [ErrorRate(a.rate)]
      && Repeated(o.client, places, plain.client)
      && !o.done && o.stored == plain.stored
  {
    var plain := c.Receive(a.(due := false));
    ReceiveInv(c, a.(due := false));
    places := RepeatExact(plain.client);
    requests := plain.client.Repeat().1;
  }

  // ---------- Passes that do nothing ----------

  /** While the ring is full, whatever arrives is dropped. */
  lemma RingFullDrops(c: Client, a: Arrival)
    requires a.ringFull && !a.due
    ensures c.Receive(a) == Outcome(c, [], false, false)
  {
  }

  /** So is a block that was received, unless it ends the transmission or a restart is pending. */
  lemma DuplicateDropped(c: Client, a: Arrival)
    requires !a.due && a.datagram.kind != Terminate && !c.restartPending
    requires a.datagram.block in c.received
    ensures c.Receive(a) == Outcome(c, [], false, false)
  {
  }

  // ---------- Other passes ----------

  /** The block is inside the window of blocks that were on the wire at a restart. */
  predicate InWindow(c: Client, d: Datagram) {
    c.restartPending && d.kind != Terminate && c.restartLastIdx < d.block <= c.restartWireClearIdx
  }

  /** The block is recorded, and nothing else. */
  predicate OnlyRecorded(c: Client, b: nat, r: Client) {
    r == c.(received := c.received + {b}, blocksLeft := r.blocksLeft)
  }

  lemma WindowRecords(c: Client, a: Arrival)
    requires c.Inv() && 1 <= a.datagram.block <= c.blockCount
    requires !a.ringFull && !a.due && InWindow(c, a.datagram)
    ensures var o := c.Receive(a);
      && OnlyRecorded(c, a.datagram.block, o.client)
      && o.sent == [] && !o.done && (o.stored <==> a.datagram.block !in c.received)
  {
    assert a.datagram.block in c.received ==> c.received + {a.datagram.block} == c.received;
  }

  /** What the pass enters into the table: the gaps before the block, from the block expected next. */
  predicate Entered(c: Client, b: nat, r: Client) {
    && (forall x | x in c.table :: x in r.table)
    && (forall x | x in r.table :: x in c.table || x in Gaps(c, c.nextBlock, b))
    && (r.refused == c.refused ==>
          && (forall x | x in Gaps(c, c.nextBlock, b) :: x in r.table)
          && (!c.sorting ==> r.table == c.table + Gaps(c, c.nextBlock, b)))
  }

  /** The mark stands right before the first missing block. */
  ghost predicate MarkExact(c: Client) {
    && (forall x | 1 <= x <= c.gaplessToBlock :: x in c.received)
    && c.gaplessToBlock <= c.blockCount
    && (c.gaplessToBlock < c.blockCount ==> c.gaplessToBlock + 1 !in c.received)
  }

  /** A block that is not dropped, is not in the window, and does not end the transmission. */
  predicate Processed(c: Client, a: Arrival) {
    && !a.ringFull && !InWindow(c, a.datagram)
    && (a.datagram.block !in c.received || a.datagram.kind == Terminate || c.restartPending)
  }

  /** Where the marks and the window are after a block. */
  ghost predicate Marked(c: Client, d: Datagram, r: Client) {
    && r.blockCount == c.blockCount && r.sorting == c.sorting && r.onWireEstimate == c.onWireEstimate
    && r.received == c.received + {d.block}
    && MarkExact(r)
    && r.nextBlock == (if d.kind == Original then d.block + 1 else c.nextBlock)
    && (r.restartPending <==> c.restartPending && r.nextBlock < c.restartLastIdx)
    && r.restartLastIdx == c.restartLastIdx && r.restartWireClearIdx == c.restartWireClearIdx
  }

  /** The part of the pass up to the marks. */
  lemma TrackExact(c: Client, d: Datagram)
    requires c.Inv() && 1 <= d.block <= c.blockCount && d.block + 1 < TWO_TO_THE_32
    ensures var r := c.Record(d.block).Track(d);
      r.Inv() && Marked(c, d, r) && Entered(c, d.block, r)
  {
    var recorded := c.Record(d.block);
    RecordInv(c, d.block);
    TrackInv(recorded, d);
    TrackGrows(recorded, d);
    TrackStops(recorded, d);
    TrackMoves(recorded, d);
    assert d.block in c.received ==> c.received + {d.block} == c.received;
    TrackEnters(c, d);
  }

  lemma TrackEnters(c: Client, d: Datagram)
    requires c.Inv() && 1 <= d.block <= c.blockCount
    ensures Entered(c, d.block, c.Record(d.block).Track(d))
  {
    var recorded := c.Record(d.block);
    if d.block > c.nextBlock {
      AdvanceOnly(recorded.RequestRange(c.nextBlock, d.block));
      RangeEnters(c, d.block);
    } else {
      AdvanceOnly(recorded);
      assert Gaps(c, c.nextBlock, d.block) == [];
    }
  }

  lemma RangeEnters(c: Client, b: nat)
    requires c.nextBlock < b
    ensures Entered(c, b, c.Record(b).RequestRange(c.nextBlock, b))
  {
    var recorded := c.Record(b);
    var asked := recorded.RequestRange(c.nextBlock, b);
    RequestRangeAsks(recorded, c.nextBlock, b);
    GapsBelow(c, c.nextBlock, b);
    GapsAre(recorded, c.nextBlock, b);
    if !c.sorting && asked.refused == c.refused {
      RequestRangeAppends(recorded, c.nextBlock, b);
    }
  }

  /** Recording the block that ends the range does not change the gaps before it. */
  lemma {:induction false} GapsBelow(c: Client, lo: nat, b: nat)
    ensures Gaps(c, lo, b) == Gaps(c.Record(b), lo, b)
    decreases b - lo
  {
    if lo < b {
      GapsBelow(c, lo + 1, b);
    }
  }

  /** A processed block other than the end of the transmission. */
  lemma PassExact(c: Client, a: Arrival)
    requires c.Inv() && 1 <= a.datagram.block <= c.blockCount && a.datagram.block + 1 < TWO_TO_THE_32
    requires Processed(c, a) && !a.due && a.datagram.kind != Terminate
    ensures var o := c.Receive(a);
      && Marked(c, a.datagram, o.client) && Entered(c, a.datagram.block, o.client)
      && o.client.blocksLeft == o.client.blockCount - |o.client.received|
      && o.sent == [] && !o.done && (o.stored <==> a.datagram.block !in c.received)
  {
    TrackExact(c, a.datagram);
  }

  /** What a pass over the end of the transmission sends and leaves behind if it does not end the loop. */
  ghost predicate TerminateAnswered(c: Client, d: Datagram, o: Outcome) {
    && o.client.received == c.received + {d.block} && MarkExact(o.client)
    && o.client.Missing() != {}
    && TableSent(o.client, o.sent)
    && (Restart(o.client.nextBlock) in o.sent || Marked(c, d, o.client))
    && forall least: nat | IsLeast(least, o.client.Missing()) :: Complete(o.sent, o.client.Missing(), least)
  }

  /**
   * The end of the transmission, with nothing refused: the loop ends if and only if every block was
   * received; else the requests are exactly those for the missing blocks, or one restart at the
   * smallest of them.
   */
  lemma TerminateSends(c: Client, a: Arrival)
    requires c.Inv() && !a.ringFull && !a.due && a.datagram == Datagram(c.blockCount, Terminate)
    requires c.blockCount + 1 < TWO_TO_THE_32 && c.Receive(a).client.refused == c.refused
    ensures var o := c.Receive(a);
      && (o.done <==> o.client.received == Blocks(c.blockCount))
      && (if o.done then o.sent == [] else TerminateAnswered(c, a.datagram, o))
  {
    TerminateEnds(c, a);
    if !c.Receive(a).done {
      TrackExact(c, a.datagram);
      TerminateStops(c, a);
      SweptSends(c, a.datagram, c.Record(c.blockCount).Track(a.datagram));
    }
  }

  /** Nothing was refused on the way. */
  lemma TerminateStops(c: Client, a: Arrival)
    requires c.Inv() && !a.ringFull && !a.due && a.datagram == Datagram(c.blockCount, Terminate)
    requires c.Receive(a).client.refused == c.refused && !c.Receive(a).done
    ensures var t := c.Record(c.blockCount).Track(a.datagram);
      && t.blocksLeft > 0 && t.Sweep().refused == t.refused
      && (c.Receive(a).client, c.Receive(a).sent) == t.Sweep().Repeat()
  {
    var recorded := c.Record(c.blockCount);
    TrackGrows(recorded, a.datagram);
    SweepGrows(recorded.Track(a.datagram));
  }

  /** The sweep and its requests. */
  lemma SweptSends(c: Client, d: Datagram, t: Client)
    requires t.Inv() && t.blockCount in t.received && t.blocksLeft > 0 && t.Sweep().refused == t.refused
    requires Marked(c, d, t)
    ensures var (r, sent) := t.Sweep().Repeat();
      TerminateAnswered(c, d, Outcome(r, sent, false, false))
  {
    SweepGrows(t);
    SweepInv(t);
    FirstMissing(t);
    TerminateRequestsComplete(t);
    RepeatTableSent(t.Sweep());
    RequestRangeAsks(t, t.gaplessToBlock + 1, t.blockCount);
  }

  /** The table is what was requested, or empty after a restart, with the head at its block. */
  predicate TableSent(c: Client, sent: seq<Request>) {
    || (sent == [Restart(c.nextBlock)] && c.table == [] && c.restartPending)
    || (|sent| == |c.table| && forall i | 0 <= i < |sent| :: sent[i] == Retransmit(c.table[i]))
  }

  lemma RepeatTableSent(c: Client)
    requires c.Inv()
    ensures TableSent(c.Repeat().0, c.Repeat().1)
  {
    var places := RepeatExact(c);
  }

  // ---------- A restart and its window ----------

  /**
   * Main result on restarts, for either build: after a restart request, in terms of the table that it
   * was sent for, a block that was still on the wire, past the last entry of that table and not past
   * the estimate, is recorded and nothing else; any other block moves the head as ever; and restart
   * mode ends exactly when the head reaches that last entry.
   */
  lemma RestartWindow(c: Client, a: Arrival)
    requires c.Inv() && |c.Repeat().1| == 1 && c.Repeat().1[0].Restart?
    requires 1 <= a.datagram.block < c.blockCount && a.datagram.kind != Terminate && !a.ringFull && !a.due
    ensures |c.table| > 0
    ensures var d, r := a.datagram, c.Repeat().0;
      var last, o := c.table[|c.table| - 1], r.Receive(a);
      && c.Repeat().1 == [Restart(c.gaplessToBlock + 1)] && r.nextBlock == c.gaplessToBlock + 1 && r.table == []
      && o.sent == [] && !o.done && o.client.received == c.received + {d.block}
      && (if last < d.block <= WindowEnd(c, last) then
            OnlyRecorded(r, d.block, o.client) && o.client.restartPending
          else
            && o.client.nextBlock == (if d.kind == Original then d.block + 1 else c.gaplessToBlock + 1)
            && (o.client.restartPending <==> o.client.nextBlock < last)
            && Entered(r, d.block, o.client))
  {
    var places := RepeatExact(c);
    assert |places| >= MAX_RETRANSMISSION_BUFFER;
    var r := c.Repeat().0;
    RepeatInv(c);
    if InWindow(r, a.datagram) {
      WindowRecords(r, a);
    } else {
      PassExact(r, a);
    }
  }
}
