/**
 * The receiving client of a lossless transfer: what one pass of the receive loop does to its
 * state, and what every pass keeps.
 */
module Client {
  import opened Tsunami
  import opened Retransmit

  /** A datagram as the receive loop meets it. */
  datatype Arrival = Arrival(
    datagram: Datagram,
    ringFull: bool,  // the ring buffer has no space: the datagram is ignored
    due: bool,       // the periodic feedback is due after this datagram
    rate: nat)       // the error rate that the feedback reports

  /** What one pass of the loop produces. */
  datatype Outcome = Outcome(client: Client, sent: seq<Request>, stored: bool, done: bool)

  datatype Client = Client(
    blockCount: nat,
    sorting: bool,         // whether the table is kept in order, a choice made at compile time
    onWireEstimate: nat,
    received: set<nat>,
    blocksLeft: nat,
    nextBlock: nat,
    gaplessToBlock: nat,
    table: seq<nat>,
    tableSize: nat,
    restartPending: bool,
    restartLastIdx: nat,
    restartWireClearIdx: nat,
    refused: seq<nat>,     // history: the requests that the full table refused
    owed: set<nat>)        // history: the blocks whose latest request was refused
  {
    /** The client when the transfer starts. */
    static function Start(blockCount: nat, sorting: bool, onWireEstimate: nat): Client {
      Client(blockCount, sorting, onWireEstimate, {}, blockCount, 1, 0, [], DEFAULT_TABLE_SIZE,
             false, 0, 0, [], {})
    }

    /** Whether the block needs no request: it was received, or is past the end of the file. */
    predicate GotBlock(b: nat) {
      b > blockCount || b in received
    }

    function Missing(): set<nat> {
      Blocks(blockCount) - received
    }

    /** Asks for one block. */
    function RequestBlock(b: nat): Client {
      if GotBlock(b) then this
      else if |table| >= tableSize && |table| >= TABLE_CAP then
        this.(refused := refused + [b], owed := owed + {b})
      else this.(
        owed := owed - {b},
        table := Insert(sorting, table, b),
        tableSize := if |table| >= tableSize then 2 * tableSize else tableSize)
    }

    /** Asks for the blocks lo, lo + 1, ..., hi - 1. */
    function RequestRange(lo: nat, hi: nat): Client
      decreases hi - lo
    {
      if lo >= hi then this else RequestBlock(lo).RequestRange(lo + 1, hi)
    }

    /** Sends all outstanding requests, or asks the server to restart if there are too many. */
    function Repeat(): (Client, seq<Request>) {
      var wanted := Wanted(table, Missing());
      if |wanted| >= MAX_RETRANSMISSION_BUFFER then
        WantedElements(table, Missing());
        var block := Min(blockCount, gaplessToBlock + 1);
        var last := table[|table| - 1];
        (this.(
           restartPending := true,
           restartLastIdx := last,
           restartWireClearIdx := Min(blockCount, Add32(last, onWireEstimate)),
           table := [],
           nextBlock := block),
         [Restart(block)])
      else
        (this.(table := wanted), seq(|wanted|, i requires 0 <= i < |wanted| => Retransmit(wanted[i])))
    }

    /** Records a new block. */
    function Record(b: nat): Client {
      if GotBlock(b) then this
      else this.(received := received + {b}, blocksLeft := if blocksLeft > 0 then blocksLeft - 1 else 0)
    }

    function AdvanceGapless(): Client
      decreases blockCount - gaplessToBlock
    {
      if GotBlock(gaplessToBlock + 1) && gaplessToBlock < blockCount
      then this.(gaplessToBlock := gaplessToBlock + 1).AdvanceGapless()
      else this
    }

    /** After a restart request, blocks that were on the wire before the server reacted. */
    predicate Skips(d: Datagram) {
      restartPending && d.kind != Terminate && restartLastIdx < d.block <= restartWireClearIdx
    }

    /** Requests what lies before the block, and moves the marks. */
    function Track(d: Datagram): Client {
      var asked := if d.block > nextBlock then RequestRange(nextBlock, d.block) else this;
      var advanced := asked.AdvanceGapless();
      var moved := if d.kind == Original then advanced.(nextBlock := Add32(d.block, 1)) else advanced;
      if moved.restartPending && moved.nextBlock >= moved.restartLastIdx
      then moved.(restartPending := false)
      else moved
    }

    /** The end of the transmission was reached and blocks are missing: request them all. */
    function Sweep(): Client {
      RequestRange(gaplessToBlock + 1, blockCount)
    }

    /** The periodic feedback. */
    function Feedback(a: Arrival, sent: seq<Request>, stored: bool): Outcome {
      if a.due then
        var (client, more) := Repeat();
        Outcome(client, sent + more + [ErrorRate(a.rate)], stored, false)
      else Outcome(this, sent, stored, false)
    }

    /** One pass of the receive loop. */
    function Receive(a: Arrival): Outcome {
      var d := a.datagram;
      var got := GotBlock(d.block);
      if a.ringFull || (got && d.kind != Terminate && !restartPending) then
        Feedback(a, [], false)
      else
        var recorded := Record(d.block);
        if recorded.Skips(d) then
          recorded.Feedback(a, [], !got)
        else
          recorded.Track(d).Finish(a, !got)
    }

    /** The last part of a pass: the end of the transmission, and feedback. */
    function Finish(a: Arrival, stored: bool): Outcome {
      if a.datagram.kind != Terminate then
        Feedback(a, [], stored)
      else if blocksLeft == 0 then
        Outcome(this, [], stored, true)
      else
        var (repeated, sent) := Sweep().Repeat();
        repeated.Feedback(a, sent, stored)
    }

    // ---------- What every pass keeps ----------

    /** All numbers fit their 32-bit fields. */
    predicate Bounded() {
      && 1 <= blockCount < TWO_TO_THE_32
      && nextBlock <= blockCount + 1
      && gaplessToBlock <= blockCount
      && (forall b | b in table :: b <= blockCount)
    }

    /** The table fits its allocation, which is bounded for good. */
    predicate TableFits() {
      && |table| <= tableSize
      && 1 <= tableSize <= 2 * TABLE_CAP
      && (sorting ==> Ascending(table))
    }

    /** The counter agrees with the bitmap, and the mark with what was received. */
    ghost predicate Agrees() {
      && (forall b | b in received :: 1 <= b <= blockCount)
      && blocksLeft + |received| == blockCount
      && (forall b | 1 <= b <= gaplessToBlock :: b in received)
    }

    /** Every gap before the block expected next is in the table, or its latest request was refused. */
    predicate NoneForgotten() {
      && (forall b | gaplessToBlock < b < nextBlock && b !in received :: b in table || b in owed)
      && (forall b | b in owed :: b in refused)
    }

    ghost predicate Inv() {
      Bounded() && TableFits() && Agrees() && NoneForgotten()
    }
  }

  /** The client meets the arrivals one after the other, until it breaks out. */
  function ReceiveAll(c: Client, arrivals: seq<Arrival>): Outcome {
    if arrivals == [] then Outcome(c, [], false, false)
    else
      var o := ReceiveAll(c, arrivals[..|arrivals| - 1]);
      if o.done then o
      else
        var o' := o.client.Receive(arrivals[|arrivals| - 1]);
        o'.(sent := o.sent + o'.sent)
  }

  lemma StartInv(blockCount: nat, sorting: bool, onWireEstimate: nat)
    requires 1 <= blockCount < TWO_TO_THE_32
    ensures var c := Client.Start(blockCount, sorting, onWireEstimate);
      && c.Inv() && c.Missing() == Blocks(blockCount)
      && c.nextBlock == 1 && c.gaplessToBlock == 0 && c.table == [] && !c.restartPending
  {
  }

  // ---------- Requests ----------

  /** What asking for the blocks lo..hi-1 may change. */
  ghost predicate Asked(c: Client, r: Client, lo: nat, hi: nat) {
    && r == c.(table := r.table, tableSize := r.tableSize, refused := r.refused, owed := r.owed)
    && c.refused <= r.refused
    && (forall b | b in c.owed :: b in r.owed || b in r.table)
    && (forall b | b in r.owed :: b in c.owed || b in r.refused)
    && (forall b | b in c.table :: b in r.table)
    && (forall b | b in r.table :: b in c.table || (lo <= b < hi && !c.GotBlock(b)))
    && (forall b | lo <= b < hi && !c.GotBlock(b) :: b in r.table || b in r.owed)
    && (r.refused == c.refused ==> forall b | lo <= b < hi && !c.GotBlock(b) :: b in r.table)
  }

  lemma RequestBlockAsks(c: Client, b: nat)
    ensures Asked(c, c.RequestBlock(b), b, b + 1)
    ensures c.TableFits() ==> c.RequestBlock(b).TableFits()
  {
    InsertElements(c.sorting, c.table, b);
    if c.sorting && Ascending(c.table) {
      InsertSortedAscends(c.table, b);
    }
  }

  lemma {:induction false} RequestRangeAsks(c: Client, lo: nat, hi: nat)
    requires lo <= hi
    ensures Asked(c, c.RequestRange(lo, hi), lo, hi)
    ensures c.TableFits() ==> c.RequestRange(lo, hi).TableFits()
    decreases hi - lo
  {
    if lo == hi {
    } else {
      RequestBlockAsks(c, lo);
      RequestRangeAsks(c.RequestBlock(lo), lo + 1, hi);
    }
  }

  /** A request for a block that is got changes nothing; the table refuses others at its cap only. */
  lemma RequestBlockExact(c: Client, b: nat)
    ensures var r := c.RequestBlock(b);
      var full, atCap := |c.table| >= c.tableSize, |c.table| >= TABLE_CAP;
      && (c.GotBlock(b) ==> r == c)
      && (r.refused == c.refused + [b] <==> !c.GotBlock(b) && full && atCap)
      && (r.refused != c.refused ==> r.table == c.table && r.tableSize == c.tableSize)
      && (!c.GotBlock(b) && r.refused == c.refused ==>
            && r.tableSize == (if full then 2 * c.tableSize else c.tableSize)
            && (!c.sorting ==> r.table == c.table + [b])
            && (forall x :: x in r.table <==> x in c.table || x == b))
  {
    InsertElements(c.sorting, c.table, b);
    assert c.refused + [b] != c.refused;
  }

  /** The blocks lo, ..., hi - 1 that are not got, in order. */
  function Gaps(c: Client, lo: nat, hi: nat): seq<nat>
    decreases hi - lo
  {
    if lo >= hi then []
    else (if c.GotBlock(lo) then [] else [lo]) + Gaps(c, lo + 1, hi)
  }

  lemma {:induction false} GapsAre(c: Client, lo: nat, hi: nat)
    ensures Ascending(Gaps(c, lo, hi))
    ensures forall b :: b in Gaps(c, lo, hi) <==> lo <= b < hi && !c.GotBlock(b)
    decreases hi - lo
  {
    if lo < hi {
      GapsAre(c, lo + 1, hi);
      AscendingFront(lo, Gaps(c, lo + 1, hi));
    }
  }

  lemma {:induction false} GapsKept(c: Client, r: Client, lo: nat, hi: nat)
    requires forall b: nat :: c.GotBlock(b) <==> r.GotBlock(b)
    ensures Gaps(c, lo, hi) == Gaps(r, lo, hi)
    decreases hi - lo
  {
    if lo < hi {
      GapsKept(c, r, lo + 1, hi);
    }
  }

  /** Without refusals the appending build adds the gaps of the range behind the others, in order. */
  lemma {:induction false} RequestRangeAppends(c: Client, lo: nat, hi: nat)
    requires lo <= hi && !c.sorting && c.RequestRange(lo, hi).refused == c.refused
    ensures c.RequestRange(lo, hi).table == c.table + Gaps(c, lo, hi)
    decreases hi - lo
  {
    if lo == hi {
    } else {
      var asked := c.RequestBlock(lo);
      RequestBlockExact(c, lo);
      RequestRangeAsks(asked, lo + 1, hi);
      assert |asked.refused| <= |c.RequestRange(lo, hi).refused|;
      GapsKept(c, asked, lo + 1, hi);
      RequestRangeAppends(asked, lo + 1, hi);
    }
  }

  lemma AscendingFront(x: nat, rest: seq<nat>)
    requires Ascending(rest) && forall b | b in rest :: x < b
    ensures Ascending([x] + rest)
  {
    forall i | 0 <= i < |rest|
      ensures x < rest[i]
    {
      assert rest[i] in rest;
    }
  }

  // ---------- Every part of a pass keeps the invariant ----------

  lemma RecordInv(c: Client, b: nat)
    requires c.Inv() && 1 <= b <= c.blockCount
    ensures c.Record(b).Inv()
    ensures c.blocksLeft > 0 || c.GotBlock(b)
  {
    if !c.GotBlock(b) {
      ReceivedFits(c.Record(b).received, c.blockCount);
    }
  }

  /** A set of block numbers has no more members than the file has blocks. */
  lemma ReceivedFits(received: set<nat>, n: nat)
    requires forall b | b in received :: 1 <= b <= n
    ensures |received| <= n
    ensures |received| == n ==> received == Blocks(n)
  {
    BlocksSize(n);
    SubsetSize(received, Blocks(n));
    if |received| == n {
      FullSubset(received, Blocks(n));
    }
  }

  /** The gapless mark ends where the first block is missing. */
  lemma {:induction false} AdvanceStops(c: Client)
    requires c.gaplessToBlock <= c.blockCount
    ensures var r := c.AdvanceGapless();
      && r == c.(gaplessToBlock := r.gaplessToBlock)
      && c.gaplessToBlock <= r.gaplessToBlock <= c.blockCount
      && (forall b | c.gaplessToBlock < b <= r.gaplessToBlock :: b in c.received)
      && (r.gaplessToBlock < c.blockCount ==> r.gaplessToBlock + 1 !in c.received)
    decreases c.blockCount - c.gaplessToBlock
  {
    if c.GotBlock(c.gaplessToBlock + 1) && c.gaplessToBlock < c.blockCount {
      AdvanceStops(c.(gaplessToBlock := c.gaplessToBlock + 1));
    }
  }

  lemma AskInv(c: Client, lo: nat, hi: nat)
    requires c.Inv() && lo <= hi
    ensures c.RequestRange(lo, hi).Inv()
  {
    RequestRangeAsks(c, lo, hi);
  }

  lemma AdvanceInv(c: Client)
    requires c.Inv()
    ensures c.AdvanceGapless().Inv()
  {
    AdvanceStops(c);
  }

  /** The gapless mark advances over received blocks, as far as it can. */
  lemma {:induction false} AdvanceTo(c: Client, g: nat)
    requires c.gaplessToBlock <= g && (g == c.gaplessToBlock || g <= c.blockCount)
    requires forall b | c.gaplessToBlock < b <= g :: c.GotBlock(b)
    requires !c.GotBlock(g + 1) || g >= c.blockCount
    ensures c.AdvanceGapless() == c.(gaplessToBlock := g)
    decreases g - c.gaplessToBlock
  {
    if c.gaplessToBlock < g {
      var next := c.(gaplessToBlock := c.gaplessToBlock + 1);
      assert forall b :: next.GotBlock(b) == c.GotBlock(b);
      AdvanceTo(next, g);
    }
  }

  lemma TrackInv(c: Client, d: Datagram)
    requires c.Inv() && 1 <= d.block <= c.blockCount && d.block in c.received
    ensures c.Track(d).Inv()
  {
    var asked := if d.block > c.nextBlock then c.RequestRange(c.nextBlock, d.block) else c;
    if d.block > c.nextBlock {
      AskInv(c, c.nextBlock, d.block);
      RequestRangeAsks(c, c.nextBlock, d.block);
    }
    AdvanceInv(asked);
    MarksInv(asked, d);
  }

  /** Once all gaps before the block are requested, the next block may be expected. */
  lemma MarksInv(asked: Client, d: Datagram)
    requires asked.Inv() && d.block <= asked.blockCount && d.block in asked.received
    requires forall b | asked.gaplessToBlock < b < d.block && b !in asked.received ::
      b in asked.table || b in asked.owed
    ensures asked.AdvanceGapless().(nextBlock := Add32(d.block, 1)).Inv()
  {
    AdvanceInv(asked);
    AdvanceStops(asked);
  }

  lemma SweepInv(c: Client)
    requires c.Inv()
    ensures c.Sweep().Inv()
  {
    if c.gaplessToBlock < c.blockCount {
      AskInv(c, c.gaplessToBlock + 1, c.blockCount);
    }
  }

  lemma RepeatInv(c: Client)
    requires c.Inv()
    ensures c.Repeat().0.Inv()
  {
    WantedElements(c.table, c.Missing());
    if c.sorting {
      WantedAscends(c.table, c.Missing());
    }
  }

  lemma FeedbackInv(c: Client, a: Arrival, sent: seq<Request>, stored: bool)
    requires c.Inv()
    ensures c.Feedback(a, sent, stored).client.Inv()
  {
    RepeatInv(c);
  }

  /** Main safety result: every pass keeps the invariant, whatever arrives. */
  lemma ReceiveInv(c: Client, a: Arrival)
    requires c.Inv() && 1 <= a.datagram.block <= c.blockCount
    ensures c.Receive(a).client.Inv()
  {
    var d := a.datagram;
    var got := c.GotBlock(d.block);
    if a.ringFull || (got && d.kind != Terminate && !c.restartPending) {
      FeedbackInv(c, a, [], false);
    } else {
      RecordInv(c, d.block);
      var recorded := c.Record(d.block);
      if recorded.Skips(d) {
        FeedbackInv(recorded, a, [], !got);
      } else {
        TrackInv(recorded, d);
        TrackedInv(recorded.Track(d), a, !got);
      }
    }
  }

  /** The part of a pass after the marks were moved. */
  lemma TrackedInv(tracked: Client, a: Arrival, stored: bool)
    requires tracked.Inv()
    ensures tracked.Finish(a, stored).client.Inv()
  {
    if a.datagram.kind != Terminate {
      FeedbackInv(tracked, a, [], stored);
    } else if tracked.blocksLeft > 0 {
      SweepInv(tracked);
      RepeatInv(tracked.Sweep());
      FeedbackInv(tracked.Sweep().Repeat().0, a, tracked.Sweep().Repeat().1, stored);
    }
  }

  // ---------- What a pass leaves alone, and what only grows ----------

  /** The fixed parameters stay; received blocks, the mark and the history only grow. */
  ghost predicate Grows(c: Client, r: Client) {
    && r.blockCount == c.blockCount && r.sorting == c.sorting
    && r.onWireEstimate == c.onWireEstimate
    && c.received <= r.received
    && c.gaplessToBlock <= r.gaplessToBlock
    && c.refused <= r.refused
  }

  lemma RecordGrows(c: Client, b: nat)
    ensures Grows(c, c.Record(b))
  {
  }

  lemma TrackGrows(c: Client, d: Datagram)
    requires c.gaplessToBlock <= c.blockCount
    ensures Grows(c, c.Track(d)) && c.Track(d).received == c.received
  {
    var asked := c;
    if d.block > c.nextBlock {
      RequestRangeAsks(c, c.nextBlock, d.block);
      asked := c.RequestRange(c.nextBlock, d.block);
    }
    AdvanceStops(asked);
  }

  lemma SweepGrows(c: Client)
    ensures Grows(c, c.Sweep()) && c.Sweep().received == c.received
    ensures c.Sweep().gaplessToBlock == c.gaplessToBlock
  {
    if c.gaplessToBlock < c.blockCount {
      RequestRangeAsks(c, c.gaplessToBlock + 1, c.blockCount);
    }
  }

  lemma FeedbackGrows(c: Client, a: Arrival, sent: seq<Request>, stored: bool)
    ensures var o := c.Feedback(a, sent, stored);
      Grows(c, o.client) && o.client.received == c.received && o.stored == stored
  {
  }

  lemma FinishGrows(c: Client, a: Arrival, stored: bool)
    ensures var o := c.Finish(a, stored);
      Grows(c, o.client) && o.client.received == c.received && o.stored == stored
  {
    if a.datagram.kind != Terminate {
      FeedbackGrows(c, a, [], stored);
    } else if c.blocksLeft > 0 {
      SweepGrows(c);
      FeedbackGrows(c.Sweep().Repeat().0, a, c.Sweep().Repeat().1, stored);
    }
  }

  /** A pass grows the client, and adds the block it stores to the received ones, if any. */
  lemma ReceiveGrows(c: Client, a: Arrival)
    requires c.gaplessToBlock <= c.blockCount
    ensures var o := c.Receive(a);
      && Grows(c, o.client)
      && (o.stored <==> !a.ringFull && !c.GotBlock(a.datagram.block))
      && o.client.received == c.received + if o.stored then {a.datagram.block} else {}
  {
    var d := a.datagram;
    var got := c.GotBlock(d.block);
    if a.ringFull || (got && d.kind != Terminate && !c.restartPending) {
    } else {
      var recorded := c.Record(d.block);
      RecordGrows(c, d.block);
      if !recorded.Skips(d) {
        TrackGrows(recorded, d);
        FinishGrows(recorded.Track(d), a, !got);
      }
    }
  }

  /**
   * After a restart request, blocks that were on the wire before the server reacted are recorded,
   * and that is all: however many arrive, they trigger no request, do not move the block expected
   * next away from the restart point, and leave the window open.
   */
  lemma {:induction false} WireDrains(c: Client, arrivals: seq<Arrival>)
    requires c.restartPending
    requires forall a | a in arrivals ::
      && a.datagram.kind != Terminate && !a.due
      && c.restartLastIdx < a.datagram.block <= c.restartWireClearIdx
    ensures var o := ReceiveAll(c, arrivals);
      && o.sent == [] && !o.done
      && o.client == c.(received := o.client.received, blocksLeft := o.client.blocksLeft)
      && (forall a | a in arrivals && !a.ringFull :: o.client.GotBlock(a.datagram.block))
      && c.received <= o.client.received
    decreases |arrivals|
  {
    if arrivals == [] {
    } else {
      var front, last := arrivals[..|arrivals| - 1], arrivals[|arrivals| - 1];
      assert arrivals == front + [last];
      assert last in arrivals && forall a | a in front :: a in arrivals;
      WireDrains(c, front);
    }
  }

  /** With the ordered table a restart sets the head before the last entry that was requested. */
  lemma RestartOpensWindow(c: Client)
    requires c.Inv() && c.sorting && c.Repeat().1 != [] && c.Repeat().1[0].Restart?
    ensures var r := c.Repeat().0;
      && r.restartPending && r.nextBlock < r.restartLastIdx
      && (forall b | b in c.table :: b <= r.restartLastIdx)
  {
    var wanted := Wanted(c.table, c.Missing());
    WantedElements(c.table, c.Missing());
    WantedAscends(c.table, c.Missing());
    assert wanted[0] in wanted && wanted[1] in wanted;
    assert c.gaplessToBlock < wanted[0] < wanted[1];
  }

  /**
   * As the server sends on from the restart point, the window closes in time: once an original
   * arrived whose successor is not before the last block that had been requested, blocks count for
   * gaps again.
   */
  lemma {:induction false} WindowCloses(c: Client, arrivals: seq<Arrival>)
    requires c.restartPending && c.nextBlock < c.restartLastIdx
    requires c.nextBlock + |arrivals| + 1 < TWO_TO_THE_32
    requires forall i | 0 <= i < |arrivals| ::
      && arrivals[i].datagram == Datagram(c.nextBlock + 1 + i, Original)
      && !arrivals[i].ringFull && !arrivals[i].due
    ensures var o := ReceiveAll(c, arrivals);
      && o.sent == [] && !o.done
      && (o.client.restartPending ==>
            && o.client.restartLastIdx == c.restartLastIdx
            && o.client.nextBlock == c.nextBlock + (if arrivals == [] then 0 else |arrivals| + 1)
            && o.client.nextBlock < c.restartLastIdx)
    decreases |arrivals|
  {
    if arrivals == [] {
    } else {
      var front, last := arrivals[..|arrivals| - 1], arrivals[|arrivals| - 1];
      WindowCloses(c, front);
      var o := ReceiveAll(c, front).client;
      if o.restartPending {
        TrackMoves(o.Record(last.datagram.block), last.datagram);
      } else {
        NoReopening(o, last);
      }
    }
  }

  /** Moving the marks only ever closes the window. */
  lemma TrackMoves(c: Client, d: Datagram)
    ensures var t := c.Track(d);
      && t.restartLastIdx == c.restartLastIdx && t.restartWireClearIdx == c.restartWireClearIdx
      && t.nextBlock == (if d.kind == Original then Add32(d.block, 1) else c.nextBlock)
      && (t.restartPending <==> c.restartPending && t.nextBlock < c.restartLastIdx)
  {
    if d.block > c.nextBlock {
      RequestRangeAsks(c, c.nextBlock, d.block);
      AdvanceOnly(c.RequestRange(c.nextBlock, d.block));
    } else {
      AdvanceOnly(c);
    }
  }

  lemma {:induction false} AdvanceOnly(c: Client)
    ensures c.AdvanceGapless() == c.(gaplessToBlock := c.AdvanceGapless().gaplessToBlock)
    decreases c.blockCount - c.gaplessToBlock
  {
    if c.GotBlock(c.gaplessToBlock + 1) && c.gaplessToBlock < c.blockCount {
      AdvanceOnly(c.(gaplessToBlock := c.gaplessToBlock + 1));
    }
  }

  lemma NoReopening(c: Client, a: Arrival)
    requires !c.restartPending && a.datagram.kind != Terminate && !a.due
    ensures var o := c.Receive(a); !o.client.restartPending && o.sent == [] && !o.done
  {
    TrackMoves(c.Record(a.datagram.block), a.datagram);
  }
}
