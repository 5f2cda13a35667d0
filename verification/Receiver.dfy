/** The client's side of a transfer, updated in place as the receive loop does. */
module Receiver {
  import opened Tsunami
  import opened BlockMap
  import opened Retransmit
  import opened Client

  class Transfer {
    const blockCount: nat
    const sorting: bool
    const onWireEstimate: nat
    const received: BlockMap
    const rexmit: RetransmitTable
    var blocksLeft: nat
    var nextBlock: nat
    var gaplessToBlock: nat
    var restartPending: bool
    var restartLastIdx: nat
    var restartWireClearIdx: nat
    ghost var refused: seq<nat>
    ghost var owed: set<nat>

    ghost predicate Valid()
      reads this, rexmit
    {
      && received.Valid() && received.blockCount == blockCount
      && rexmit.Valid()
      && rexmit.table as object != received.received
    }

    /** The objects that the transfer updates. */
    ghost function Repr(): set<object>
      reads this, rexmit
    {
      {this, rexmit, rexmit.table, received.received}
    }

    /** The transfer as a value. */
    ghost function State(): Client
      reads this, rexmit, Repr()
      requires Valid()
    {
      Client(blockCount, sorting, onWireEstimate, received.Contents(), blocksLeft, nextBlock,
             gaplessToBlock, rexmit.Entries(), rexmit.tableSize, restartPending, restartLastIdx,
             restartWireClearIdx, refused, owed)
    }

    constructor (blockCount: nat, sorting: bool, onWireEstimate: nat)
      ensures Valid() && fresh(Repr())
      ensures State() == Client.Start(blockCount, sorting, onWireEstimate)
    {
      this.blockCount := blockCount;
      this.sorting := sorting;
      this.onWireEstimate := onWireEstimate;
      var bits := new BlockMap(blockCount);
      received := bits;
      var table := new RetransmitTable();
      rexmit := table;
      blocksLeft := blockCount;
      nextBlock := 1;
      gaplessToBlock := 0;
      restartPending, restartLastIdx, restartWireClearIdx := false, 0, 0;
      refused, owed := [], {};
    }

    /** Asks for a block, unless it was received. */
    method RequestRetransmit(block: nat)
      requires Valid()
      modifies this`refused, this`owed, rexmit, rexmit.table
      ensures Valid() && fresh(Repr() - old(Repr()))
      ensures State() == old(State()).RequestBlock(block)
    {
      var got := received.GotBlock(block);
      if got {
        return;
      }
      var full := rexmit.Request(sorting, block);
      if full {
        refused := refused + [block];
        owed := owed + {block};
      } else {
        owed := owed - {block};
      }
    }

    /** Asks for the blocks lo, ..., hi - 1. */
    method RequestRange(lo: nat, hi: nat)
      requires Valid()
      modifies this`refused, this`owed, rexmit, rexmit.table
      ensures Valid() && fresh(Repr() - old(Repr()))
      ensures State() == old(State()).RequestRange(lo, hi)
    {
      var block := lo;
      while block < hi
        invariant lo <= block && (lo <= hi ==> block <= hi)
        invariant Valid() && fresh(Repr() - old(Repr()))
        invariant State().RequestRange(block, hi) == old(State()).RequestRange(lo, hi)
        modifies this`refused, this`owed, rexmit, rexmit.table
      {
        RequestRetransmit(block);
        block := block + 1;
      }
    }

    /** Repeats all outstanding requests, or asks for a restart; returns what was sent. */
    method RepeatRetransmit() returns (sent: seq<Request>)
      requires Valid()
      modifies this`nextBlock, this`restartPending, this`restartLastIdx, this`restartWireClearIdx
      modifies rexmit`indexMax, rexmit.table
      ensures Valid() && Repr() == old(Repr())
      ensures (State(), sent) == old(State()).Repeat()
    {
      ghost var c := State();
      WantedElements(c.table, c.Missing());
      var messages := rexmit.Compact(received);
      assert messages == Take(Wanted(c.table, c.Missing()), MAX_RETRANSMISSION_BUFFER);
      if |messages| >= MAX_RETRANSMISSION_BUFFER {
        var block := Min(blockCount, gaplessToBlock + 1);
        sent := [Restart(block)];
        restartPending := true;
        restartLastIdx := rexmit.table[rexmit.indexMax - 1];
        restartWireClearIdx := Min(blockCount, Add32(restartLastIdx, onWireEstimate));
        rexmit.indexMax := 0;
        nextBlock := block;
      } else {
        assert messages == Wanted(c.table, c.Missing());
        rexmit.indexMax := |messages|;
        assert rexmit.Entries() == messages;
        sent := seq(|messages|, i requires 0 <= i < |messages| => Retransmit(messages[i]));
      }
    }

    /** Marks a block as received. */
    method Record(block: nat)
      requires Valid() && block <= blockCount && block !in received.Contents()
      modifies this`blocksLeft, received.received
      ensures Valid() && Repr() == old(Repr())
      ensures State() == old(State()).Record(block)
    {
      received.Mark(block);
      if blocksLeft > 0 {
        blocksLeft := blocksLeft - 1;
      }
    }

    /** Advances the end of the gapless section. */
    method AdvanceGapless()
      requires Valid()
      modifies this`gaplessToBlock
      ensures Valid() && Repr() == old(Repr())
      ensures State() == old(State()).AdvanceGapless()
    {
      ghost var c := State();
      ghost var held := c.received;
      var got := received.GotBlock(gaplessToBlock + 1);
      while got && gaplessToBlock < blockCount
        invariant c.gaplessToBlock <= gaplessToBlock
        invariant gaplessToBlock == c.gaplessToBlock || gaplessToBlock <= blockCount
        invariant held == received.Contents()
        invariant got <==> gaplessToBlock + 1 > blockCount || gaplessToBlock + 1 in held
        invariant forall b | c.gaplessToBlock < b <= gaplessToBlock :: b in held
        decreases blockCount - gaplessToBlock
      {
        gaplessToBlock := gaplessToBlock + 1;
        got := received.GotBlock(gaplessToBlock + 1);
      }
      AdvanceTo(c, gaplessToBlock);
    }

    /** Requests what lies before the block, and moves the marks. */
    method Track(d: Datagram)
      requires Valid()
      modifies this, rexmit, rexmit.table
      ensures Valid() && fresh(Repr() - old(Repr()))
      ensures State() == old(State()).Track(d)
    {
      if d.block > nextBlock {
        RequestRange(nextBlock, d.block);
      }
      AdvanceGapless();
      if d.kind == Original {
        nextBlock := Add32(d.block, 1);
      }
      if restartPending && nextBlock >= restartLastIdx {
        restartPending := false;
      }
    }

    /** The periodic feedback. */
    method Feedback(a: Arrival, sent: seq<Request>, stored: bool) returns (all: seq<Request>)
      requires Valid()
      modifies this, rexmit`indexMax, rexmit.table
      ensures Valid() && Repr() == old(Repr())
      ensures Outcome(State(), all, stored, false) == old(State()).Feedback(a, sent, stored)
    {
      all := sent;
      if a.due {
        var more := RepeatRetransmit();
        all := sent + more + [ErrorRate(a.rate)];
      }
    }

    /** The last part of a pass: the end of the transmission, and feedback. */
    method Finish(a: Arrival, stored: bool) returns (sent: seq<Request>, done: bool)
      requires Valid()
      modifies this, rexmit, rexmit.table
      ensures Valid() && fresh(Repr() - old(Repr()))
      ensures Outcome(State(), sent, stored, done) == old(State()).Finish(a, stored)
    {
      sent, done := [], false;
      if a.datagram.kind == Terminate {
        if blocksLeft == 0 {
          return [], true;
        }
        RequestRange(gaplessToBlock + 1, blockCount);
        sent := RepeatRetransmit();
      }
      sent := Feedback(a, sent, stored);
    }

    /** One pass of the receive loop. */
    method Receive(a: Arrival) returns (sent: seq<Request>, stored: bool, done: bool)
      requires Valid()
      modifies Repr()
      ensures Valid() && fresh(Repr() - old(Repr()))
      ensures Outcome(State(), sent, stored, done) == old(State()).Receive(a)
    {
      var d := a.datagram;
      sent, stored, done := [], false, false;
      var got := received.GotBlock(d.block);
      if !a.ringFull && (!got || d.kind == Terminate || restartPending) {
        if !got {
          Record(d.block);
          stored := true;
        }
        if !restartPending || d.kind == Terminate
           || !(restartLastIdx < d.block <= restartWireClearIdx) {
          Track(d);
          sent, done := Finish(a, stored);
          return;
        }
      }
      sent := Feedback(a, [], stored);
    }

    /** The recount after the transfer. */
    method Recount() returns (lost: nat)
      requires Valid()
      ensures lost == |State().Missing()|
    {
      lost := received.CountLost();
      CountOutsideIsSize(received.Contents(), blockCount);
    }

    /** The receive loop, over the datagrams that arrive; blocks go to the disk in this order. */
    method CommandGet(arrivals: seq<Arrival>) returns (sent: seq<Request>, done: bool)
      requires Valid()
      modifies Repr()
      ensures Valid() && fresh(Repr() - old(Repr()))
      ensures var o := ReceiveAll(old(State()), arrivals);
        State() == o.client && sent == o.sent && done == o.done
    {
      ghost var start := State();
      sent, done := [], false;
      var i := 0;
      while i < |arrivals| && !done
        invariant i <= |arrivals| && Valid() && fresh(Repr() - old(Repr()))
        invariant var o := ReceiveAll(start, arrivals[..i]);
          State() == o.client && sent == o.sent && done == o.done
      {
        assert arrivals[..i + 1][..i] == arrivals[..i];
        var more, stored;
        more, stored, done := Receive(arrivals[i]);
        sent := sent + more;
        i := i + 1;
      }
      if done {
        DoneStays(start, arrivals, i);
      } else {
        assert arrivals[..i] == arrivals;
      }
    }
  }

  /** When the client breaks out of the loop no block is lost, so the recount finds none. */
  lemma NothingLost(c: Client, arrivals: seq<Arrival>)
    requires c.Inv()
    requires forall a | a in arrivals :: 1 <= a.datagram.block <= c.blockCount
    ensures ReceiveAll(c, arrivals).done ==> ReceiveAll(c, arrivals).client.Missing() == {}
  {
    ReceiveAllInv(c, arrivals);
  }

  lemma {:induction false} ReceiveAllInv(c: Client, arrivals: seq<Arrival>)
    requires c.Inv()
    requires forall a | a in arrivals :: 1 <= a.datagram.block <= c.blockCount
    ensures var o := ReceiveAll(c, arrivals);
      && o.client.Inv() && o.client.blockCount == c.blockCount
      && (o.done ==> o.client.received == Blocks(c.blockCount))
    decreases |arrivals|
  {
    if arrivals == [] {
    } else {
      var front, last := arrivals[..|arrivals| - 1], arrivals[|arrivals| - 1];
      assert last in arrivals && forall a | a in front :: a in arrivals;
      ReceiveAllInv(c, front);
      var o := ReceiveAll(c, front);
      if !o.done {
        ReceiveInv(o.client, last);
        ReceiveGrows(o.client, last);
        if o.client.Receive(last).done {
          DoneHasAll(o.client, last);
        }
      }
    }
  }

  lemma DoneHasAll(c: Client, a: Arrival)
    requires c.Inv() && 1 <= a.datagram.block <= c.blockCount && c.Receive(a).done
    ensures c.Receive(a).client.received == Blocks(c.blockCount)
  {
    ReceiveInv(c, a);
    ReceiveGrows(c, a);
    ReceivedFits(c.Receive(a).client.received, c.blockCount);
  }

  /** Once the client broke out, further datagrams are not received. */
  lemma {:induction false} DoneStays(c: Client, arrivals: seq<Arrival>, k: nat)
    requires k <= |arrivals| && ReceiveAll(c, arrivals[..k]).done
    ensures ReceiveAll(c, arrivals) == ReceiveAll(c, arrivals[..k])
    decreases |arrivals| - k
  {
    if k == |arrivals| {
      assert arrivals[..k] == arrivals;
    } else {
      assert arrivals[..k + 1][..k] == arrivals[..k];
      DoneStays(c, arrivals, k + 1);
    }
  }
}
