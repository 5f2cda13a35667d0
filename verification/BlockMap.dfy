/** The bitmap of received blocks, kept as an array of bytes. */
module BlockMap {
  import opened Tsunami

  /** The mask of bit `k` of a byte. */
  function Bit(k: nat): bv8
    requires k < 8
  {
    [1, 2, 4, 8, 16, 32, 64, 128][k]
  }

  lemma BitIsShift(k: nat)
    requires k < 8
    ensures Bit(k) == (1 as bv8) << k
  {
    assert k == 0 || k == 1 || k == 2 || k == 3 || k == 4 || k == 5 || k == 6 || k == 7;
  }

  /** Whether block `b` is recorded in the bytes. */
  predicate HasBit(bytes: seq<bv8>, b: nat)
    requires b / 8 < |bytes|
  {
    bytes[b / 8] & Bit(b % 8) != 0
  }

  /** The set of block numbers 0..n that the bytes record. */
  function Recorded(bytes: seq<bv8>, n: nat): set<nat>
    requires n / 8 < |bytes|
  {
    (if HasBit(bytes, n) then {n} else {}) + (if n == 0 then {} else Recorded(bytes, n - 1))
  }

  lemma {:induction false} RecordedBit(bytes: seq<bv8>, n: nat, b: nat)
    requires n / 8 < |bytes|
    ensures b in Recorded(bytes, n) <==> b <= n && HasBit(bytes, b)
  {
    if n == 0 {
    } else {
      RecordedBit(bytes, n - 1, b);
    }
  }

  /** Setting one bit of a byte changes that bit only. */
  lemma BitIndependence(x: bv8, i: nat, j: nat)
    requires i < 8 && j < 8
    ensures (x | Bit(i)) & Bit(j) != 0 <==> i == j || x & Bit(j) != 0
  {
  }

  /** Setting the bit of block `b` adds `b` to the recorded set and nothing else. */
  lemma MarkAddsOne(bytes: seq<bv8>, n: nat, b: nat)
    requires n / 8 < |bytes| && b <= n
    ensures Recorded(bytes[b / 8 := bytes[b / 8] | Bit(b % 8)], n) == Recorded(bytes, n) + {b}
  {
    var after := bytes[b / 8 := bytes[b / 8] | Bit(b % 8)];
    forall c: nat
      ensures c in Recorded(after, n) <==> c == b || c in Recorded(bytes, n)
    {
      RecordedBit(after, n, c);
      RecordedBit(bytes, n, c);
      if c / 8 == b / 8 {
        BitIndependence(bytes[b / 8], b % 8, c % 8);
      }
    }
  }

  lemma NothingRecorded(bytes: seq<bv8>, n: nat)
    requires n / 8 < |bytes|
    requires forall i | 0 <= i < |bytes| :: bytes[i] == 0
    ensures Recorded(bytes, n) == {}
  {
    forall b: nat
      ensures b !in Recorded(bytes, n)
    {
      RecordedBit(bytes, n, b);
    }
  }

  /** The number of blocks 1..n outside `held`. */
  function CountOutside(held: set<nat>, n: nat): nat {
    if n == 0 then 0 else CountOutside(held, n - 1) + if n in held then 0 else 1
  }

  lemma {:induction false} CountOutsideIsSize(held: set<nat>, n: nat)
    ensures CountOutside(held, n) == |Blocks(n) - held|
  {
    if n == 0 {
    } else {
      CountOutsideIsSize(held, n - 1);
      if n in held {
        assert Blocks(n) - held == Blocks(n - 1) - held;
      } else {
        assert Blocks(n) - held == (Blocks(n - 1) - held) + {n};
      }
    }
  }

  class BlockMap {
    const blockCount: nat
    const received: array<bv8>

    ghost predicate Valid() {
      received.Length == blockCount / 8 + 2
    }

    /** The blocks recorded so far. */
    ghost function Contents(): (s: set<nat>)
      requires Valid()
      reads received
    {
      Recorded(received[..], blockCount)
    }

    constructor (blockCount: nat)
      ensures Valid() && fresh(received)
      ensures this.blockCount == blockCount
      ensures Contents() == {}
    {
      this.blockCount := blockCount;
      received := new bv8[blockCount / 8 + 2](_ => 0);
      new;
      NothingRecorded(received[..], blockCount);
    }

    /** True for recorded blocks and for block numbers past the end of the file. */
    method GotBlock(b: nat) returns (got: bool)
      requires Valid()
      ensures got <==> b > blockCount || b in Contents()
    {
      if b > blockCount {
        return true;
      }
      RecordedBit(received[..], blockCount, b);
      BitIsShift(b % 8);
      got := received[b / 8] & ((1 as bv8) << (b % 8)) != 0;
    }

    method Mark(b: nat)
      requires Valid() && b <= blockCount
      modifies received
      ensures Contents() == old(Contents()) + {b}
    {
      MarkAddsOne(received[..], blockCount, b);
      ghost var before := received[..];
      BitIsShift(b % 8);
      received[b / 8] := received[b / 8] | ((1 as bv8) << (b % 8));
      assert received[..] == before[b / 8 := before[b / 8] | Bit(b % 8)];
    }

    /** Counts the blocks that never arrived; `CountOutsideIsSize` says what the count means. */
    method CountLost() returns (lost: nat)
      requires Valid()
      ensures lost == CountOutside(Contents(), blockCount)
    {
      lost := 0;
      var block := 1;
      while block <= blockCount
        invariant 1 <= block <= blockCount + 1
        invariant lost == CountOutside(Contents(), block - 1)
      {
        var got := GotBlock(block);
        if !got {
          lost := lost + 1;
        }
        block := block + 1;
      }

    }
  }
}
