/** Constants and message types shared by the Tsunami client and server. */
module Tsunami {

  /** Requests sent to the server at once, and the count that triggers a restart instead. */
  const MAX_RETRANSMISSION_BUFFER: nat := 2048

  /** The retransmission table stops growing at this many entries. */
  const TABLE_CAP: nat := 32 * MAX_RETRANSMISSION_BUFFER

  /** Initial capacity of the retransmission table. */
  const DEFAULT_TABLE_SIZE: nat := 4096

  /** Number of slots in the ring buffer between the network and the disk thread. */
  const MAX_BLOCKS_QUEUED: nat := 4096

  /** One more than the largest value of a 32-bit unsigned field. */
  const TWO_TO_THE_32: nat := 0x1_0000_0000

  datatype BlockType = Original | Terminate | Retransmission

  /** A UDP datagram without its payload. */
  datatype Datagram = Datagram(block: nat, kind: BlockType)

  /** A record on the control connection from the client to the server. */
  datatype Request =
    | Retransmit(block: nat)
    | Restart(block: nat)
    | Stop
    | ErrorRate(rate: nat)

  /** A request as the server understands it; `kind` is a request type that does not exist. */
  datatype Decoded = Known(request: Request) | Unknown(kind: nat)

  function Min(a: nat, b: nat): nat {
    if a < b then a else b
  }

  /** Addition of 32-bit unsigned values, with wrap-around. */
  function Add32(a: nat, b: nat): nat {
    if a + b < TWO_TO_THE_32 then a + b else a + b - TWO_TO_THE_32
  }

  /** Block numbers of a file with `n` blocks. */
  predicate InFile(n: nat, b: nat) {
    1 <= b <= n
  }

  /** The blocks 1, 2, ..., n of a file. */
  function Blocks(n: nat): (s: set<nat>) {
    set b: nat | b <= n && InFile(n, b)
  }

  lemma {:induction false} BlocksSize(n: nat)
    ensures |Blocks(n)| == n
  {
    if n == 0 {
      assert Blocks(0) == {};
    } else {
      BlocksSize(n - 1);
      assert Blocks(n) == Blocks(n - 1) + {n};
    }
  }

  /** A subset of a finite set that is as large as the set is the set. */
  lemma FullSubset<T>(a: set<T>, b: set<T>)
    requires a <= b && |a| >= |b|
    ensures a == b
  {
    if a != b {
      var x :| x in b && x !in a;
      SubsetSize(a, b - {x});
    }
  }

  lemma {:induction false} SubsetSize<T>(a: set<T>, b: set<T>)
    requires a <= b
    ensures |a| <= |b|
    decreases a
  {
    if x :| x in a {
      SubsetSize(a - {x}, b - {x});
    }
  }
}
