/** The table of blocks that the client wants to be sent again. */
module Retransmit {
  import opened Tsunami
  import opened BlockMap

  // ---------- Specification on sequences ----------

  predicate Ascending(t: seq<nat>) {
    forall i, j | 0 <= i < j < |t| :: t[i] < t[j]
  }

  /** Ordered insertion that drops duplicates. */
  function InsertSorted(t: seq<nat>, b: nat): seq<nat> {
    if t == [] then [b]
    else if t[0] < b then [t[0]] + InsertSorted(t[1..], b)
    else if t[0] == b then t
    else [b] + t
  }

  /** Both builds of the table: ordered insertion, or appending. */
  function Insert(sorting: bool, t: seq<nat>, b: nat): seq<nat> {
    if sorting then InsertSorted(t, b) else t + [b]
  }

  /** The entries of `t` that are in `missing`, in their order in `t`. */
  function Wanted(t: seq<nat>, missing: set<nat>): seq<nat> {
    if t == [] then []
    else Wanted(t[..|t| - 1], missing) + if t[|t| - 1] in missing then [t[|t| - 1]] else []
  }

  function Take(t: seq<nat>, k: nat): seq<nat> {
    t[..Min(|t|, k)]
  }

  // ---------- Insertion ----------

  lemma {:induction false} InsertSortedElements(t: seq<nat>, b: nat)
    ensures forall x :: x in InsertSorted(t, b) <==> x in t || x == b
    ensures |t| <= |InsertSorted(t, b)| <= |t| + 1
  {
    if t == [] {
    } else if t[0] < b {
      InsertSortedElements(t[1..], b);
      assert t == [t[0]] + t[1..];
    }
  }

  lemma {:induction false} InsertSortedAscends(t: seq<nat>, b: nat)
    requires Ascending(t)
    ensures Ascending(InsertSorted(t, b))
  {
    if t == [] {
    } else if t[0] < b {
      InsertSortedAscends(t[1..], b);
      var r := InsertSorted(t[1..], b);
      InsertSortedElements(t[1..], b);
      forall j | 0 <= j < |r|
        ensures t[0] < r[j]
      {
        assert r[j] in r;
      }
    }
  }

  lemma SplitAfterFirst(t: seq<nat>, b: nat, p: nat)
    requires 0 < p <= |t|
    ensures [t[0]] + (t[1..][..p - 1] + [b] + t[1..][p - 1..]) == t[..p] + [b] + t[p..]
  {
  }

  /** Where the insertion point is, the result of an ordered insertion follows. */
  lemma {:induction false} InsertSortedAt(t: seq<nat>, b: nat, p: nat)
    requires p <= |t|
    requires forall i | 0 <= i < p :: t[i] < b
    requires p < |t| ==> b <= t[p]
    ensures InsertSorted(t, b) == if p < |t| && t[p] == b then t else t[..p] + [b] + t[p..]
  {
    if p > 0 {
      var rest := t[1..];
      InsertSortedAt(rest, b, p - 1);
      if p < |t| && t[p] == b {
        assert t == [t[0]] + rest;
      } else {
        SplitAfterFirst(t, b, p);
      }
    }
  }

  /** Whichever build: the new table holds the old requests and `b`, and is one longer at most. */
  lemma InsertElements(sorting: bool, t: seq<nat>, b: nat)
    ensures forall x :: x in Insert(sorting, t, b) <==> x in t || x == b
    ensures |Insert(sorting, t, b)| <= |t| + 1
  {
    if sorting {
      InsertSortedElements(t, b);
    }
  }

  // ---------- Compaction ----------

  lemma {:induction false} WantedElements(t: seq<nat>, missing: set<nat>)
    ensures forall x :: x in Wanted(t, missing) <==> x in t && x in missing
    ensures |Wanted(t, missing)| <= |t|
  {
    if t == [] {
    } else {
      WantedElements(t[..|t| - 1], missing);
      assert t == t[..|t| - 1] + [t[|t| - 1]];
    }
  }

  lemma {:induction false} WantedAscends(t: seq<nat>, missing: set<nat>)
    requires Ascending(t)
    ensures Ascending(Wanted(t, missing))
  {
    if t == [] {
    } else {
      var front := t[..|t| - 1];
      WantedAscends(front, missing);
      WantedElements(front, missing);
      forall i | 0 <= i < |Wanted(front, missing)|
        ensures Wanted(front, missing)[i] < t[|t| - 1]
      {
        assert Wanted(front, missing)[i] in Wanted(front, missing);
      }
    }
  }

  /** A longer table wants what a shorter one wants, first. */
  lemma {:induction false} WantedPrefix(t: seq<nat>, missing: set<nat>, k: nat)
    requires k <= |t|
    ensures Wanted(t[..k], missing) <= Wanted(t, missing)
    decreases |t| - k
  {
    if k == |t| {
      assert t[..k] == t;
    } else {
      assert t[..k + 1][..k] == t[..k];
      WantedPrefix(t, missing, k + 1);
    }
  }

  lemma WantedNext(t: seq<nat>, missing: set<nat>, k: nat)
    requires k < |t|
    ensures Wanted(t[..k + 1], missing) == Wanted(t[..k], missing) + if t[k] in missing then [t[k]] else []
  {
    assert t[..k + 1][..k] == t[..k];
  }

  /** Stopping at the end of the table, or with enough found, finds the first wanted entries. */
  lemma TakeWanted(t: seq<nat>, missing: set<nat>, k: nat)
    requires k <= |t| && |Wanted(t[..k], missing)| <= MAX_RETRANSMISSION_BUFFER
    requires k == |t| || |Wanted(t[..k], missing)| == MAX_RETRANSMISSION_BUFFER
    ensures Wanted(t[..k], missing) == Take(Wanted(t, missing), MAX_RETRANSMISSION_BUFFER)
  {
    if k == |t| {
      assert t[..k] == t;
    } else {
      WantedPrefix(t, missing, k);
    }
  }

  /** A scan of `t` has reached `entry`: what it kept leads `now`, the rest is as it was. */
  predicate Scanned(t: seq<nat>, now: seq<nat>, missing: set<nat>, kept: seq<nat>, entry: nat) {
    && entry <= |t| == |now| && |kept| <= entry
    && kept == Wanted(t[..entry], missing) && kept == now[..|kept|]
    && now[entry..] == t[entry..]
    && (entry == |t| > 0 ==> now[|t| - 1] == t[|t| - 1])
  }

  lemma ScannedNext(t: seq<nat>, now: seq<nat>, missing: set<nat>, kept: seq<nat>, entry: nat)
    requires Scanned(t, now, missing, kept, entry) && entry < |t|
    ensures now[entry] == t[entry]
    ensures t[entry] in missing ==> Scanned(t, now[|kept| := t[entry]], missing, kept + [t[entry]], entry + 1)
    ensures t[entry] !in missing ==> Scanned(t, now, missing, kept, entry + 1)
  {
    WantedNext(t, missing, entry);
    assert now[entry] == now[entry..][0] == t[entry..][0];
    assert now[entry + 1..] == now[entry..][1..];
    var moved := now[|kept| := t[entry]];
    assert moved[..|kept| + 1] == kept + [t[entry]];
    assert moved[entry + 1..] == now[entry + 1..];
  }

  /** What a scan that ends at `entry` leaves in the table. */
  lemma ScanEnds(t: seq<nat>, now: seq<nat>, missing: set<nat>, kept: seq<nat>, entry: nat)
    requires Scanned(t, now, missing, kept, entry) && |kept| <= MAX_RETRANSMISSION_BUFFER
    requires entry == |t| || |kept| == MAX_RETRANSMISSION_BUFFER
    ensures kept == Take(Wanted(t, missing), MAX_RETRANSMISSION_BUFFER) == now[..|kept|]
    ensures |t| > 0 ==> now[|t| - 1] == t[|t| - 1]
  {
    TakeWanted(t, missing, entry);
    if entry < |t| {
      assert now[entry..][|t| - 1 - entry] == t[entry..][|t| - 1 - entry];
    }
  }

  /** An ascending table of entries in `missing` has no more entries than `missing`. */
  lemma {:induction false} AscendingSize(t: seq<nat>, s: set<nat>)
    requires Ascending(t)
    requires forall x | x in t :: x in s
    ensures |t| <= |s|
  {
    if t == [] {
    } else {
      var front := t[..|t| - 1];
      forall x | x in front
        ensures x in s - {t[|t| - 1]}
      {
        assert x in t;
      }
      AscendingSize(front, s - {t[|t| - 1]});
    }
  }

  /** The places in `t` of the entries that are in `missing`, in order. */
  predicate Picks(places: seq<nat>, t: seq<nat>, missing: set<nat>) {
    && Ascending(places)
    && (forall i | 0 <= i < |places| :: places[i] < |t|)
    && forall k: nat | k < |t| :: t[k] in missing <==> k in places
  }

  lemma PicksNext(front: seq<nat>, t: seq<nat>, missing: set<nat>)
    requires t != [] && Picks(front, t[..|t| - 1], missing)
    ensures Picks(if t[|t| - 1] in missing then front + [|t| - 1] else front, t, missing)
  {
    var n := |t| - 1;
    assert n !in front;
    assert forall k: nat | k < n :: t[..n][k] == t[k];
  }

  /** The entries of `t` at these places. */
  predicate At(list: seq<nat>, places: seq<nat>, t: seq<nat>) {
    |list| == |places| && forall i | 0 <= i < |list| :: places[i] < |t| && list[i] == t[places[i]]
  }

  /** Entry for entry: what is wanted are the entries in `missing`, repetitions included, in order. */
  lemma {:induction false} WantedPicks(t: seq<nat>, missing: set<nat>) returns (places: seq<nat>)
    ensures Picks(places, t, missing) && At(Wanted(t, missing), places, t)
  {
    if t == [] {
      places := [];
    } else {
      var n := |t| - 1;
      var front := WantedPicks(t[..n], missing);
      PicksNext(front, t, missing);
      AtNext(Wanted(t[..n], missing), front, t);
      places := if t[n] in missing then front + [n] else front;
    }
  }

  lemma AtNext(list: seq<nat>, places: seq<nat>, t: seq<nat>)
    requires t != [] && At(list, places, t[..|t| - 1])
    ensures At(list, places, t) && At(list + [t[|t| - 1]], places + [|t| - 1], t)
  {
    forall i | 0 <= i < |list|
      ensures places[i] < |t| && list[i] == t[places[i]]
    {
      assert list[i] == t[..|t| - 1][places[i]];
    }
  }

  // ---------- The table ----------

  class RetransmitTable {
    var table: array<nat>
    var tableSize: nat
    var indexMax: nat

    ghost predicate Valid()
      reads this
    {
      tableSize == table.Length && indexMax <= tableSize && 1 <= tableSize
    }

    /** The outstanding requests. */
    ghost function Entries(): seq<nat>
      requires Valid()
      reads this, table
    {
      table[..indexMax]
    }

    constructor ()
      ensures Valid() && fresh(table)
      ensures Entries() == [] && tableSize == DEFAULT_TABLE_SIZE
    {
      table := new nat[DEFAULT_TABLE_SIZE](_ => 0);
      tableSize := DEFAULT_TABLE_SIZE;
      indexMax := 0;
    }

    /** Doubles the table; the new half is zero. */
    method Grow()
      requires Valid()
      modifies this
      ensures Valid() && fresh(table)
      ensures tableSize == 2 * old(tableSize)
      ensures Entries() == old(Entries())
      ensures forall i | old(tableSize) <= i < tableSize :: table[i] == 0
    {
      var bigger := new nat[2 * tableSize];
      forall i | 0 <= i < bigger.Length {
        bigger[i] := if i < tableSize then table[i] else 0;
      }
      table := bigger;
      tableSize := 2 * tableSize;
    }

    /** Adds a request for a block that the client does not have; the cap refuses it silently. */
    method Request(sorting: bool, block: nat) returns (refused: bool)
      requires Valid()
      modifies this, table
      ensures Valid() && (table == old(table) || fresh(table))
      ensures refused <==> old(indexMax >= tableSize) && old(indexMax >= TABLE_CAP)
      ensures tableSize == if old(indexMax >= tableSize) && !refused then 2 * old(tableSize) else old(tableSize)
      ensures Entries() == if refused then old(Entries()) else Insert(sorting, old(Entries()), block)
      ensures !sorting && !refused ==> Entries() == old(Entries()) + [block]
      ensures sorting && !refused && Ascending(old(Entries())) ==>
        Ascending(Entries()) && forall x :: x in Entries() <==> x in old(Entries()) || x == block
    {
      if indexMax >= tableSize {
        if indexMax >= TABLE_CAP {
          return true;
        }
        Grow();
      }
      refused := false;
      if sorting {
        InsertSortedElements(Entries(), block);
        if Ascending(Entries()) {
          InsertSortedAscends(Entries(), block);
        }
        InsertInOrder(block);
      } else {
        table[indexMax] := block;
        indexMax := indexMax + 1;
      }
    }

    /** Seeks the insertion point, then shifts the rest of the table upwards. */
    method InsertInOrder(block: nat)
      requires Valid() && indexMax < tableSize
      modifies this`indexMax, table
      ensures Valid()
      ensures Entries() == InsertSorted(old(Entries()), block)
    {
      ghost var t := Entries();
      var idx := 0;
      while idx < indexMax && table[idx] < block
        invariant idx <= indexMax
        invariant forall i | 0 <= i < idx :: table[i] < block
      {
        idx := idx + 1;
      }
      InsertSortedAt(t, block, idx);
      if idx == indexMax {
        table[indexMax] := block;
        indexMax := indexMax + 1;
      } else if table[idx] != block {
        ShiftIn(idx, block);
        indexMax := indexMax + 1;
      }
    }

    /** Stores `block` at `idx` and moves the entries from there on up by one. */
    method ShiftIn(idx: nat, block: nat)
      requires Valid() && idx < indexMax < tableSize
      modifies table
      ensures table[..indexMax + 1] == old(table[..idx]) + [block] + old(table[idx..indexMax])
    {
      ghost var t := table[..];
      var insert, at := block, idx;
      while at <= indexMax
        invariant idx <= at <= indexMax + 1
        invariant insert == if at == idx then block else t[at - 1]
        invariant forall i | 0 <= i < idx :: table[i] == t[i]
        invariant at > idx ==> table[idx] == block
        invariant forall i | idx < i < at :: table[i] == t[i - 1]
        invariant forall i | at <= i < tableSize :: table[i] == t[i]
      {
        var up := table[at];
        table[at] := insert;
        at := at + 1;
        insert := up;
      }
    }

    /** Keeps and lists the request at `entry`, if its block is still missing. */
    method Consider(got: BlockMap, retransmission: array<nat>, entry: nat, count: nat) returns (next: nat)
      requires Valid() && got.Valid()
      requires table as object != got.received as object && retransmission as object != got.received as object
      requires table != retransmission
      requires count <= entry < indexMax && count < retransmission.Length
      modifies table, retransmission
      ensures next == count + if old(table[entry]) in Missing(got) then 1 else 0
      ensures Entries() == if next > count then old(Entries())[count := old(table[entry])] else old(Entries())
      ensures retransmission[..next] == old(retransmission[..count]) + if next > count then [old(table[entry])] else []
    {
      var block := table[entry];
      var have := got.GotBlock(block);
      next := count;
      if block != 0 && !have {
        table[count] := block;
        retransmission[count] := block;
        next := count + 1;
      }
    }

    /**
     * Moves the requests that are still wanted to the front of the table, stopping when
     * MAX_RETRANSMISSION_BUFFER have been found, and lists them as messages.
     */
    method Compact(got: BlockMap) returns (messages: seq<nat>)
      requires Valid() && got.Valid()
      requires table as object != got.received as object  // two allocations
      modifies table
      ensures Valid()
      ensures messages == Take(Wanted(old(Entries()), old(Missing(got))), MAX_RETRANSMISSION_BUFFER)
      ensures |messages| <= indexMax && table[..|messages|] == messages
      ensures indexMax > 0 ==> table[indexMax - 1] == old(table[indexMax - 1])
    {
      ghost var t, missing := Entries(), Missing(got);
      var retransmission := new nat[MAX_RETRANSMISSION_BUFFER];
      var entry, count := 0, 0;
      while entry < indexMax && count < MAX_RETRANSMISSION_BUFFER
        invariant count <= entry <= indexMax && count <= MAX_RETRANSMISSION_BUFFER
        invariant Scanned(t, Entries(), missing, retransmission[..count], entry)
      {
        ScannedNext(t, Entries(), missing, retransmission[..count], entry);
        count := Consider(got, retransmission, entry, count);
        entry := entry + 1;
      }
      messages := retransmission[..count];
      ScanEnds(t, Entries(), missing, messages, entry);
      assert Entries()[..count] == table[..count];
    }
  }

  /** The blocks of the file that are not recorded. */
  ghost function Missing(got: BlockMap): set<nat>
    requires got.Valid()
    reads got.received
  {
    Blocks(got.blockCount) - got.Contents()
  }
}
