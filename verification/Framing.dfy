/**
 * Requests as the server finds them: records of fixed size that are put together in one buffer from
 * whatever pieces the control connection delivers, a buffer that the server also uses for the report
 * it makes up when the client seems dead.
 */
module Framing {
  import opened Tsunami

  newtype Byte = x: int | 0 <= x < 256

  /** The size of a record: a type, two bytes of padding, a block number and an error rate. */
  const RECORD: nat := 12

  const TWO_TO_THE_16: nat := 0x1_0000

  // ---------- The contents of a record ----------

  function Bytes16(v: nat): (b: seq<Byte>)
    requires v < TWO_TO_THE_16
    ensures |b| == 2
  {
    [(v / 256) as Byte, (v % 256) as Byte]
  }

  function Bytes32(v: nat): (b: seq<Byte>)
    requires v < TWO_TO_THE_32
    ensures |b| == 4
  {
    Bytes16(v / TWO_TO_THE_16) + Bytes16(v % TWO_TO_THE_16)
  }

  function Value16(b: seq<Byte>): (v: nat)
    requires |b| == 2
    ensures v < TWO_TO_THE_16
  {
    b[0] as nat * 256 + b[1] as nat
  }

  function Value32(b: seq<Byte>): (v: nat)
    requires |b| == 4
    ensures v < TWO_TO_THE_32
  {
    Value16(b[..2]) * TWO_TO_THE_16 + Value16(b[2..])
  }

  predicate Sendable(q: Request) {
    match q
    case Retransmit(b) => b < TWO_TO_THE_32
    case Restart(b) => b < TWO_TO_THE_32
    case Stop => true
    case ErrorRate(rate) => rate < TWO_TO_THE_32
  }

  /** The record that the client writes; the padding may be anything. */
  function Encode(q: Request, padding: (Byte, Byte)): (record: seq<Byte>)
    requires Sendable(q)
    ensures |record| == RECORD
  {
    var pad := [padding.0, padding.1];
    match q
    case Retransmit(b) => Bytes16(0) + pad + Bytes32(b) + Bytes32(0)
    case Restart(b) => Bytes16(1) + pad + Bytes32(b) + Bytes32(0)
    case Stop => Bytes16(2) + pad + Bytes32(0) + Bytes32(0)
    case ErrorRate(rate) => Bytes16(3) + pad + Bytes32(0) + Bytes32(rate)
  }

  function Decode(record: seq<Byte>): Decoded
    requires |record| == RECORD
  {
    var kind := Value16(record[..2]);
    if kind == 0 then Known(Retransmit(Value32(record[4..8])))
    else if kind == 1 then Known(Restart(Value32(record[4..8])))
    else if kind == 2 then Known(Stop)
    else if kind == 3 then Known(ErrorRate(Value32(record[8..12])))
    else Unknown(kind)
  }

  lemma Bytes32RoundTrip(v: nat)
    requires v < TWO_TO_THE_32
    ensures Value32(Bytes32(v)) == v
  {
    var hi, lo := v / TWO_TO_THE_16, v % TWO_TO_THE_16;
    assert Bytes32(v)[..2] == Bytes16(hi);
    assert Bytes32(v)[2..] == Bytes16(lo);
  }

  lemma RoundTrip(q: Request, padding: (Byte, Byte))
    requires Sendable(q)
    ensures Decode(Encode(q, padding)) == Known(q)
  {
    var record := Encode(q, padding);
    var kind := if q.Retransmit? then 0 else if q.Restart? then 1 else if q.Stop? then 2 else 3;
    var block := if q.Retransmit? || q.Restart? then q.block else 0;
    var rate := if q.ErrorRate? then q.rate else 0;
    assert record[..2] == Bytes16(kind);
    assert record[4..8] == Bytes32(block);
    assert record[8..12] == Bytes32(rate);
    Bytes32RoundTrip(block);
    Bytes32RoundTrip(rate);
  }

  /** The bytes at `at` are the number in network byte order, the most significant byte first. */
  predicate Network32(b: seq<Byte>, at: nat, v: nat)
    requires at + 4 <= |b|
  {
    v == b[at] as nat * 0x100_0000 + b[at + 1] as nat * 0x1_0000 + b[at + 2] as nat * 0x100 + b[at + 3] as nat
  }

  /** What a record says, byte for byte. */
  lemma DecodeBytes(r: seq<Byte>)
    requires |r| == RECORD
    ensures r[0] == 0 && r[1] == 0 ==>
      exists v: nat :: Network32(r, 4, v) && Decode(r) == Known(Retransmit(v))
    ensures r[0] == 0 && r[1] == 1 ==>
      exists v: nat :: Network32(r, 4, v) && Decode(r) == Known(Restart(v))
    ensures r[0] == 0 && r[1] == 2 ==> Decode(r) == Known(Stop)
    ensures r[0] == 0 && r[1] == 3 ==>
      exists v: nat :: Network32(r, 8, v) && Decode(r) == Known(ErrorRate(v))
    ensures r[0] > 0 || r[1] > 3 ==> Decode(r) == Unknown(r[0] as nat * 0x100 + r[1] as nat)
  {
    assert Network32(r, 4, Value32(r[4..8]));
    assert Network32(r, 8, Value32(r[8..12]));
  }

  /** And what the client writes, byte for byte. */
  lemma EncodeBytes(q: Request, padding: (Byte, Byte))
    requires Sendable(q)
    ensures var r := Encode(q, padding);
      && r[0] == 0
      && r[1] == (match q case Retransmit(_) => 0 case Restart(_) => 1 case Stop => 2 case ErrorRate(_) => 3)
      && r[2] == padding.0 && r[3] == padding.1
      && Network32(r, 4, if q.Retransmit? || q.Restart? then q.block else 0)
      && Network32(r, 8, if q.ErrorRate? then q.rate else 0)
  {
    var block := if q.Retransmit? || q.Restart? then q.block else 0;
    var rate := if q.ErrorRate? then q.rate else 0;
    Bytes32Network(block);
    Bytes32Network(rate);
  }

  lemma Bytes32Network(v: nat)
    requires v < TWO_TO_THE_32
    ensures Network32(Bytes32(v), 0, v)
  {
    var hi, lo := v / TWO_TO_THE_16, v % TWO_TO_THE_16;
    assert v == hi * TWO_TO_THE_16 + lo;
    assert hi == (hi / 256) * 256 + hi % 256;
    assert lo == (lo / 256) * 256 + lo % 256;
  }

  // ---------- Putting records together ----------

  /** A pass of the transfer loop: what the read returned, and whether the client was taken for dead. */
  datatype Pass = Pass(bytes: seq<Byte>, dead: bool)

  /** Bytes 4 to 7 and 8 to 11 are converted to the byte order of the host in place. */
  function ToHost(b: seq<Byte>, little: bool): (h: seq<Byte>)
    requires |b| == RECORD
    ensures |h| == RECORD
  {
    if little then b[..4] + [b[7], b[6], b[5], b[4]] + [b[11], b[10], b[9], b[8]] else b
  }

  /** The made-up report of complete loss, written over the buffer and handled. */
  function MakeUp(b: seq<Byte>, little: bool): (m: seq<Byte>)
    requires |b| == RECORD
    ensures |m| == RECORD
  {
    ToHost(Encode(ErrorRate(100000), (b[2], b[3])), little)
  }

  /** A little-endian host holds the four bytes of a number the other way round. */
  lemma ToHostBytes(b: seq<Byte>)
    requires |b| == RECORD
    ensures ToHost(b, false) == b
    ensures ToHost(b, true) == [b[0], b[1], b[2], b[3], b[7], b[6], b[5], b[4], b[11], b[10], b[9], b[8]]
  {
  }

  /** The made-up report, byte for byte, on hosts of either byte order. */
  lemma MakeUpBytes(b: seq<Byte>)
    requires |b| == RECORD
    ensures MakeUp(b, false) == [0, 3, b[2], b[3], 0, 0, 0, 0, 0, 1, 134, 160]
    ensures MakeUp(b, true) == [0, 3, b[2], b[3], 0, 0, 0, 0, 160, 134, 1, 0]
  {
  }

  /**
   * The buffer and how much of the next record it holds.  `records` are the records handled so far,
   * `stream` the bytes read so far, and `harmed` tells whether a made-up report has changed a byte of
   * a record that was on its way; no step depends on these histories.
   */
  datatype Reader = Reader(
    little: bool,
    buffer: seq<Byte>,
    len: nat,
    records: seq<seq<Byte>>,
    stream: seq<Byte>,
    harmed: bool)
  {
    predicate Valid() {
      |buffer| == RECORD && len < RECORD && forall i | 0 <= i < |records| :: |records[i]| == RECORD
    }

    /** A stop request has ended the loop. */
    predicate Stopped()
      requires Valid()
    {
      |records| > 0 && Decode(records[|records| - 1]) == Known(Stop)
    }

    /** A read returns what is missing at most; a pass that handles a record shows a living client. */
    predicate Fits(pass: Pass) {
      len + |pass.bytes| <= RECORD && (pass.dead ==> len + |pass.bytes| < RECORD)
    }

    /** The buffer after the read. */
    function Filled(pass: Pass): (b: seq<Byte>)
      requires Valid() && Fits(pass)
      ensures |b| == RECORD
    {
      buffer[..len] + pass.bytes + buffer[len + |pass.bytes|..]
    }

    /** One pass of the loop. */
    function Look(pass: Pass): (r: Reader)
      requires Valid() && Fits(pass)
      ensures r.Valid()
    {
      var len' := len + |pass.bytes|;
      var buffer' := Filled(pass);
      var stream' := stream + pass.bytes;
      if len' == RECORD then
        Reader(little, ToHost(buffer', little), 0, records + [buffer'], stream', harmed)
      else if pass.dead then
        var made := MakeUp(buffer', little);
        Reader(little, made, len', records, stream', harmed || made[..len'] != buffer'[..len'])
      else
        Reader(little, buffer', len', records, stream', harmed)
    }
  }

  /**
   * A pass, byte for byte.  What was read follows what was held; a complete record is handled, and its
   * numbers are left in the byte order of the host; else a client that seems dead leaves its report.
   */
  lemma LookExact(r: Reader, pass: Pass)
    requires r.Valid() && r.Fits(pass)
    ensures var held := r.buffer[..r.len] + pass.bytes;
      var b, r' := held + r.buffer[|held|..], r.Look(pass);
      && r'.little == r.little && r'.stream == r.stream + pass.bytes
      && (if |held| == RECORD then
            && r'.records == r.records + [held] && r'.len == 0
            && r'.buffer == if r.little then
                 [b[0], b[1], b[2], b[3], b[7], b[6], b[5], b[4], b[11], b[10], b[9], b[8]] else b
          else
            && r'.records == r.records && r'.len == |held|
            && r'.buffer == if !pass.dead then b
                            else if r.little then [0, 3, b[2], b[3], 0, 0, 0, 0, 160, 134, 1, 0]
                            else [0, 3, b[2], b[3], 0, 0, 0, 0, 0, 1, 134, 160])
  {
    var b := r.Filled(pass);
    ToHostBytes(b);
    MakeUpBytes(b);
    if r.len + |pass.bytes| == RECORD {
      assert b == r.buffer[..r.len] + pass.bytes;
    }
  }

  /** The transfer loop starts with an empty record; the buffer holds anything. */
  function Start(little: bool, buffer: seq<Byte>): Reader {
    Reader(little, buffer, 0, [], [], false)
  }

  /** The loop as far as a stop request; the passes are as reads return them. */
  ghost predicate Reads(r: Reader, passes: seq<Pass>, r': Reader)
    decreases |passes|
  {
    if passes == [] then r' == r
    else
      && r.Valid() && !r.Stopped() && r.Fits(passes[0])
      && Reads(r.Look(passes[0]), passes[1..], r')
  }

  /** `records` are the stream cut into pieces of the size of a record. */
  predicate Cut(records: seq<seq<Byte>>, stream: seq<Byte>) {
    && RECORD * |records| <= |stream| < RECORD * (|records| + 1)
    && forall i | 0 <= i < |records| :: Matches(records, stream, i)
  }

  predicate Matches(records: seq<seq<Byte>>, stream: seq<Byte>, i: nat)
    requires i < |records| && RECORD * |records| <= |stream|
  {
    records[i] == stream[RECORD * i..RECORD * i + RECORD]
  }

  /** The record on its way is in the buffer. */
  predicate Held(r: Reader) {
    r.len <= |r.buffer| && r.len <= |r.stream| && r.buffer[..r.len] == r.stream[|r.stream| - r.len..]
  }

  /** A byte of the record on its way is that of a made-up report, and not that of the stream. */
  predicate Broken(r: Reader, j: nat)
    requires r.Valid()
  {
    && j < r.len <= |r.stream|
    && r.buffer[j] == MakeUp(r.buffer, r.little)[j] != r.stream[|r.stream| - r.len + j]
  }

  /** Something was handled, or is going to be, that is not in the stream. */
  ghost predicate Wrong(r: Reader)
    requires r.Valid() && RECORD * |r.records| <= |r.stream|
  {
    || (exists j: nat :: Broken(r, j))
    || (exists i | 0 <= i < |r.records| :: !Matches(r.records, r.stream, i))
  }

  ghost predicate Inv(r: Reader) {
    && r.Valid()
    && |r.stream| == RECORD * |r.records| + r.len
    && (!r.harmed ==> Held(r) && forall i | 0 <= i < |r.records| :: Matches(r.records, r.stream, i))
    && (r.harmed ==> Wrong(r))
  }

  /** The records handled stay matched, or not, when more of the stream arrives. */
  lemma MatchesKept(r: Reader, pass: Pass, i: nat)
    requires Inv(r) && r.Fits(pass) && i < |r.records|
    ensures Matches(r.Look(pass).records, r.Look(pass).stream, i) <==> Matches(r.records, r.stream, i)
  {
    var r' := r.Look(pass);
    assert r'.stream[RECORD * i..RECORD * i + RECORD] == r.stream[RECORD * i..RECORD * i + RECORD];
  }

  /** A made-up report replaces all but the padding, and leaves another one as it is. */
  lemma MadeUpAgain(b: seq<Byte>, little: bool, j: nat)
    requires |b| == RECORD && j < RECORD
    ensures MakeUp(MakeUp(b, little), little) == MakeUp(b, little)
    ensures j != 2 && j != 3 ==> forall c: seq<Byte> | |c| == RECORD :: MakeUp(c, little)[j] == MakeUp(b, little)[j]
    ensures j == 2 || j == 3 ==> MakeUp(b, little)[j] == b[j]
  {
  }

  /** What was broken in the buffer stays so. */
  lemma BrokenStays(b: seq<Byte>, c: seq<Byte>, little: bool, j: nat)
    requires |b| == |c| == RECORD && j < RECORD && c[j] == b[j] == MakeUp(b, little)[j]
    ensures MakeUp(c, little)[j] == c[j] == MakeUp(MakeUp(c, little), little)[j]
  {
    MadeUpAgain(b, little, j);
    MadeUpAgain(c, little, j);
  }

  /** Without a made-up report in the middle of a record the buffer holds what the stream does. */
  lemma HeldKept(r: Reader, pass: Pass)
    requires Inv(r) && r.Fits(pass) && Held(r)
    ensures var (r', n) := (r.Look(pass), r.len + |pass.bytes|);
      r.Filled(pass)[..n] == r'.stream[|r'.stream| - n..]
  {
    var n := r.len + |pass.bytes|;
    var stream' := r.stream + pass.bytes;
    assert stream'[|stream'| - n..] == r.stream[|r.stream| - r.len..] + pass.bytes;
    assert r.Filled(pass)[..n] == r.buffer[..r.len] + pass.bytes;
  }

  lemma HarmArises(r: Reader, pass: Pass)
    requires Inv(r) && r.Fits(pass) && !r.harmed && r.Look(pass).harmed
    ensures exists j: nat :: Broken(r.Look(pass), j)
  {
    var n := r.len + |pass.bytes|;
    HeldKept(r, pass);
    var j := FirstChange(r.Filled(pass), r.little, n);
    assert r.Look(pass).stream[|r.stream| + |pass.bytes| - n..][j] == r.Filled(pass)[..n][j];
    assert Broken(r.Look(pass), j);
  }

  /** A byte that a made-up report changes. */
  lemma FirstChange(b: seq<Byte>, little: bool, n: nat) returns (j: nat)
    requires |b| == RECORD && n < RECORD && MakeUp(b, little)[..n] != b[..n]
    ensures j < n && MakeUp(MakeUp(b, little), little)[j] == MakeUp(b, little)[j] != b[j]
  {
    j :| j < n && MakeUp(b, little)[..n][j] != b[..n][j];
    MadeUpAgain(b, little, j);
  }

  lemma HarmAvoided(r: Reader, pass: Pass)
    requires Inv(r) && r.Fits(pass) && !r.Look(pass).harmed
    ensures var r' := r.Look(pass);
      Held(r') && (|r'.records| > |r.records| ==> Matches(r'.records, r'.stream, |r.records|))
  {
    HeldKept(r, pass);
  }

  /** A broken byte is handled with its record, or is still broken in the buffer. */
  lemma HarmHandled(r: Reader, pass: Pass, j: nat)
    requires Inv(r) && r.Fits(pass) && Broken(r, j) && r.len + |pass.bytes| == RECORD
    ensures var r' := r.Look(pass);
      !Matches(r'.records, r'.stream, |r.records|)
  {
    var r' := r.Look(pass);
    var i := |r.records|;
    assert r'.records[i][j] != r'.stream[RECORD * i..RECORD * i + RECORD][j];
  }

  lemma HarmCarried(r: Reader, pass: Pass, j: nat)
    requires Inv(r) && r.Fits(pass) && Broken(r, j) && r.len + |pass.bytes| < RECORD
    ensures Broken(r.Look(pass), j)
  {
    var put := r.Filled(pass);
    assert put[j] == r.buffer[j];
    BrokenStays(r.buffer, put, r.little, j);
  }

  lemma LookInv(r: Reader, pass: Pass)
    requires Inv(r) && r.Fits(pass)
    ensures Inv(r.Look(pass))
  {
    var r' := r.Look(pass);
    forall i | 0 <= i < |r.records|
      ensures Matches(r'.records, r'.stream, i) <==> Matches(r.records, r.stream, i)
    {
      MatchesKept(r, pass, i);
    }
    if !r'.harmed {
      HarmAvoided(r, pass);
    } else if !r.harmed {
      HarmArises(r, pass);
    } else if j: nat :| Broken(r, j) {
      if r.len + |pass.bytes| == RECORD {
        HarmHandled(r, pass, j);
      } else {
        HarmCarried(r, pass, j);
      }
    } else {
      var i: nat :| i < |r.records| && !Matches(r.records, r.stream, i);
      assert !Matches(r'.records, r'.stream, i);
    }
  }

  lemma {:induction false} ReadsInv(r: Reader, passes: seq<Pass>, r': Reader)
    requires Inv(r) && Reads(r, passes, r')
    ensures Inv(r')
    decreases |passes|
  {
    if passes == [] {
    } else {
      LookInv(r, passes[0]);
      ReadsInv(r.Look(passes[0]), passes[1..], r');
    }
  }

  // ---------- What the server hears ----------

  /** All that the passes read. */
  function Stream(passes: seq<Pass>): seq<Byte>
    decreases |passes|
  {
    if passes == [] then [] else Stream(passes[..|passes| - 1]) + passes[|passes| - 1].bytes
  }

  /** The bytes of a record that is on its way after so much of the stream. */
  function Pending(stream: seq<Byte>): (piece: seq<Byte>)
    ensures |piece| < RECORD
  {
    stream[|stream| - |stream| % RECORD..]
  }

  /** A made-up report is written over the piece of a record and changes it. */
  predicate Changes(little: bool, piece: seq<Byte>)
    requires |piece| < RECORD
  {
    var whole := piece + seq(RECORD - |piece|, _ => 0);
    MakeUp(whole, little)[..|piece|] != piece
  }

  /** After pass `k` the client is taken for dead, with such a piece of a record on its way. */
  predicate SpoiltAt(little: bool, passes: seq<Pass>, k: nat)
    requires k < |passes|
  {
    passes[k].dead && Changes(little, Pending(Stream(passes[..k + 1])))
  }

  ghost predicate Spoilt(little: bool, passes: seq<Pass>) {
    exists k | 0 <= k < |passes| :: SpoiltAt(little, passes, k)
  }

  /** What a made-up report does to the read part of the buffer depends on that part only. */
  lemma ChangesLocal(b: seq<Byte>, c: seq<Byte>, little: bool, n: nat)
    requires |b| == |c| == RECORD && n < RECORD && b[..n] == c[..n]
    ensures MakeUp(b, little)[..n] == MakeUp(c, little)[..n]
  {
    forall j | 0 <= j < n
      ensures MakeUp(b, little)[j] == MakeUp(c, little)[j]
    {
      assert b[..n][j] == c[..n][j];
      MadeUpAgain(b, little, j);
      MadeUpAgain(c, little, j);
    }
  }

  lemma PendingIs(stream: seq<Byte>, m: nat, n: nat)
    requires |stream| == RECORD * m + n && n < RECORD
    ensures Pending(stream) == stream[|stream| - n..]
  {
  }

  /** A made-up report harms the buffer if and only if it changes the piece of the stream in it. */
  lemma MadeUpHarms(put: seq<Byte>, little: bool, piece: seq<Byte>)
    requires |put| == RECORD && |piece| < RECORD && put[..|piece|] == piece
    ensures MakeUp(put, little)[..|piece|] != put[..|piece|] <==> Changes(little, piece)
  {
    var whole := piece + seq(RECORD - |piece|, _ => 0);
    assert whole[..|piece|] == piece;
    ChangesLocal(put, whole, little, |piece|);
  }

  /** As long as nothing was harmed, a pass harms the buffer if and only if it changes a piece. */
  lemma LookHarms(r: Reader, pass: Pass)
    requires Inv(r) && r.Fits(pass) && !r.harmed
    ensures r.Look(pass).harmed <==> pass.dead && Changes(r.little, Pending(r.stream + pass.bytes))
  {
    if pass.dead {
      var stream, n := r.stream + pass.bytes, r.len + |pass.bytes|;
      HeldKept(r, pass);
      PendingIs(stream, |r.records|, n);
      MadeUpHarms(r.Filled(pass), r.little, Pending(stream));
    }
  }

  lemma SpoiltMore(little: bool, done: seq<Pass>, pass: Pass)
    ensures Stream(done + [pass]) == Stream(done) + pass.bytes
    ensures Spoilt(little, done + [pass]) <==>
      Spoilt(little, done) || (pass.dead && Changes(little, Pending(Stream(done) + pass.bytes)))
  {
    var more := done + [pass];
    assert more[..|done|] == done && more[..|done| + 1] == more;
    forall k | 0 <= k < |done|
      ensures SpoiltAt(little, more, k) <==> SpoiltAt(little, done, k)
    {
      assert more[..k + 1] == done[..k + 1];
    }
    assert SpoiltAt(little, more, |done|) <==> pass.dead && Changes(little, Pending(Stream(done) + pass.bytes));
  }

  /** Whether the buffer was harmed can be told from what was read and when. */
  lemma {:induction false} HarmedIsSpoilt(done: seq<Pass>, r: Reader, passes: seq<Pass>, r': Reader)
    requires Inv(r) && r.stream == Stream(done) && Reads(r, passes, r')
    requires r.harmed <==> Spoilt(r.little, done)
    ensures r'.stream == Stream(done + passes) && r'.little == r.little
    ensures r'.harmed <==> Spoilt(r.little, done + passes)
    decreases |passes|
  {
    if passes == [] {
      assert done + passes == done;
    } else {
      assert (done + [passes[0]]) + passes[1..] == done + passes;
      HarmedNext(done, r, passes[0]);
      HarmedIsSpoilt(done + [passes[0]], r.Look(passes[0]), passes[1..], r');
    }
  }

  lemma HarmedNext(done: seq<Pass>, r: Reader, pass: Pass)
    requires Inv(r) && r.stream == Stream(done) && r.Fits(pass)
    requires r.harmed <==> Spoilt(r.little, done)
    ensures var r' := r.Look(pass);
      && Inv(r') && r'.little == r.little && r'.stream == Stream(done + [pass])
      && (r'.harmed <==> Spoilt(r.little, done + [pass]))
  {
    LookInv(r, pass);
    SpoiltMore(r.little, done, pass);
    if !r.harmed {
      LookHarms(r, pass);
    }
  }

  /** No record follows a stop request. */
  lemma {:induction false} StopIsLast(r: Reader, passes: seq<Pass>, r': Reader)
    requires r.Valid() && Reads(r, passes, r')
    requires forall i | 0 <= i < |r.records| - 1 :: Decode(r.records[i]) != Known(Stop)
    ensures r'.Valid()
    ensures forall i | 0 <= i < |r'.records| - 1 :: Decode(r'.records[i]) != Known(Stop)
    decreases |passes|
  {
    if passes == [] {
    } else {
      var next := r.Look(passes[0]);
      assert next.records == r.records || next.records == r.records + [r.Filled(passes[0])];
      StopIsLast(next, passes[1..], r');
    }
  }

  /**
   * Main result: the read is never asked for nothing and never fills more than a record, so that the
   * branch for a message that is too long is dead; and the records handled are the stream cut into
   * records, with the rest of the stream in the buffer, if and only if in no pass a made-up report
   * was written over a piece of the stream that it changes.
   */
  lemma FramingExact(little: bool, buffer: seq<Byte>, passes: seq<Pass>, r: Reader)
    requires |buffer| == RECORD && Reads(Start(little, buffer), passes, r)
    ensures r.Valid() && r.len < RECORD && r.stream == Stream(passes)
    ensures Cut(r.records, Stream(passes)) && Held(r) <==> !Spoilt(little, passes)
    ensures r.len == 0 ==> (Cut(r.records, Stream(passes)) <==> !Spoilt(little, passes))
  {
    var start := Start(little, buffer);
    ReadsInv(start, passes, r);
    HarmedIsSpoilt([], start, passes, r);
    assert [] + passes == passes;
    if r.harmed {
      WrongIsWrong(r);
    }
  }

  lemma WrongIsWrong(r: Reader)
    requires Inv(r) && r.harmed
    ensures !(Cut(r.records, r.stream) && Held(r))
  {
    if j: nat :| Broken(r, j) {
      assert r.buffer[..r.len][j] != r.stream[|r.stream| - r.len..][j];
    }
  }

  /** Where the made-up report is harmless whatever has been read: between two records only. */
  lemma HarmlessBetweenRecords(little: bool, len: nat)
    requires len < RECORD
    ensures (forall b: seq<Byte> | |b| == RECORD :: MakeUp(b, little)[..len] == b[..len]) <==> len == 0
  {
    if len > 0 {
      var b: seq<Byte> := seq(RECORD, _ => 1);
      assert MakeUp(b, little)[..len][0] != b[..len][0];
    }
  }

  /** Hence reports between records only, whatever the fragmentation, leave the stream alone. */
  predicate Quiet(r: Reader, pass: Pass) {
    pass.dead ==> r.len + |pass.bytes| == 0
  }

  ghost predicate QuietReads(r: Reader, passes: seq<Pass>)
    decreases |passes|
  {
    passes != [] && r.Valid() && r.Fits(passes[0]) ==>
      Quiet(r, passes[0]) && QuietReads(r.Look(passes[0]), passes[1..])
  }

  lemma {:induction false} QuietIsUnharmed(r: Reader, passes: seq<Pass>, r': Reader)
    requires Inv(r) && !r.harmed && Reads(r, passes, r') && QuietReads(r, passes)
    ensures !r'.harmed && Cut(r'.records, r'.stream)
    decreases |passes|
  {
    if passes == [] {
    } else {
      LookInv(r, passes[0]);
      assert !r.Look(passes[0]).harmed;
      QuietIsUnharmed(r.Look(passes[0]), passes[1..], r');
    }
  }

  /** What the client has written for the requests, with any padding. */
  function Wire(qs: seq<Request>, pads: seq<(Byte, Byte)>): (w: seq<Byte>)
    requires |qs| == |pads| && forall i | 0 <= i < |qs| :: Sendable(qs[i])
    ensures |w| == RECORD * |qs|
  {
    if qs == [] then []
    else Wire(qs[..|qs| - 1], pads[..|qs| - 1]) + Encode(qs[|qs| - 1], pads[|qs| - 1])
  }

  lemma {:induction false} WireAt(qs: seq<Request>, pads: seq<(Byte, Byte)>, i: nat)
    requires |qs| == |pads| && (forall k | 0 <= k < |qs| :: Sendable(qs[k])) && i < |qs|
    ensures Wire(qs, pads)[RECORD * i..RECORD * i + RECORD] == Encode(qs[i], pads[i])
    decreases |qs|
  {
    var n := |qs| - 1;
    var front, last := Wire(qs[..n], pads[..n]), Encode(qs[n], pads[n]);
    PieceOf(front, last, i);
    if i < n {
      WireAt(qs[..n], pads[..n], i);
    }
  }

  lemma PieceOf(front: seq<Byte>, last: seq<Byte>, i: nat)
    requires |last| == RECORD && RECORD * i <= |front|
    ensures |front| >= RECORD * i + RECORD ==>
      (front + last)[RECORD * i..RECORD * i + RECORD] == front[RECORD * i..RECORD * i + RECORD]
    ensures |front| == RECORD * i ==> (front + last)[RECORD * i..RECORD * i + RECORD] == last
  {
  }

  lemma RequestHeard(record: seq<Byte>, stream: seq<Byte>, qs: seq<Request>, pads: seq<(Byte, Byte)>, i: nat)
    requires |qs| == |pads| && forall k | 0 <= k < |qs| :: Sendable(qs[k])
    requires stream <= Wire(qs, pads) && RECORD * i + RECORD <= |stream|
    requires record == stream[RECORD * i..RECORD * i + RECORD]
    ensures i < |qs| && record == Encode(qs[i], pads[i])
  {
    WireAt(qs, pads, i);
  }

  /** The server understands the requests the client has written, in order, all that have arrived. */
  lemma RequestsHeard(r: Reader, qs: seq<Request>, pads: seq<(Byte, Byte)>)
    requires |qs| == |pads| && forall k | 0 <= k < |qs| :: Sendable(qs[k])
    requires Inv(r) && !r.harmed && r.stream <= Wire(qs, pads)
    ensures |r.records| <= |qs|
    ensures forall i | 0 <= i < |r.records| :: Decode(r.records[i]) == Known(qs[i])
    ensures r.stream == Wire(qs, pads) ==> |r.records| == |qs|
  {
    forall i | 0 <= i < |r.records|
      ensures Decode(r.records[i]) == Known(qs[i])
    {
      assert Matches(r.records, r.stream, i);
      RequestHeard(r.records[i], r.stream, qs, pads, i);
      RoundTrip(qs[i], pads[i]);
    }
  }

  /** Otherwise a request can be lost: here a stop request is taken for a report of no loss at all. */
  lemma StopMistaken(little: bool, buffer: seq<Byte>, padding: (Byte, Byte))
    returns (passes: seq<Pass>, r: Reader)
    requires |buffer| == RECORD
    ensures Reads(Start(little, buffer), passes, r)
    ensures r.stream == Encode(Stop, padding) && r.len == 0 && r.harmed
    ensures |r.records| == 1 && |r.records[0]| == RECORD && Decode(r.records[0]) == Known(ErrorRate(0))
  {
    var stop := Encode(Stop, padding);
    var first, second := Pass(stop[..2], true), Pass(stop[2..], false);
    var r1 := StopInterrupted(little, buffer, stop);
    passes := [first, second];
    assert passes[..1] == [first] && passes[..2] == passes;
    ReadsMore(Start(little, buffer), passes, 1, r1);
    r := r1.Look(second);
    MistakenRecord(r1.Filled(second));
    assert stop[..2] + stop[2..] == stop;
  }

  /** After two bytes of a stop request the client is taken for dead. */
  lemma StopInterrupted(little: bool, buffer: seq<Byte>, stop: seq<Byte>) returns (r: Reader)
    requires |buffer| == |stop| == RECORD && stop[..2] == [0, 2]
    ensures Reads(Start(little, buffer), [Pass(stop[..2], true)], r)
    ensures r.Valid() && r.len == 2 && r.buffer[..2] == [0, 3] && r.harmed
    ensures r.records == [] && r.stream == stop[..2]
  {
    var first := Pass(stop[..2], true);
    var r0 := Start(little, buffer);
    assert r0.Filled(first)[..2] == [0, 2];
    r := r0.Look(first);
    assert r.buffer[..2] == [0, 3];
    assert [first][1..] == [] && Reads(r, [], r);
  }

  lemma MistakenRecord(record: seq<Byte>)
    requires |record| == RECORD && record[..2] == [0, 3] && record[8..12] == [0, 0, 0, 0]
    ensures Decode(record) == Known(ErrorRate(0))
  {
  }

  // ---------- The loop over the buffer ----------

  /** One pass: the read, then the record or the made-up report if there is one. */
  method Look(retransmission: array<Byte>, len: nat, pass: Pass, little: bool, ghost r: Reader)
    returns (retransmitlen: nat, handled: seq<seq<Byte>>)
    requires r.Valid() && r.Fits(pass)
    requires retransmission[..] == r.buffer && len == r.len && little == r.little
    modifies retransmission
    ensures retransmission[..] == r.Look(pass).buffer && retransmitlen == r.Look(pass).len
    ensures r.Look(pass).records == r.records + handled
  {
    var n := |pass.bytes|;
    forall k | 0 <= k < n {
      retransmission[len + k] := pass.bytes[k];
    }
    assert retransmission[..] == r.Filled(pass);
    retransmitlen, handled := len + n, [];
    if retransmitlen == RECORD {
      handled := [retransmission[..]];
      Convert(retransmission, little);
      retransmitlen := 0;
    } else if pass.dead {
      MakeUpReport(retransmission, little);
    }
  }

  method MakeUpReport(retransmission: array<Byte>, little: bool)
    requires retransmission.Length == RECORD
    modifies retransmission
    ensures retransmission[..] == MakeUp(old(retransmission[..]), little)
  {
    var kind, block, rate := Bytes16(3), Bytes32(0), Bytes32(100000);
    retransmission[0], retransmission[1] := kind[0], kind[1];
    retransmission[8], retransmission[9], retransmission[10], retransmission[11]
      := rate[0], rate[1], rate[2], rate[3];
    retransmission[4], retransmission[5], retransmission[6], retransmission[7]
      := block[0], block[1], block[2], block[3];
    assert retransmission[..] == Encode(ErrorRate(100000), (old(retransmission[2]), old(retransmission[3])));
    Convert(retransmission, little);
  }

  /** One pass after others. */
  method Next(retransmission: array<Byte>, len: nat, passes: seq<Pass>, used: nat, little: bool,
              ghost start: Reader, ghost r: Reader)
    returns (retransmitlen: nat, handled: seq<seq<Byte>>, ghost r': Reader)
    requires used < |passes| && Reads(start, passes[..used], r)
    requires r.Valid() && !r.Stopped() && r.Fits(passes[used])
    requires retransmission[..] == r.buffer && len == r.len && little == r.little
    modifies retransmission
    ensures Reads(start, passes[..used + 1], r') && r'.Valid() && r'.little == little
    ensures retransmission[..] == r'.buffer && retransmitlen == r'.len && r'.records == r.records + handled
  {
    retransmitlen, handled := Look(retransmission, len, passes[used], little, r);
    r' := r.Look(passes[used]);
    ReadsMore(start, passes, used, r);
  }

  /** The passes of the transfer loop, as far as a stop request: the reads, and what is handled. */
  method Listen(little: bool, retransmission: array<Byte>, passes: seq<Pass>)
    returns (records: seq<seq<Byte>>, retransmitlen: nat, used: nat, ghost r: Reader)
    requires retransmission.Length == RECORD
    requires forall k, r | 0 <= k < |passes| && Reads(Start(little, retransmission[..]), passes[..k], r) ::
      r.Fits(passes[k])
    modifies retransmission
    ensures used <= |passes| && Reads(Start(little, old(retransmission[..])), passes[..used], r)
    ensures records == r.records && retransmitlen == r.len && retransmission[..] == r.buffer
    ensures used < |passes| ==>
      |records| > 0 && |records[|records| - 1]| == RECORD && Decode(records[|records| - 1]) == Known(Stop)
  {
    ghost var start := Start(little, retransmission[..]);
    r := start;
    records, retransmitlen, used := [], 0, 0;
    while used < |passes| && (|records| == 0 || Decode(records[|records| - 1]) != Known(Stop))
      invariant used <= |passes| && retransmission[..] == r.buffer && r.Valid() && r.little == little
      invariant Reads(start, passes[..used], r)
      invariant records == r.records && retransmitlen == r.len
    {
      var handled;
      retransmitlen, handled, r := Next(retransmission, retransmitlen, passes, used, little, start, r);
      records := records + handled;
      used := used + 1;
    }
  }

  method Convert(retransmission: array<Byte>, little: bool)
    requires retransmission.Length == RECORD
    modifies retransmission
    ensures retransmission[..] == ToHost(old(retransmission[..]), little)
  {
    if little {
      retransmission[4], retransmission[5], retransmission[6], retransmission[7]
        := retransmission[7], retransmission[6], retransmission[5], retransmission[4];
      retransmission[8], retransmission[9], retransmission[10], retransmission[11]
        := retransmission[11], retransmission[10], retransmission[9], retransmission[8];
    }
  }

  lemma {:induction false} ReadsMore(r0: Reader, passes: seq<Pass>, k: nat, r: Reader)
    requires k < |passes| && Reads(r0, passes[..k], r)
    requires r.Valid() && !r.Stopped() && r.Fits(passes[k])
    ensures Reads(r0, passes[..k + 1], r.Look(passes[k]))
    decreases k
  {
    if k == 0 {
      assert passes[..1][1..] == [];
    } else {
      assert passes[..k][1..] == passes[1..][..k - 1];
      assert passes[..k + 1][1..] == passes[1..][..k];
      ReadsMore(r0.Look(passes[0]), passes[1..], k - 1, r);
    }
  }
}
