/**
 * A whole transfer, end to end: the server, the channels, the network thread with its ring buffer,
 * and the disk thread that writes the file; all interleaved.
 */
module Delivery {
  import opened Tsunami
  import opened Runs
  import Ring
  import opened Client
  import opened Session

  type Payload = seq<bv8>

  /** A full datagram; number 0 is the marker that stops the disk thread. */
  datatype Message = Message(block: nat, payload: Payload)

  datatype NetworkThread =
    | Receiving               // at the top of the receive loop
    | Storing(a: Arrival)     // a new block arrived, and is on its way into the ring
    | Stopping                // out of the loop, putting the stop marker into the ring
    | Joining                 // waiting for the disk thread

  datatype DiskThread =
    | Running
    | Accepted   // wrote the block to the file, about to pop it
    | Dead       // met the stop marker

  datatype Transfer = Transfer(
    source: seq<Payload>,        // the server's file: block b is source[b - 1]
    session: System,
    network: NetworkThread,
    met: seq<Arrival>,           // history: all that the network thread has received, in order
    ring: Ring.State<Message>,
    disk: DiskThread,
    file: map<nat, Payload>)     // the client's file

  const STOP_MARKER: Message := Message(0, [])

  function Carried(source: seq<Payload>, d: Datagram): Message {
    Message(d.block, if 1 <= d.block <= |source| then source[d.block - 1] else [])
  }

  function Initial(source: seq<Payload>, sorting: bool, onWireEstimate: nat, slots: seq<Message>): Transfer {
    Transfer(source, Session.Initial(|source|, sorting, onWireEstimate), Receiving, [],
             Ring.Start(slots), Running, map[])
  }

  // ---------- Steps ----------

  predicate ServerStep(s: Transfer, s': Transfer) {
    && s' == s.(session := s'.session)
    && (ServerReads(s.session, s'.session) || ServerSends(s.session, s'.session))
  }

  /** What the network thread does once a pass of the loop is over. */
  function AfterPass(session: System): NetworkThread {
    if session.done then Stopping else Receiving
  }

  /** A datagram arrives; unless it is new and the ring has space, its pass needs no ring. */
  predicate Arrives(s: Transfer, a: Arrival, s': Transfer) {
    && s.network == Receiving && !s.session.done && a.datagram in s.session.net
    && (a.ringFull <==> !s.ring.ring.spaceReady)
    && if a.ringFull || s.session.client.GotBlock(a.datagram.block) then
         && ClientReceives(s.session, a, s'.session)
         && s' == s.(session := s'.session, network := AfterPass(s'.session), met := s.met + [a])
       else
         s' == s.(network := Storing(a), met := s.met + [a])
  }

  predicate ByProducer(step: Ring.Step<Message>, item: Message) {
    step.ProducerWakes? || step.WriteStep? || step == Ring.ReserveStep(item)
  }

  /** Putting the new block into the ring, up to its confirmation. */
  predicate Stores(s: Transfer, step: Ring.Step<Message>, s': Transfer) {
    && s.network.Storing? && ByProducer(step, Carried(s.source, s.network.a.datagram))
    && Ring.Enabled(s.ring, step)
    && s' == s.(ring := Ring.Apply(s.ring, step))
  }

  /** The confirmation, and the rest of the pass, which the disk thread cannot observe. */
  predicate Confirms(s: Transfer, s': Transfer) {
    && s.network.Storing? && Ring.Enabled(s.ring, Ring.ConfirmStep)
    && ClientReceives(s.session, s.network.a, s'.session)
    && s' == s.(session := s'.session, network := AfterPass(s'.session),
                ring := Ring.Apply(s.ring, Ring.ConfirmStep))
  }

  predicate StopsDisk(s: Transfer, step: Ring.Step<Message>, s': Transfer) {
    && s.network.Stopping? && (ByProducer(step, STOP_MARKER) || step.ConfirmStep?)
    && Ring.Enabled(s.ring, step)
    && s' == s.(ring := Ring.Apply(s.ring, step),
                network := if step.ConfirmStep? then Joining else Stopping)
  }

  predicate DiskLooks(s: Transfer, step: Ring.Step<Message>, s': Transfer) {
    && s.disk == Running && (step.PeekStep? || step.ConsumerWakes? || step.ReadStep?)
    && Ring.Enabled(s.ring, step)
    && s' == s.(ring := Ring.Apply(s.ring, step))
  }

  predicate DiskAccepts(s: Transfer, s': Transfer) {
    && s.disk == Running && s.ring.consumer.Read?
    && var item := s.ring.consumer.item;
       s' == if item.block == 0 then s.(disk := Dead)
             else s.(disk := Accepted, file := s.file[item.block := item.payload])
  }

  predicate DiskPops(s: Transfer, s': Transfer) {
    && s.disk == Accepted && Ring.Enabled(s.ring, Ring.PopStep)
    && s' == s.(ring := Ring.Apply(s.ring, Ring.PopStep), disk := Running)
  }

  ghost predicate Next(s: Transfer, s': Transfer) {
    || ServerStep(s, s')
    || (exists a :: Arrives(s, a, s'))
    || (exists step :: Stores(s, step, s'))
    || Confirms(s, s')
    || (exists step :: StopsDisk(s, step, s'))
    || (exists step :: DiskLooks(s, step, s'))
    || DiskAccepts(s, s')
    || DiskPops(s, s')
  }

  // ---------- Logs of messages ----------

  function Numbers(log: seq<Message>): set<nat> {
    set m | m in log :: m.block
  }

  predicate Distinct(log: seq<Message>) {
    forall i, j | 0 <= i < j < |log| :: log[i].block != log[j].block
  }

  /** Each block of the file at most once, with its own payload. */
  predicate Faithful(log: seq<Message>, source: seq<Payload>) {
    && Distinct(log)
    && forall m | m in log :: 1 <= m.block <= |source| && m.payload == source[m.block - 1]
  }

  /** The file that results from writing the messages in order. */
  function Written(log: seq<Message>): map<nat, Payload> {
    if log == [] then map[]
    else Written(log[..|log| - 1])[log[|log| - 1].block := log[|log| - 1].payload]
  }

  lemma WrittenAppend(log: seq<Message>, m: Message)
    ensures Written(log + [m]) == Written(log)[m.block := m.payload]
  {
    assert (log + [m])[..|log|] == log;
  }

  lemma {:induction false} WrittenKeys(log: seq<Message>)
    ensures Written(log).Keys == Numbers(log)
    decreases |log|
  {
    if log == [] {
    } else {
      var front, last := log[..|log| - 1], log[|log| - 1];
      assert log == front + [last];
      WrittenKeys(front);
      assert Numbers(log) == Numbers(front) + {last.block};
    }
  }

  /** Each block written with its own payload makes a file of exactly those blocks. */
  lemma {:induction false} WrittenFaithful(log: seq<Message>, source: seq<Payload>)
    requires Faithful(log, source)
    ensures Written(log).Keys == Numbers(log)
    ensures forall b | b in Written(log) :: 1 <= b <= |source| && Written(log)[b] == source[b - 1]
    decreases |log|
  {
    WrittenKeys(log);
    if log == [] {
    } else {
      var front, last := log[..|log| - 1], log[|log| - 1];
      FaithfulPrefix(front, log, source);
      WrittenFaithful(front, source);
      assert last in log;
    }
  }

  lemma FaithfulAppend(log: seq<Message>, m: Message, source: seq<Payload>)
    requires Faithful(log, source) && m.block !in Numbers(log)
    requires 1 <= m.block <= |source| && m.payload == source[m.block - 1]
    ensures Faithful(log + [m], source)
    ensures Numbers(log + [m]) == Numbers(log) + {m.block}
  {
    forall i | 0 <= i < |log|
      ensures log[i].block != m.block
    {
      assert log[i] in log;
    }
  }

  /** Distinct numbers are as many as the log is long. */
  lemma {:induction false} DistinctSize(log: seq<Message>)
    requires Distinct(log)
    ensures |Numbers(log)| == |log|
    decreases |log|
  {
    if log == [] {
    } else {
      var front, last := log[..|log| - 1], log[|log| - 1];
      assert log == front + [last];
      DistinctSize(front);
      assert Numbers(log) == Numbers(front) + {last.block};
    }
  }

  // ---------- What holds in every reachable state ----------

  /** The blocks that entered the ring, in that order. */
  function Entered(s: Transfer): seq<Message> {
    if s.network.Joining? && |s.ring.confirmed| > 0 then s.ring.confirmed[..|s.ring.confirmed| - 1]
    else s.ring.confirmed
  }

  /** What the disk thread wrote to the file, in order. */
  function Accepts(s: Transfer): seq<Message> {
    if s.disk == Accepted && s.ring.consumer.Read? then s.ring.popped + [s.ring.consumer.item]
    else s.ring.popped
  }

  predicate HasItem(p: Ring.Producer<Message>, item: Message) {
    p.Idle? || p.item == item
  }

  /** The network thread and its side of the ring. */
  predicate NetworkInv(s: Transfer) {
    match s.network
    case Receiving => s.ring.producer.Idle? && !s.session.done
    case Storing(a) =>
      && !s.session.done && !a.ringFull && a.datagram in s.session.net
      && !s.session.client.GotBlock(a.datagram.block)
      && HasItem(s.ring.producer, Carried(s.source, a.datagram))
      && (s.ring.producer.Idle? ==> s.ring.ring.spaceReady)
      && !s.ring.producer.Asleep? && !s.ring.producer.Awake?  // the reservation never waits
    case Stopping => s.session.done && HasItem(s.ring.producer, STOP_MARKER)
    case Joining =>
      && s.session.done && s.ring.producer.Idle?
      && |s.ring.confirmed| > 0 && s.ring.confirmed[|s.ring.confirmed| - 1] == STOP_MARKER
  }

  predicate DiskInv(s: Transfer) {
    && (forall m | m in s.ring.popped :: m.block != 0)
    && match s.disk
    case Running => true
    case Accepted => s.ring.consumer.Read? && s.ring.consumer.item.block != 0
    case Dead => s.ring.consumer.Read? && s.ring.consumer.item.block == 0
  }

  /** What entered the ring is what the client recorded. */
  ghost predicate LogInv(s: Transfer) {
    && Faithful(Entered(s), s.source)
    && Numbers(Entered(s)) == s.session.client.received
  }

  ghost predicate FileInv(s: Transfer) {
    s.file == Written(Accepts(s))
  }

  ghost predicate ThreadsInv(s: Transfer) {
    && Session.Inv(s.session) && Ring.Inv(s.ring)
    && s.session.client.blockCount == |s.source|
    && NetworkInv(s) && DiskInv(s)
  }

  ghost predicate Inv(s: Transfer) {
    ThreadsInv(s) && LogInv(s) && FileInv(s)
  }

  lemma InitialInv(source: seq<Payload>, sorting: bool, onWireEstimate: nat, slots: seq<Message>)
    requires 1 <= |source| && |source| + 1 < TWO_TO_THE_32 && |slots| == MAX_BLOCKS_QUEUED
    ensures Inv(Initial(source, sorting, onWireEstimate, slots))
  {
    Session.InitialInv(|source|, sorting, onWireEstimate);
    Ring.StartInv(slots);
  }

  /** What the logs and the file depend on. */
  ghost predicate Same(s: Transfer, s': Transfer) {
    && s'.source == s.source && s'.file == s.file
    && Entered(s') == Entered(s) && Accepts(s') == Accepts(s)
    && s'.session.client.received == s.session.client.received
  }

  lemma ServerStepThreads(s: Transfer, s': Transfer)
    requires ThreadsInv(s) && ServerStep(s, s')
    ensures ThreadsInv(s') && s'.session.client.received == s.session.client.received
  {
    Session.NextInv(s.session, s'.session);
  }

  lemma ArrivesThreads(s: Transfer, a: Arrival, s': Transfer)
    requires ThreadsInv(s) && Arrives(s, a, s')
    ensures ThreadsInv(s')
  {
    if a.ringFull || s.session.client.GotBlock(a.datagram.block) {
      Session.NextInv(s.session, s'.session);
      ReceiveGrows(s.session.client, a);
    }
  }

  lemma ArrivesLogs(s: Transfer, a: Arrival, s': Transfer)
    requires ThreadsInv(s) && Arrives(s, a, s')
    ensures Same(s, s')
  {
    ReceiveGrows(s.session.client, a);
  }

  lemma StoresThreads(s: Transfer, step: Ring.Step<Message>, s': Transfer)
    requires ThreadsInv(s) && Stores(s, step, s')
    ensures ThreadsInv(s')
  {
    Ring.StepInv(s.ring, step);
  }

  lemma StoresLogs(s: Transfer, step: Ring.Step<Message>, s': Transfer)
    requires Stores(s, step, s')
    ensures Same(s, s')
    ensures OnItsWay(s'.network) == OnItsWay(s.network) && s'.met == s.met
  {
  }

  lemma ConfirmsThreads(s: Transfer, s': Transfer)
    requires ThreadsInv(s) && Confirms(s, s')
    ensures ThreadsInv(s')
  {
    Ring.StepInv(s.ring, Ring.ConfirmStep);
    Session.NextInv(s.session, s'.session);
    ReceiveGrows(s.session.client, s.network.a);
  }

  /** The confirmed message is the carried block; it is the last to have entered. */
  lemma ConfirmsMessage(s: Transfer, s': Transfer)
    requires ThreadsInv(s) && Confirms(s, s')
    ensures Entered(s) == s.ring.confirmed
    ensures Entered(s') == s.ring.confirmed + [Carried(s.source, s.network.a.datagram)]
  {
  }

  /** It is new to the ring and to the client. */
  lemma ConfirmsNew(s: Transfer, s': Transfer)
    requires ThreadsInv(s) && Confirms(s, s')
    ensures var m := Carried(s.source, s.network.a.datagram);
      && 1 <= m.block <= |s.source| && m.payload == s.source[m.block - 1]
      && m.block !in s.session.client.received
      && s'.session.client.received == s.session.client.received + {m.block}
  {
    ReceiveGrows(s.session.client, s.network.a);
    assert Proper(s.network.a.datagram, |s.source|);
  }

  lemma ConfirmsLog(s: Transfer, s': Transfer)
    requires ThreadsInv(s) && LogInv(s) && Confirms(s, s')
    ensures LogInv(s')
  {
    ConfirmsMessage(s, s');
    ConfirmsNew(s, s');
    LogAppend(s, s', Carried(s.source, s.network.a.datagram));
  }

  lemma LogAppend(s: Transfer, s': Transfer, m: Message)
    requires LogInv(s) && s'.source == s.source && Entered(s') == Entered(s) + [m]
    requires 1 <= m.block <= |s.source| && m.payload == s.source[m.block - 1]
    requires m.block !in s.session.client.received
    requires s'.session.client.received == s.session.client.received + {m.block}
    ensures LogInv(s')
  {
    FaithfulAppend(Entered(s), m, s.source);
  }

  lemma StopsDiskThreads(s: Transfer, step: Ring.Step<Message>, s': Transfer)
    requires ThreadsInv(s) && StopsDisk(s, step, s')
    ensures ThreadsInv(s')
  {
    Ring.StepInv(s.ring, step);
  }

  lemma StopsDiskLogs(s: Transfer, step: Ring.Step<Message>, s': Transfer)
    requires ThreadsInv(s) && StopsDisk(s, step, s')
    ensures Same(s, s')
    ensures OnItsWay(s'.network) == OnItsWay(s.network) && s'.met == s.met
  {
  }

  lemma DiskLooksThreads(s: Transfer, step: Ring.Step<Message>, s': Transfer)
    requires ThreadsInv(s) && DiskLooks(s, step, s')
    ensures ThreadsInv(s')
  {
    Ring.StepInv(s.ring, step);
  }

  lemma DiskLooksLogs(s: Transfer, step: Ring.Step<Message>, s': Transfer)
    requires ThreadsInv(s) && DiskLooks(s, step, s')
    ensures Same(s, s')
    ensures OnItsWay(s'.network) == OnItsWay(s.network) && s'.met == s.met
  {
  }

  lemma DiskAcceptsFile(s: Transfer, s': Transfer)
    requires FileInv(s) && DiskAccepts(s, s')
    ensures FileInv(s')
  {
    WrittenAppend(s.ring.popped, s.ring.consumer.item);
  }

  lemma DiskPopsThreads(s: Transfer, s': Transfer)
    requires ThreadsInv(s) && DiskPops(s, s')
    ensures ThreadsInv(s')
  {
    Ring.StepInv(s.ring, Ring.PopStep);
  }

  lemma DiskPopsLogs(s: Transfer, s': Transfer)
    requires ThreadsInv(s) && DiskPops(s, s')
    ensures Same(s, s')
    ensures OnItsWay(s'.network) == OnItsWay(s.network) && s'.met == s.met
  {
  }

  lemma NextThreads(s: Transfer, s': Transfer)
    requires ThreadsInv(s) && Next(s, s')
    ensures ThreadsInv(s')
  {
    if ServerStep(s, s') {
      ServerStepThreads(s, s');
    } else if Confirms(s, s') {
      ConfirmsThreads(s, s');
    } else if DiskPops(s, s') {
      DiskPopsThreads(s, s');
    } else if a :| Arrives(s, a, s') {
      ArrivesThreads(s, a, s');
    } else if step :| Stores(s, step, s') {
      StoresThreads(s, step, s');
    } else if step :| StopsDisk(s, step, s') {
      StopsDiskThreads(s, step, s');
    } else if step :| DiskLooks(s, step, s') {
      DiskLooksThreads(s, step, s');
    } else {
      assert DiskAccepts(s, s');
    }
  }

  /** The steps that change neither logs nor file. */
  ghost predicate QuietNext(s: Transfer, s': Transfer) {
    || ServerStep(s, s')
    || (exists a :: Arrives(s, a, s'))
    || (exists step :: Stores(s, step, s'))
    || (exists step :: StopsDisk(s, step, s'))
    || (exists step :: DiskLooks(s, step, s'))
    || DiskPops(s, s')
  }

  lemma QuietSame(s: Transfer, s': Transfer)
    requires ThreadsInv(s) && QuietNext(s, s')
    ensures Same(s, s')
  {
    if ServerStep(s, s') {
      ServerStepThreads(s, s');
    } else if DiskPops(s, s') {
      DiskPopsLogs(s, s');
    } else if a :| Arrives(s, a, s') {
      ArrivesLogs(s, a, s');
    } else if step :| Stores(s, step, s') {
      StoresLogs(s, step, s');
    } else if step :| StopsDisk(s, step, s') {
      StopsDiskLogs(s, step, s');
    } else {
      var step :| DiskLooks(s, step, s');
      DiskLooksLogs(s, step, s');
    }
  }

  lemma NextLog(s: Transfer, s': Transfer)
    requires ThreadsInv(s) && LogInv(s) && Next(s, s')
    ensures LogInv(s')
  {
    if Confirms(s, s') {
      ConfirmsLog(s, s');
    } else if DiskAccepts(s, s') {
      assert Entered(s') == Entered(s);
    } else {
      QuietSame(s, s');
    }
  }

  lemma NextFile(s: Transfer, s': Transfer)
    requires ThreadsInv(s) && FileInv(s) && Next(s, s')
    ensures FileInv(s')
  {
    if Confirms(s, s') {
      assert Accepts(s') == Accepts(s);
    } else if DiskAccepts(s, s') {
      DiskAcceptsFile(s, s');
    } else {
      QuietSame(s, s');
    }
  }

  lemma NextInv(s: Transfer, s': Transfer)
    requires Inv(s) && Next(s, s')
    ensures Inv(s')
  {
    NextThreads(s, s');
    NextLog(s, s');
    NextFile(s, s');
  }

  lemma RunInv(trace: seq<Transfer>, i: nat)
    requires Run(trace, Next) && Inv(trace[0]) && i < |trace|
    ensures Inv(trace[i])
  {
    forall s, s' | Inv(s) && Next(s, s')
      ensures Inv(s')
    {
      NextInv(s, s');
    }
    Invariance(trace, Next, Inv, i);
  }

  lemma SourceStays(trace: seq<Transfer>, i: nat)
    requires Run(trace, Next) && i < |trace|
    ensures trace[i].source == trace[0].source
  {
    var source := trace[0].source;
    Invariance(trace, Next, (s: Transfer) => s.source == source, i);
  }

  // ---------- The order of arrival ----------

  /** The blocks that arrived while the ring had space, each at its first such arrival. */
  function FirstArrivals(met: seq<Arrival>): seq<nat> {
    if met == [] then []
    else
      var first, a := FirstArrivals(met[..|met| - 1]), met[|met| - 1];
      if a.ringFull || a.datagram.block in first then first else first + [a.datagram.block]
  }

  predicate TakenAt(met: seq<Arrival>, i: nat, b: nat) {
    i < |met| && met[i].datagram.block == b && !met[i].ringFull
  }

  /** Block `b` first arrived, while the ring had space, at `i`. */
  predicate ArrivedAt(met: seq<Arrival>, i: nat, b: nat) {
    TakenAt(met, i, b) && forall j: nat | j < i :: !TakenAt(met, j, b)
  }

  /** The first arrivals are the blocks that arrived at some time while the ring had space. */
  lemma {:induction false} FirstArrivalsAre(met: seq<Arrival>, b: nat)
    ensures b in FirstArrivals(met) <==> exists i: nat :: TakenAt(met, i, b)
    decreases |met|
  {
    if met == [] {
    } else {
      var n := |met| - 1;
      var front := met[..n];
      FirstArrivalsAre(front, b);
      assert forall i: nat | i < n :: TakenAt(met, i, b) <==> TakenAt(front, i, b);
      if TakenAt(met, n, b) {
        assert b in FirstArrivals(met);
      } else if i: nat :| TakenAt(met, i, b) {
        assert TakenAt(front, i, b);
      }
    }
  }

  /** They come without repetition, in the order in which they first arrived. */
  lemma {:induction false} FirstArrivalsOrdered(met: seq<Arrival>, k: nat, l: nat, i: nat, j: nat)
    requires k < l < |FirstArrivals(met)|
    requires ArrivedAt(met, i, FirstArrivals(met)[k]) && ArrivedAt(met, j, FirstArrivals(met)[l])
    ensures i < j && FirstArrivals(met)[k] != FirstArrivals(met)[l]
    decreases |met|
  {
    var n := |met| - 1;
    var front := met[..n];
    var first, bk, bl := FirstArrivals(front), FirstArrivals(met)[k], FirstArrivals(met)[l];
    assert forall m: nat, b | m < n :: TakenAt(met, m, b) <==> TakenAt(front, m, b);
    FirstArrivalsAre(front, bk);
    var m: nat :| TakenAt(front, m, bk);
    if l < |first| {
      FirstArrivalsAre(front, bl);
      var m': nat :| TakenAt(front, m', bl);
      FirstArrivalsOrdered(front, k, l, i, j);
    } else {
      FirstArrivalsAre(front, bl);
      assert !TakenAt(met, i, bl);
    }
  }

  function Order(log: seq<Message>): seq<nat> {
    seq(|log|, i requires 0 <= i < |log| => log[i].block)
  }

  /** The block that is on its way into the ring. */
  function OnItsWay(network: NetworkThread): seq<nat> {
    if network.Storing? then [network.a.datagram.block] else []
  }

  /** Blocks enter the ring in the order of their first arrival. */
  ghost predicate OrderInv(s: Transfer) {
    Order(Entered(s)) + OnItsWay(s.network) == FirstArrivals(s.met)
  }

  lemma InOrder(log: seq<Message>, b: nat)
    ensures b in Order(log) <==> b in Numbers(log)
  {
    if b in Order(log) {
      var i :| 0 <= i < |log| && Order(log)[i] == b;
      assert log[i] in log;
    }
    if b in Numbers(log) {
      var m :| m in log && m.block == b;
      var i :| 0 <= i < |log| && log[i] == m;
      assert Order(log)[i] == b;
    }
  }

  /** A datagram that is met is a first arrival exactly if it goes on its way into the ring. */
  lemma ArrivesOrder(s: Transfer, a: Arrival, s': Transfer)
    requires Inv(s) && OrderInv(s) && Arrives(s, a, s')
    ensures OrderInv(s')
  {
    var b := a.datagram.block;
    assert s'.met[..|s.met|] == s.met;
    assert Entered(s') == Entered(s);
    assert FirstArrivals(s.met) == Order(Entered(s));
    InOrder(Entered(s), b);
    assert Proper(a.datagram, |s.source|);
    assert s.session.client.GotBlock(b) <==> b in FirstArrivals(s.met);
  }

  lemma ConfirmsOrder(s: Transfer, s': Transfer)
    requires ThreadsInv(s) && OrderInv(s) && Confirms(s, s')
    ensures OrderInv(s')
  {
    ConfirmsMessage(s, s');
    OrderAppend(Entered(s), Carried(s.source, s.network.a.datagram));
  }

  lemma OrderAppend(log: seq<Message>, m: Message)
    ensures Order(log + [m]) == Order(log) + [m.block]
  {
  }

  lemma OrderKept(s: Transfer, s': Transfer)
    requires OrderInv(s) && Entered(s') == Entered(s)
    requires OnItsWay(s'.network) == OnItsWay(s.network) && s'.met == s.met
    ensures OrderInv(s')
  {
  }

  /** All other steps leave the order alone. */
  lemma ElseOrder(s: Transfer, s': Transfer)
    requires ThreadsInv(s) && OrderInv(s)
    requires ServerStep(s, s') || DiskAccepts(s, s') || DiskPops(s, s') || exists step :: Stores(s, step, s')
    ensures OrderInv(s')
  {
    if DiskPops(s, s') {
      DiskPopsLogs(s, s');
    } else if step :| Stores(s, step, s') {
      StoresLogs(s, step, s');
    }
    OrderKept(s, s');
  }

  lemma NextOrder(s: Transfer, s': Transfer)
    requires Inv(s) && OrderInv(s) && Next(s, s')
    ensures OrderInv(s')
  {
    if Confirms(s, s') {
      ConfirmsOrder(s, s');
    } else if a :| Arrives(s, a, s') {
      ArrivesOrder(s, a, s');
    } else if step :| StopsDisk(s, step, s') {
      StopsDiskLogs(s, step, s');
      OrderKept(s, s');
    } else if step :| DiskLooks(s, step, s') {
      DiskLooksLogs(s, step, s');
      OrderKept(s, s');
    } else {
      ElseOrder(s, s');
    }
  }

  ghost predicate OrderedInv(s: Transfer) {
    Inv(s) && OrderInv(s)
  }

  lemma RunOrder(source: seq<Payload>, sorting: bool, onWireEstimate: nat, slots: seq<Message>,
                 trace: seq<Transfer>, i: nat)
    requires 1 <= |source| && |source| + 1 < TWO_TO_THE_32 && |slots| == MAX_BLOCKS_QUEUED
    requires Run(trace, Next) && trace[0] == Initial(source, sorting, onWireEstimate, slots)
    requires i < |trace|
    ensures OrderedInv(trace[i]) && trace[i].source == source
  {
    InitialInv(source, sorting, onWireEstimate, slots);
    forall s, s' | OrderedInv(s) && Next(s, s')
      ensures OrderedInv(s')
    {
      NextInv(s, s');
      NextOrder(s, s');
    }
    Invariance(trace, Next, OrderedInv, i);
    SourceStays(trace, i);
  }

  // ---------- End to end ----------

  lemma ReadIsOldest(r: Ring.State<Message>)
    requires Ring.Inv(r) && r.consumer.Read?
    ensures |r.popped| < |r.confirmed| && r.confirmed[|r.popped|] == r.consumer.item
  {
    assert r.ring.Contents()[0] == r.consumer.item;
  }

  /** The stop marker is never popped. */
  lemma PoppedAreEntered(s: Transfer)
    requires ThreadsInv(s)
    ensures s.ring.popped <= Entered(s)
  {
    var r := s.ring;
    assert r.popped != [] ==> r.popped[|r.popped| - 1] in r.popped;
  }

  /** What the disk thread wrote is what entered the ring, in the same order, up to some point. */
  lemma AcceptsArePrefix(s: Transfer)
    requires ThreadsInv(s)
    ensures Accepts(s) <= Entered(s)
  {
    PoppedAreEntered(s);
    if s.ring.consumer.Read? {
      ReadIsOldest(s.ring);
    }
  }

  lemma FaithfulPrefix(log: seq<Message>, longer: seq<Message>, source: seq<Payload>)
    requires log <= longer && Faithful(longer, source)
    ensures Faithful(log, source)
  {
    forall m | m in log
      ensures m in longer
    {
    }
  }

  /** In every state of a run, all that was written to the file so far is right. */
  lemma FileNeverWrong(source: seq<Payload>, sorting: bool, onWireEstimate: nat, slots: seq<Message>,
                       trace: seq<Transfer>, i: nat)
    requires 1 <= |source| && |source| + 1 < TWO_TO_THE_32 && |slots| == MAX_BLOCKS_QUEUED
    requires Run(trace, Next) && trace[0] == Initial(source, sorting, onWireEstimate, slots)
    requires i < |trace|
    ensures forall b | b in trace[i].file :: 1 <= b <= |source| && trace[i].file[b] == source[b - 1]
  {
    InitialInv(source, sorting, onWireEstimate, slots);
    RunInv(trace, i);
    SourceStays(trace, i);
    var s := trace[i];
    AcceptsArePrefix(s);
    FaithfulPrefix(Accepts(s), Entered(s), s.source);
    WrittenFaithful(Accepts(s), s.source);
  }

  lemma EnteredAreBlocks(s: Transfer)
    requires LogInv(s)
    ensures forall k | 0 <= k < |Entered(s)| :: Entered(s)[k].block != 0
  {
    forall k | 0 <= k < |Entered(s)|
      ensures Entered(s)[k].block != 0
    {
      assert Entered(s)[k] in Entered(s);
    }
  }

  /** When the disk thread has met the stop marker, it has popped all that entered the ring. */
  lemma DeadHasAll(s: Transfer)
    requires ThreadsInv(s) && LogInv(s) && s.disk == Dead
    ensures s.network.Joining? && s.session.done && s.ring.popped == Entered(s)
  {
    var r := s.ring;
    ReadIsOldest(r);
    PoppedAreEntered(s);
    EnteredAreBlocks(s);
  }

  /** Every block entered the ring exactly once, in the order of first arrival, and none is lost. */
  ghost predicate Complete(s: Transfer) {
    && |Entered(s)| == |s.source| && Distinct(Entered(s)) && Numbers(Entered(s)) == Blocks(|s.source|)
    && Order(Entered(s)) == FirstArrivals(s.met)
    && s.session.client.Missing() == {}
  }

  lemma DoneIsComplete(s: Transfer)
    requires OrderedInv(s) && s.session.done
    ensures Complete(s)
  {
    DistinctSize(Entered(s));
    BlocksSize(|s.source|);
  }

  /** The file that the disk thread leaves behind. */
  lemma DeadLeavesFile(s: Transfer)
    requires Inv(s) && s.disk == Dead
    ensures s.file == Written(Entered(s)) && s.file.Keys == Numbers(Entered(s))
    ensures forall b | b in s.file :: 1 <= b <= |s.source| && s.file[b] == s.source[b - 1]
  {
    DeadHasAll(s);
    WrittenFaithful(Entered(s), s.source);
  }

  /**
   * Main result on the receive loop: in every run, once the client is out of it, every block of the
   * file has entered the ring exactly once, in the order of first arrival, and none is lost.
   */
  lemma LoopEndsComplete(source: seq<Payload>, sorting: bool, onWireEstimate: nat, slots: seq<Message>,
                         trace: seq<Transfer>, i: nat)
    requires 1 <= |source| && |source| + 1 < TWO_TO_THE_32 && |slots| == MAX_BLOCKS_QUEUED
    requires Run(trace, Next) && trace[0] == Initial(source, sorting, onWireEstimate, slots)
    requires i < |trace| && trace[i].session.done
    ensures trace[i].source == source && Complete(trace[i])
  {
    RunOrder(source, sorting, onWireEstimate, slots, trace, i);
    DoneIsComplete(trace[i]);
  }

  /** In every run, the disk thread writes blocks in the order of their first arrival. */
  lemma WrittenInOrder(source: seq<Payload>, sorting: bool, onWireEstimate: nat, slots: seq<Message>,
                       trace: seq<Transfer>, i: nat)
    requires 1 <= |source| && |source| + 1 < TWO_TO_THE_32 && |slots| == MAX_BLOCKS_QUEUED
    requires Run(trace, Next) && trace[0] == Initial(source, sorting, onWireEstimate, slots)
    requires i < |trace|
    ensures Order(Accepts(trace[i])) <= FirstArrivals(trace[i].met)
  {
    RunOrder(source, sorting, onWireEstimate, slots, trace, i);
    var s := trace[i];
    AcceptsArePrefix(s);
    OrderPrefix(Accepts(s), Entered(s));
    assert Order(Entered(s)) <= FirstArrivals(s.met);
  }

  lemma OrderPrefix(log: seq<Message>, longer: seq<Message>)
    requires log <= longer
    ensures Order(log) <= Order(longer)
  {
  }

  /** The client's file is the server's, and what was written is what entered. */
  ghost predicate FileExact(s: Transfer) {
    && s.ring.popped == Entered(s)
    && s.file.Keys == Blocks(|s.source|)
    && forall b | b in s.file :: s.file[b] == s.source[b - 1]
  }

  lemma DeadIsExact(s: Transfer)
    requires OrderedInv(s) && s.disk == Dead
    ensures Complete(s) && FileExact(s)
  {
    DeadHasAll(s);
    DoneIsComplete(s);
    DeadLeavesFile(s);
  }

  /**
   * Main result, end to end: in every run, when the disk thread has ended, every block of the file
   * entered the ring exactly once, the disk thread wrote exactly those in order of first arrival,
   * none is counted as lost, and the client's file is the server's file.
   */
  lemma TransferIsExact(source: seq<Payload>, sorting: bool, onWireEstimate: nat, slots: seq<Message>,
                        trace: seq<Transfer>, i: nat)
    requires 1 <= |source| && |source| + 1 < TWO_TO_THE_32 && |slots| == MAX_BLOCKS_QUEUED
    requires Run(trace, Next) && trace[0] == Initial(source, sorting, onWireEstimate, slots)
    requires i < |trace| && trace[i].disk == Dead
    ensures trace[i].source == source && Complete(trace[i]) && FileExact(trace[i])
  {
    RunOrder(source, sorting, onWireEstimate, slots, trace, i);
    DeadIsExact(trace[i]);
  }
}
