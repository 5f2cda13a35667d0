/**
 * The ring buffer between the network thread, its only producer, and the disk thread, its only
 * consumer.  Slots are written and read outside the lock, between reserve and confirm and between
 * peek and pop; the sections under the lock are the steps of a machine whose runs are all
 * interleavings of the two threads.
 */
module Ring {
  import opened Tsunami
  import opened Runs

  /** The slot `i` places after slot `base`. */
  function Slot(base: nat, i: nat): nat {
    (base + i) % MAX_BLOCKS_QUEUED
  }

  datatype Ring<T> = Ring(
    slots: seq<T>,
    baseData: nat,
    countData: nat,
    countReserved: nat,
    dataReady: bool,
    spaceReady: bool)
  {
    /** The slot that the next reservation gets. */
    function NextSlot(): nat {
      Slot(baseData, countData + countReserved)
    }

    function Reserve(next: nat): Ring<T> {
      this.(countReserved := countReserved + 1,
            spaceReady := spaceReady && Slot(next, 1) != baseData)
    }

    function Confirm(): Ring<T>
      requires countReserved > 0
    {
      this.(countData := countData + 1, countReserved := countReserved - 1, dataReady := true)
    }

    function Cancel(): Ring<T>
      requires countReserved > 0
    {
      this.(countReserved := countReserved - 1, spaceReady := true)
    }

    function Pop(): Ring<T>
      requires countData > 0
    {
      this.(baseData := Slot(baseData, 1), countData := countData - 1,
            dataReady := dataReady && countData != 1, spaceReady := true)
    }

    predicate Valid() {
      && |slots| == MAX_BLOCKS_QUEUED
      && baseData < MAX_BLOCKS_QUEUED
      && countReserved <= 1
      && countData + countReserved <= MAX_BLOCKS_QUEUED
      && (dataReady <==> countData > 0)
      && (spaceReady <==> countData + countReserved < MAX_BLOCKS_QUEUED)
    }

    /** The confirmed items that were not popped, oldest first. */
    function Contents(): seq<T>
      requires |slots| == MAX_BLOCKS_QUEUED
    {
      seq(countData, i requires 0 <= i < countData => slots[Slot(baseData, i)])
    }
  }

  /** Where the producer stands; `next` was computed before any wait, `item` is what it will store. */
  datatype Producer<T> =
    | Idle
    | Asleep(next: nat, item: T)   // blocked on the space-ready condition
    | Awake(next: nat, item: T)    // woken, about to test space_ready again
    | Holding(next: nat, item: T)  // reserved, not yet written
    | Written(next: nat, item: T)  // written, not yet confirmed

  /** Where the consumer stands. */
  datatype Consumer<T> =
    | Resting
    | Sleeping            // blocked on the data-ready condition
    | Woken               // woken, about to test data_ready again
    | Peeked(slot: nat)   // reading the slot outside the lock
    | Read(slot: nat, item: T)

  datatype State<T> = State(
    ring: Ring<T>,
    producer: Producer<T>,
    consumer: Consumer<T>,
    confirmed: seq<T>,   // history: the items confirmed so far
    popped: seq<T>)      // history: the items read and popped so far

  datatype Step<T> =
    | ReserveStep(item: T) | ProducerWakes | WriteStep | ConfirmStep | CancelStep
    | PeekStep | ConsumerWakes | ReadStep | PopStep

  function Start<T>(slots: seq<T>): State<T> {
    State(Ring(slots, 0, 0, 0, false, true), Idle, Resting, [], [])
  }

  /** Signalling a condition wakes the thread that sleeps on it. */
  function SignalProducer<T>(p: Producer<T>): Producer<T> {
    if p.Asleep? then Awake(p.next, p.item) else p
  }

  function SignalConsumer<T>(c: Consumer<T>): Consumer<T> {
    if c.Sleeping? then Woken else c
  }

  /** Takes the slot if there is space, else sleeps. */
  function TryReserve<T>(s: State<T>, next: nat, item: T): State<T> {
    if s.ring.spaceReady then s.(ring := s.ring.Reserve(next), producer := Holding(next, item))
    else s.(producer := Asleep(next, item))
  }

  function TryPeek<T>(s: State<T>): State<T> {
    s.(consumer := if s.ring.dataReady then Peeked(s.ring.baseData) else Sleeping)
  }

  predicate Enabled<T>(s: State<T>, step: Step<T>) {
    match step
    case ReserveStep(_) => s.producer.Idle? || s.producer.Awake?
    case ProducerWakes => s.producer.Asleep?
    case WriteStep => s.producer.Holding? && s.producer.next < |s.ring.slots|
    case ConfirmStep => s.producer.Written? && s.ring.countReserved > 0
    case CancelStep => (s.producer.Holding? || s.producer.Written?) && s.ring.countReserved > 0
    case PeekStep => s.consumer.Resting? || s.consumer.Woken?
    case ConsumerWakes => s.consumer.Sleeping?
    case ReadStep => s.consumer.Peeked? && s.consumer.slot < |s.ring.slots|
    case PopStep => s.consumer.Read? && s.ring.dataReady && s.ring.countData > 0
  }

  /** One step of one thread. Wake-ups may also be spurious. */
  function Apply<T>(s: State<T>, step: Step<T>): State<T>
    requires Enabled(s, step)
  {
    match step
    case ReserveStep(item) =>
      if s.producer.Idle? then TryReserve(s, s.ring.NextSlot(), item)
      else TryReserve(s, s.producer.next, s.producer.item)
    case ProducerWakes => s.(producer := SignalProducer(s.producer))
    case WriteStep =>
      s.(ring := s.ring.(slots := s.ring.slots[s.producer.next := s.producer.item]),
         producer := Written(s.producer.next, s.producer.item))
    case ConfirmStep =>
      s.(ring := s.ring.Confirm(), producer := Idle, consumer := SignalConsumer(s.consumer),
         confirmed := s.confirmed + [s.producer.item])
    case CancelStep => s.(ring := s.ring.Cancel(), producer := Idle)
    case PeekStep => TryPeek(s)
    case ConsumerWakes => s.(consumer := SignalConsumer(s.consumer))
    case ReadStep => s.(consumer := Read(s.consumer.slot, s.ring.slots[s.consumer.slot]))
    case PopStep =>
      s.(ring := s.ring.Pop(), consumer := Resting, producer := SignalProducer(s.producer),
         popped := s.popped + [s.consumer.item])
  }

  ghost predicate Next<T(!new)>(s: State<T>, s': State<T>) {
    exists step :: Enabled(s, step) && s' == Apply(s, step)
  }

  // ---------- The invariant ----------

  predicate ProducerInv<T(==)>(s: State<T>)
    requires s.ring.Valid()
  {
    var r := s.ring;
    match s.producer
    case Idle => r.countReserved == 0
    case Asleep(next, _) => r.countReserved == 0 && !r.spaceReady && next == r.NextSlot()
    case Awake(next, _) => r.countReserved == 0 && next == r.NextSlot()
    case Holding(next, _) =>
      r.countReserved == 1 && next == Slot(r.baseData, r.countData)
    case Written(next, item) =>
      && r.countReserved == 1 && next == Slot(r.baseData, r.countData)
      && r.slots[next] == item
  }

  predicate ConsumerInv<T(==)>(s: State<T>)
    requires s.ring.Valid()
  {
    var r := s.ring;
    match s.consumer
    case Resting => true
    case Sleeping => !r.dataReady
    case Woken => true
    case Peeked(slot) => r.dataReady && slot == r.baseData
    case Read(slot, item) => r.dataReady && slot == r.baseData && item == r.slots[slot]
  }

  /** What holds whenever neither thread is under the lock. */
  predicate Inv<T(==)>(s: State<T>) {
    && s.ring.Valid()
    && ProducerInv(s) && ConsumerInv(s)
    && s.confirmed == s.popped + s.ring.Contents()
  }

  lemma StartInv<T>(slots: seq<T>)
    requires |slots| == MAX_BLOCKS_QUEUED
    ensures Inv(Start(slots))
  {
  }

  /** Distinct positions of the ring are distinct slots. */
  lemma SlotsApart(base: nat, i: nat, j: nat)
    requires base < MAX_BLOCKS_QUEUED && i < j < MAX_BLOCKS_QUEUED
    ensures Slot(base, i) != Slot(base, j)
  {
  }

  /** The slot after the last one in use is the base exactly when the ring is full. */
  lemma FullMeetsBase(base: nat, used: nat)
    requires base < MAX_BLOCKS_QUEUED && used < MAX_BLOCKS_QUEUED
    ensures Slot(Slot(base, used), 1) == base <==> used + 1 == MAX_BLOCKS_QUEUED
  {
  }

  /** Moving the base forward by one shifts the positions by one. */
  lemma SlotShift(base: nat, i: nat)
    requires base < MAX_BLOCKS_QUEUED
    ensures Slot(Slot(base, 1), i) == Slot(base, i + 1)
  {
  }

  /** Writing the reserved slot changes no confirmed item, and not the one being read. */
  lemma WriteKeepsContents<T>(r: Ring<T>, next: nat, item: T)
    requires r.Valid() && r.countReserved == 1 && next == Slot(r.baseData, r.countData)
    ensures r.(slots := r.slots[next := item]).Contents() == r.Contents()
    ensures r.countData > 0 ==> next != r.baseData
  {
    forall i | 0 <= i < r.countData
      ensures Slot(r.baseData, i) != next
    {
      SlotsApart(r.baseData, i, r.countData);
    }
    if r.countData > 0 {
      SlotsApart(r.baseData, 0, r.countData);
    }
  }

  lemma PopDropsFirst<T>(r: Ring<T>)
    requires r.Valid() && r.countData > 0
    ensures r.Pop().Valid()
    ensures r.Contents() == [r.slots[r.baseData]] + r.Pop().Contents()
  {
    forall i | 0 <= i < r.countData - 1
      ensures r.Pop().Contents()[i] == r.Contents()[i + 1]
    {
      SlotShift(r.baseData, i);
    }
  }

  lemma ReserveInv<T>(s: State<T>, next: nat, item: T)
    requires Inv(s) && s.ring.countReserved == 0 && next == s.ring.NextSlot()
    ensures Inv(TryReserve(s, next, item))
  {
    if s.ring.spaceReady {
      FullMeetsBase(s.ring.baseData, s.ring.countData);
    }
    assert TryReserve(s, next, item).ring.Contents() == s.ring.Contents();
  }

  lemma ConfirmInv<T>(s: State<T>)
    requires Inv(s) && s.producer.Written?
    ensures Inv(Apply(s, ConfirmStep))
  {
    assert s.ring.Confirm().Contents() == s.ring.Contents() + [s.producer.item];
  }

  lemma PopInv<T>(s: State<T>)
    requires Inv(s) && s.consumer.Read?
    ensures Inv(Apply(s, PopStep))
  {
    var r := s.ring;
    PopDropsFirst(r);
    SlotShift(r.baseData, r.countData - 1);
    assert r.Contents() == [s.consumer.item] + r.Pop().Contents();
  }

  lemma WriteInv<T>(s: State<T>)
    requires Inv(s) && s.producer.Holding?
    ensures Enabled(s, WriteStep) && Inv(Apply(s, WriteStep))
  {
    WriteKeepsContents(s.ring, s.producer.next, s.producer.item);
  }

  /** Every step of either thread keeps the invariant. */
  lemma StepInv<T>(s: State<T>, step: Step<T>)
    requires Inv(s) && Enabled(s, step)
    ensures Inv(Apply(s, step))
  {
    match step {
      case ReserveStep(item) =>
        if s.producer.Idle? {
          ReserveInv(s, s.ring.NextSlot(), item);
        } else {
          ReserveInv(s, s.producer.next, s.producer.item);
        }
      case WriteStep => WriteInv(s);
      case ConfirmStep => ConfirmInv(s);
      case CancelStep => assert s.ring.Cancel().Contents() == s.ring.Contents();
      case PopStep => PopInv(s);
      case PeekStep =>
      case ProducerWakes =>
      case ConsumerWakes =>
      case ReadStep =>
    }
  }

  // ---------- Whole runs ----------

  lemma RunInv<T(!new)>(trace: seq<State<T>>, i: nat)
    requires Run(trace, Next) && Inv(trace[0]) && i < |trace|
    ensures Inv(trace[i])
  {
    forall s: State<T>, s' | Inv(s) && Next(s, s')
      ensures Inv(s')
    {
      var step :| Enabled(s, step) && s' == Apply(s, step);
      StepInv(s, step);
    }
    Invariance(trace, Next, Inv, i);
  }

  /**
   * The ring is a queue: in every run, what the consumer has taken out is what the producer has
   * confirmed, unaltered, in order and without gaps, and the rest is still in the ring.
   */
  lemma RunIsFifo<T(!new)>(slots: seq<T>, trace: seq<State<T>>, i: nat)
    requires |slots| == MAX_BLOCKS_QUEUED && Run(trace, Next) && trace[0] == Start(slots)
    requires i < |trace|
    ensures Inv(trace[i])
    ensures trace[i].popped <= trace[i].confirmed
    ensures trace[i].ring.Contents() == trace[i].confirmed[|trace[i].popped|..]
  {
    StartInv(slots);
    RunInv(trace, i);
  }

  /** The queue that the ring stands for: a step adds a confirmed item, takes the oldest, or neither. */
  lemma StepRefinesQueue<T>(s: State<T>, step: Step<T>)
    requires Inv(s) && Enabled(s, step)
    ensures var before, after := s.ring.Contents(), Apply(s, step).ring.Contents();
      match step
      case ConfirmStep => after == before + [s.producer.item]
      case PopStep => before == [s.consumer.item] + after
      case _ => after == before
  {
    StepInv(s, step);
    match step {
      case WriteStep => WriteKeepsContents(s.ring, s.producer.next, s.producer.item);
      case ConfirmStep => assert s.ring.Confirm().Contents() == s.ring.Contents() + [s.producer.item];
      case PopStep => PopDropsFirst(s.ring);
      case _ => assert Apply(s, step).ring.Contents() == s.ring.Contents();
    }
  }

  // ---------- Safety and progress ----------

  /** The slot being written is never the slot being read. */
  lemma WritesApartFromReads<T>(s: State<T>)
    requires Inv(s) && (s.producer.Holding? || s.producer.Written?)
    requires s.consumer.Peeked? || s.consumer.Read?
    ensures s.producer.next != s.consumer.slot
  {
    SlotsApart(s.ring.baseData, 0, s.ring.countData);
  }

  /** The slot number computed before a wait is still the right one after any number of pops. */
  lemma NextStaysRight<T(!new)>(trace: seq<State<T>>, i: nat)
    requires Run(trace, Next) && Inv(trace[0]) && i < |trace|
    ensures trace[i].producer.Asleep? || trace[i].producer.Awake? ==>
              trace[i].producer.next == trace[i].ring.NextSlot()
  {
    RunInv(trace, i);
  }

  /**
   * No wake-up is lost: in no state of a run do both threads sleep, and a thread sleeps only while
   * the ring is full, or empty. */
  lemma NeverBothAsleep<T(!new)>(trace: seq<State<T>>, i: nat)
    requires Run(trace, Next) && Inv(trace[0]) && i < |trace|
    ensures Inv(trace[i])
    ensures !(trace[i].producer.Asleep? && trace[i].consumer.Sleeping?)
    ensures trace[i].producer.Asleep? ==> |trace[i].ring.Contents()| == MAX_BLOCKS_QUEUED
    ensures trace[i].consumer.Sleeping? ==> trace[i].ring.Contents() == []
  {
    RunInv(trace, i);
  }

  /**
   * The fatal errors of the ring are unreachable: reserving twice, confirming or cancelling no
   * reservation; and a pop after a peek never waits.
   */
  lemma NoFatalError<T(!new)>(trace: seq<State<T>>, i: nat)
    requires Run(trace, Next) && Inv(trace[0]) && i < |trace|
    ensures var s := trace[i];
      && (s.producer.Idle? || s.producer.Awake? ==> s.ring.countReserved + 1 <= 1)
      && (s.producer.Holding? || s.producer.Written? ==> s.ring.countReserved - 1 >= 0)
      && (s.consumer.Read? ==> Enabled(s, PopStep))
  {
    RunInv(trace, i);
  }

  /** A step of the consumer, or a spurious wake-up, never takes space away. */
  predicate ByConsumer<T>(step: Step<T>) {
    step.PeekStep? || step.ConsumerWakes? || step.ReadStep? || step.PopStep?
  }

  /**
   * Once the producer has seen that the ring is not full, its reservation does not wait, whatever
   * the consumer does in between.
   */
  lemma {:induction false} NotFullNeverWaits<T(!new)>(trace: seq<State<T>>, steps: seq<Step<T>>, item: T)
    requires |trace| == |steps| + 1 && Inv(trace[0])
    requires trace[0].producer.Idle? && trace[0].ring.spaceReady
    requires forall i | 0 <= i < |steps| ::
               ByConsumer(steps[i]) && Enabled(trace[i], steps[i]) && trace[i + 1] == Apply(trace[i], steps[i])
    ensures var last := trace[|steps|];
      && Inv(last) && last.producer.Idle? && last.ring.spaceReady
      && Apply(last, ReserveStep(item)).producer.Holding?
    decreases |steps|
  {
    if steps == [] {
    } else {
      var n := |steps| - 1;
      NotFullNeverWaits(trace[..n + 1], steps[..n], item);
      StepInv(trace[n], steps[n]);
    }
  }

  // ---------- The ring, updated in place ----------

  /** The sections under the lock; a blocked thread runs its section once the condition holds. */
  class RingBuffer<T(0)> {
    const datagrams: array<T>
    var baseData: nat
    var countData: nat
    var countReserved: nat
    var dataReady: bool
    var spaceReady: bool

    ghost predicate Valid()
      reads this, datagrams
    {
      Abs().Valid()
    }

    ghost function Abs(): Ring<T>
      reads this, datagrams
    {
      Ring(datagrams[..], baseData, countData, countReserved, dataReady, spaceReady)
    }

    constructor ()
      ensures Valid() && fresh(datagrams)
      ensures Abs() == Start(datagrams[..]).ring
    {
      datagrams := new T[MAX_BLOCKS_QUEUED];
      baseData, countData, countReserved := 0, 0, 0;
      dataReady, spaceReady := false, true;
    }

    method Full() returns (full: bool)
      requires Valid()
      ensures full <==> countData + countReserved == MAX_BLOCKS_QUEUED
    {
      full := !spaceReady;
    }

    /** Computes the slot before the wait, as the producer does on entry. */
    method Locate() returns (next: nat)
      requires Valid()
      ensures next == Abs().NextSlot() == Slot(baseData, countData + countReserved)
    {
      next := (baseData + countData + countReserved) % MAX_BLOCKS_QUEUED;
    }

    /** Reserves the located slot, once there is space. */
    method Reserve(next: nat)
      requires Valid() && spaceReady && countReserved == 0 && next == Abs().NextSlot()
      modifies this`countReserved, this`spaceReady
      ensures Valid() && Abs() == old(Abs()).Reserve(next)
    {
      FullMeetsBase(baseData, countData);
      countReserved := countReserved + 1;
      if (next + 1) % MAX_BLOCKS_QUEUED == baseData {
        spaceReady := false;
      }
    }

    /** Stores an item in the reserved slot, without the lock. */
    method Write(next: nat, item: T)
      requires Valid() && countReserved == 1 && next == Slot(baseData, countData)
      modifies datagrams
      ensures Valid() && Abs() == old(Abs()).(slots := old(Abs()).slots[next := item])
      ensures Abs().Contents() == old(Abs()).Contents()
    {
      WriteKeepsContents(Abs(), next, item);
      datagrams[next] := item;
    }

    method Confirm()
      requires Valid() && countReserved > 0
      modifies this`countData, this`countReserved, this`dataReady
      ensures Valid() && Abs() == old(Abs()).Confirm()
      ensures Abs().Contents() == old(Abs()).Contents() + [old(datagrams[Slot(baseData, countData)])]
    {
      countData := countData + 1;
      countReserved := countReserved - 1;
      dataReady := true;
    }

    method Cancel()
      requires Valid() && countReserved > 0
      modifies this`countReserved, this`spaceReady
      ensures Valid() && Abs() == old(Abs()).Cancel()
      ensures Abs().Contents() == old(Abs()).Contents()
    {
      countReserved := countReserved - 1;
      spaceReady := true;
    }

    /** The oldest item, which stays in place until it is popped. */
    method Peek() returns (slot: nat)
      requires Valid() && dataReady
      ensures slot < datagrams.Length && Abs().Contents() != []
      ensures datagrams[slot] == Abs().Contents()[0]
    {
      slot := baseData;
    }

    method Pop()
      requires Valid() && dataReady
      modifies this`baseData, this`countData, this`dataReady, this`spaceReady
      ensures Valid() && Abs() == old(Abs()).Pop()
      ensures old(Abs()).Contents() == [old(Abs()).Contents()[0]] + Abs().Contents()
    {
      PopDropsFirst(Abs());
      baseData := (baseData + 1) % MAX_BLOCKS_QUEUED;
      countData := countData - 1;
      if countData == 0 {
        dataReady := false;
      }
      spaceReady := true;
    }
  }
}
