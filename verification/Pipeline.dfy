/**
 * One writer and several readers sharing the buffer, as a transition system.  Each step is one call
 * on the buffer, one copy into or out of a slot, or one decision of a reader loop; steps of
 * different threads interleave freely, and each is atomic.
 */
module Pipeline {
  import opened Words
  import opened Wrappers
  import opened DataBuffers

  /** A slot holds a packet, whose two parts are copied one after the other. */
  datatype Slot<H, D> = Slot(header: H, payload: D)

  /** Where runThread stands between getWritePtr and doneWriting. */
  datatype Writer<H, D> = Idle | Got(packet: Slot<H, D>) | HeaderIn(packet: Slot<H, D>) | PayloadIn(packet: Slot<H, D>)

  /**
   * Where a reader thread stands.  Holding keeps the slot it was given, and for the record the write
   * number `at` of the packet then in it, the overwrites `lost` counted so far, and what was read.
   */
  datatype Reading<H, D> =
    | Waiting
    | Ready
    | Holding(slot: nat, at: nat, lost: nat, header: Option<H>, payload: Option<D>)

  /** A finished read: the write number it was given, whether an overwrite intervened, what it saw. */
  datatype Delivery<H, D> = Delivery(at: nat, clean: bool, packet: Slot<H, D>)

  /** A reader thread, with its overwrites since the start, its finished reads and its getReadPtr results. */
  datatype Reader<H, D> = Reader(reading: Reading<H, D>, overwritten: nat, delivered: seq<Delivery<H, D>>,
                                 acquired: seq<nat>)

  /** The system, with every packet written so far. */
  datatype System<H, D> = System(buf: Buffer<Slot<H, D>>, writer: Writer<H, D>, readers: seq<Reader<H, D>>,
                                 history: seq<Slot<H, D>>)

  datatype Action<H, D> =
    | StartWrite(packet: Slot<H, D>) | CopyHeader | CopyPayload | FinishWrite
    | Poll(i: nat) | Acquire(i: nat) | ReadHeader(i: nat) | ReadPayload(i: nat) | Release(i: nat) | Abandon(i: nat)
    | ClearCounters

  // ---------------------------------------------------------------------------
  // Steps
  // ---------------------------------------------------------------------------

  predicate Shaped<H, D>(s: System<H, D>) {
    && |s.readers| == |s.buf.cursors|
    && s.buf.writePtr < |s.buf.data|
  }

  /** A reader's read pointer is on a slot; past the last one the code would go through a dangling iterator. */
  predicate OnSlot<H, D>(s: System<H, D>, i: nat)
    requires i < |s.buf.cursors|
  {
    s.buf.cursors[i].ptr < |s.buf.data|
  }

  function Initial<H, D>(slots: seq<Slot<H, D>>, readers: nat): System<H, D> {
    System(Fresh(slots, readers), Idle, seq(readers, _ => Reader(Waiting, 0, [], [])), [])
  }

  /** One step; an action that its thread cannot take where it stands changes nothing. */
  function Step<H, D>(s: System<H, D>, a: Action<H, D>, wraps: bool): (s': System<H, D>)
    requires Shaped(s)
    ensures Shaped(s') && |s'.readers| == |s.readers| && |s'.buf.data| == |s.buf.data|
  {
    var b := s.buf;
    match a
    case StartWrite(p) =>
      if s.writer.Idle? then
        s.(buf := GetWritePtr(b, wraps), writer := Got(p),
           readers := seq(|s.readers|, i requires 0 <= i < |s.readers| =>
                        NoteOverwrite(s.readers[i], b.cursors[i].full)))
      else s
    case CopyHeader =>
      if s.writer.Got? then
        s.(buf := b.(data := b.data[b.writePtr := b.data[b.writePtr].(header := s.writer.packet.header)]),
           writer := HeaderIn(s.writer.packet))
      else s
    case CopyPayload =>
      if s.writer.HeaderIn? then
        s.(buf := b.(data := b.data[b.writePtr := b.data[b.writePtr].(payload := s.writer.packet.payload)]),
           writer := PayloadIn(s.writer.packet))
      else s
    case FinishWrite =>
      if s.writer.PayloadIn? then
        s.(buf := DoneWriting(b), writer := Idle, history := s.history + [s.writer.packet])
      else s
    case ClearCounters => s.(buf := ClearCnts(b))
    case _ => if a.i < |s.readers| then ReaderStep(s, a) else s
  }

  function NoteOverwrite<H, D>(r: Reader<H, D>, full: bool): Reader<H, D> {
    if full then r.(overwritten := r.overwritten + 1) else r
  }

  predicate OfReader<H, D>(a: Action<H, D>) {
    a.Poll? || a.Acquire? || a.ReadHeader? || a.ReadPayload? || a.Release? || a.Abandon?
  }

  function ReaderStep<H, D>(s: System<H, D>, a: Action<H, D>): (s': System<H, D>)
    requires Shaped(s) && OfReader(a) && a.i < |s.readers|
    ensures Shaped(s') && |s'.readers| == |s.readers| && |s'.buf.data| == |s.buf.data|
  {
    var (c, r) := OneReader(s.buf.data, s.buf.writePtr, s.buf.cursors[a.i], s.readers[a.i], a);
    s.(buf := s.buf.(cursors := s.buf.cursors[a.i := c]), readers := s.readers[a.i := r])
  }

  /** A reader's step in terms of the slots, the write pointer, and what is its own. */
  function OneReader<H, D>(data: seq<Slot<H, D>>, writePtr: nat, c: Cursor, r: Reader<H, D>, a: Action<H, D>)
    : (x: (Cursor, Reader<H, D>))
    requires OfReader(a)
  {
    var reading := r.reading;
    match a
    case Poll(_) => if reading.Waiting? && !c.empty then (c, r.(reading := Ready)) else (c, r)
    case Acquire(_) =>
      if !reading.Ready? || c.ptr >= |data| then (c, r)
      else if c.empty then (c.(rofCnt := c.rofCnt + 1), r.(reading := Waiting))
      else
        var at := c.readCnt + r.overwritten;
        (c, r.(reading := Holding(c.ptr, at, r.overwritten, None, None), acquired := r.acquired + [at]))
    case ReadHeader(_) =>
      if reading.Holding? && reading.slot < |data| then
        (c, r.(reading := reading.(header := Some(data[reading.slot].header))))
      else (c, r)
    case ReadPayload(_) =>
      if reading.Holding? && reading.slot < |data| then
        (c, r.(reading := reading.(payload := Some(data[reading.slot].payload))))
      else (c, r)
    case Release(_) =>
      if reading.Holding? && reading.header.Some? && reading.payload.Some? then
        (AfterRead(c, writePtr, |data|),
         r.(reading := Waiting,
            delivered := r.delivered + [Delivery(reading.at, reading.lost == r.overwritten,
                                                 Slot(reading.header.value, reading.payload.value))]))
      else (c, r)
    case Abandon(_) => if reading.Holding? then (c, r.(reading := Waiting)) else (c, r)
  }

  function Run<H, D>(s: System<H, D>, actions: seq<Action<H, D>>, wraps: bool): (s': System<H, D>)
    requires Shaped(s)
    ensures Shaped(s') && |s'.readers| == |s.readers| && |s'.buf.data| == |s.buf.data|
    decreases |actions|
  {
    if actions == [] then s else Run(Step(s, actions[0], wraps), actions[1..], wraps)
  }

  // ---------------------------------------------------------------------------
  // The invariant
  // ---------------------------------------------------------------------------

  /** The write number of the oldest packet a reader has not passed: its finished reads and its overwrites. */
  function Position<H, D>(c: Cursor, r: Reader<H, D>): nat {
    c.readCnt + r.overwritten
  }

  ghost predicate WriterInv<H, D>(s: System<H, D>) {
    && |s.buf.data| >= 2
    && s.buf.writeCnt == |s.history|
    && s.buf.writePtr == |s.history| % |s.buf.data|
    && SlotsHold(s.buf.data, s.history, s.writer.Idle?)
    && (s.writer.HeaderIn? ==> s.buf.data[s.buf.writePtr].header == s.writer.packet.header)
    && (s.writer.PayloadIn? ==> s.buf.data[s.buf.writePtr] == s.writer.packet)
  }

  /** The last |data| packets are in their slots, except the oldest while its slot is being written. */
  ghost predicate SlotsHold<H, D>(data: seq<Slot<H, D>>, history: seq<Slot<H, D>>, idle: bool) {
    && |data| > 0
    && forall k :: 0 <= k < |history| && |history| - |data| + (if idle then 0 else 1) <= k ==>
         data[k % |data|] == history[k]
  }

  /** The flags and the pointer of a reader, from the number of writes w and the position p. */
  ghost predicate CursorInv(c: Cursor, w: nat, p: nat, size: nat, idle: bool)
    requires size > 0
  {
    && c.ptr == p % size
    && p <= w <= p + size
    && (c.empty <==> p == w)
    && (idle ==> (c.full <==> w - p == size))
    && (!idle ==> w - p < size && (c.full ==> w - p == size - 1))
    && c.rofCnt == 0
  }

  ghost predicate ReadingInv<H, D>(c: Cursor, r: Reader<H, D>, history: seq<Slot<H, D>>, size: nat)
    requires size > 0
  {
    var p := Position(c, r);
    match r.reading
    case Waiting => true
    case Ready => p < |history|
    case Holding(slot, at, lost, header, payload) =>
      && p < |history| && at <= p
      && slot == at % size
      && r.overwritten == lost + (p - at)
      && (forall k :: 0 <= k < |r.delivered| ==> r.delivered[k].at < at)
      && (at == p && header.Some? ==> header.value == history[at].header)
      && (at == p && payload.Some? ==> payload.value == history[at].payload)
  }

  /** Finished reads go forward through the history, and clean ones saw what was written. */
  ghost predicate DeliveredInv<H, D>(c: Cursor, r: Reader<H, D>, history: seq<Slot<H, D>>) {
    var p := Position(c, r);
    && p <= |history|
    && |r.delivered| == c.readCnt
    && (forall k :: 0 <= k < |r.delivered| ==> r.delivered[k].at < p)
    && (forall j, k :: 0 <= j < k < |r.delivered| ==> r.delivered[j].at < r.delivered[k].at)
    && (forall k :: 0 <= k < |r.delivered| && r.delivered[k].clean ==>
          r.delivered[k].packet == history[r.delivered[k].at])
    && (r.overwritten == 0 ==> forall k :: 0 <= k < |r.delivered| ==> r.delivered[k].at == k && r.delivered[k].clean)
  }

  ghost predicate AcquiredInv<H, D>(c: Cursor, r: Reader<H, D>) {
    && (forall k :: 0 <= k < |r.acquired| ==> r.acquired[k] <= Position(c, r))
    && (forall j, k :: 0 <= j <= k < |r.acquired| ==> r.acquired[j] <= r.acquired[k])
  }

  ghost predicate ReaderInv<H, D>(c: Cursor, r: Reader<H, D>, history: seq<Slot<H, D>>, size: nat, idle: bool)
    requires size > 0
  {
    && CursorInv(c, |history|, Position(c, r), size, idle)
    && ReadingInv(c, r, history, size)
    && DeliveredInv(c, r, history)
    && AcquiredInv(c, r)
  }

  ghost predicate Inv<H, D>(s: System<H, D>) {
    && Shaped(s) && WriterInv(s)
    && forall i :: 0 <= i < |s.readers| ==>
         ReaderInv(s.buf.cursors[i], s.readers[i], s.history, |s.buf.data|, s.writer.Idle?)
  }

  lemma InitialInv<H, D>(slots: seq<Slot<H, D>>, readers: nat)
    requires |slots| >= 2
    ensures Inv(Initial(slots, readers))
  {}

  // ---------------------------------------------------------------------------
  // Arithmetic of the ring
  // ---------------------------------------------------------------------------

  lemma NextIsModular(x: nat, size: nat)
    requires size > 0
    ensures Next(x % size, size) == (x + 1) % size
  {
    var q, m := x / size, x % size;
    assert x == q * size + m;
    if m + 1 == size {
      assert x + 1 == (q + 1) * size;
      ModUnique(x + 1, q + 1, 0, size);
    } else {
      ModUnique(x + 1, q, m + 1, size);
    }
  }

  /** Two numbers at most a ring apart share a slot only when they are equal or a full ring apart. */
  lemma SameSlot(x: nat, y: nat, size: nat)
    requires size > 0 && x <= y <= x + size
    ensures x % size == y % size <==> x == y || y == x + size
  {
    var d := y / size - x / size;
    assert y - x == d * size + (y % size - x % size);
    MultipleIsLarge(d, size);
    MultipleIsLarge(d - 1, size);
    assert (d - 1) * size == d * size - size;
    if y == x + size {
      ModUnique(y, x / size + 1, x % size, size);
    }
  }

  // ---------------------------------------------------------------------------
  // Each step keeps the invariant, as long as no read pointer leaves the slots
  // ---------------------------------------------------------------------------

  lemma OvertakenKeeps<H, D>(c: Cursor, r: Reader<H, D>, history: seq<Slot<H, D>>, size: nat, wraps: bool)
    requires size >= 2 && ReaderInv(c, r, history, size, true)
    requires wraps || Overtaken(c, size, wraps).ptr < size
    ensures ReaderInv(Overtaken(c, size, wraps), NoteOverwrite(r, c.full), history, size, false)
  {
    NextIsModular(Position(c, r), size);
  }

  lemma AfterWriteKeeps<H, D>(c: Cursor, r: Reader<H, D>, history: seq<Slot<H, D>>,
                              p: Slot<H, D>, size: nat, writePtr: nat)
    requires size >= 2 && ReaderInv(c, r, history, size, false)
    requires writePtr == (|history| + 1) % size
    ensures ReaderInv(AfterWrite(c, writePtr), r, history + [p], size, true)
  {
    SameSlot(Position(c, r), |history| + 1, size);
  }

  /** While a read is clean its slot is out of the writer's reach and holds the packet it was given. */
  lemma HeldSlotIsSafe<H, D>(data: seq<Slot<H, D>>, c: Cursor, r: Reader<H, D>, history: seq<Slot<H, D>>, idle: bool)
    requires |data| >= 2 && SlotsHold(data, history, idle)
    requires ReaderInv(c, r, history, |data|, idle) && r.reading.Holding? && r.overwritten == r.reading.lost
    ensures r.reading.slot < |data| && data[r.reading.slot] == history[r.reading.at]
    ensures !idle ==> r.reading.slot != |history| % |data|
  {
    SameSlot(r.reading.at, |history|, |data|);
  }

  lemma OneReaderKeeps<H, D>(data: seq<Slot<H, D>>, c: Cursor, r: Reader<H, D>,
                             history: seq<Slot<H, D>>, idle: bool, a: Action<H, D>)
    requires |data| >= 2 && SlotsHold(data, history, idle) && OfReader(a)
    requires ReaderInv(c, r, history, |data|, idle)
    ensures var (c', r') := OneReader(data, |history| % |data|, c, r, a); ReaderInv(c', r', history, |data|, idle)
  {
    match a
    case Poll(_) =>
    case Acquire(_) =>
    case ReadHeader(_) => ReadsKeep(data, c, r, history, idle, a);
    case ReadPayload(_) => ReadsKeep(data, c, r, history, idle, a);
    case Release(_) => ReleaseKeeps(data, c, r, history, idle, a);
    case Abandon(_) =>
  }

  lemma ReadsKeep<H, D>(data: seq<Slot<H, D>>, c: Cursor, r: Reader<H, D>,
                        history: seq<Slot<H, D>>, idle: bool, a: Action<H, D>)
    requires |data| >= 2 && SlotsHold(data, history, idle) && (a.ReadHeader? || a.ReadPayload?)
    requires ReaderInv(c, r, history, |data|, idle)
    ensures var (c', r') := OneReader(data, |history| % |data|, c, r, a); ReaderInv(c', r', history, |data|, idle)
  {
    if r.reading.Holding? && r.overwritten == r.reading.lost {
      HeldSlotIsSafe(data, c, r, history, idle);
    }
  }

  lemma ReleaseKeeps<H, D>(data: seq<Slot<H, D>>, c: Cursor, r: Reader<H, D>,
                           history: seq<Slot<H, D>>, idle: bool, a: Action<H, D>)
    requires |data| >= 2 && SlotsHold(data, history, idle) && a.Release?
    requires ReaderInv(c, r, history, |data|, idle)
    ensures var (c', r') := OneReader(data, |history| % |data|, c, r, a); ReaderInv(c', r', history, |data|, idle)
  {
    if r.reading.Holding? && r.reading.header.Some? && r.reading.payload.Some? {
      ReadCursorKeeps(c, r, |history|, |data|, idle);
      DeliveryKeeps(c, r, history, |data|);
    }
  }

  lemma ReadCursorKeeps<H, D>(c: Cursor, r: Reader<H, D>, w: nat, size: nat, idle: bool)
    requires size >= 2 && CursorInv(c, w, Position(c, r), size, idle) && Position(c, r) < w
    ensures CursorInv(AfterRead(c, w % size, size), w, Position(c, r) + 1, size, idle)
  {
    var p := Position(c, r);
    NextIsModular(p, size);
    SameSlot(p + 1, w, size);
  }

  lemma DeliveryKeeps<H, D>(c: Cursor, r: Reader<H, D>, history: seq<Slot<H, D>>, size: nat)
    requires size > 0 && DeliveredInv(c, r, history) && ReadingInv(c, r, history, size)
    requires r.reading.Holding? && r.reading.header.Some? && r.reading.payload.Some?
    ensures var seen := Delivery(r.reading.at, r.reading.lost == r.overwritten,
                                 Slot(r.reading.header.value, r.reading.payload.value));
            DeliveredInv(c.(readCnt := c.readCnt + 1), r.(delivered := r.delivered + [seen]), history)
  {}

  /** A read pointer leaves the slots when the literal getWritePtr overtakes a full reader on the last one. */
  ghost predicate AllOnSlots<H, D>(s: System<H, D>) {
    forall i :: 0 <= i < |s.buf.cursors| ==> OnSlot(s, i)
  }

  lemma StepKeepsInv<H, D>(s: System<H, D>, a: Action<H, D>, wraps: bool)
    requires Inv(s) && (wraps || AllOnSlots(Step(s, a, wraps)))
    ensures Inv(Step(s, a, wraps))
  {
    match a
    case StartWrite(p) => StartWriteKeepsInv(s, p, wraps);
    case CopyHeader => CopyKeepsInv(s, a, wraps);
    case CopyPayload => CopyKeepsInv(s, a, wraps);
    case FinishWrite => FinishWriteKeepsInv(s, wraps);
    case ClearCounters =>
    case _ => ReaderStepKeepsInv(s, a, wraps);
  }

  lemma StartWriteKeepsInv<H, D>(s: System<H, D>, p: Slot<H, D>, wraps: bool)
    requires Inv(s) && (wraps || AllOnSlots(Step(s, StartWrite(p), wraps)))
    ensures Inv(Step(s, StartWrite(p), wraps))
  {
    var s' := Step(s, StartWrite(p), wraps);
    if s.writer.Idle? {
      forall i | 0 <= i < |s.readers|
        ensures ReaderInv(s'.buf.cursors[i], s'.readers[i], s'.history, |s'.buf.data|, false)
      {
        assert wraps || OnSlot(s', i);
        OvertakenKeeps(s.buf.cursors[i], s.readers[i], s.history, |s.buf.data|, wraps);
      }
    }
  }

  lemma CopyKeepsInv<H, D>(s: System<H, D>, a: Action<H, D>, wraps: bool)
    requires Inv(s) && (a.CopyHeader? || a.CopyPayload?)
    ensures Inv(Step(s, a, wraps))
  {
    var s' := Step(s, a, wraps);
    var w, size := |s.history|, |s.buf.data|;
    forall k | 0 <= k < w && w - size + 1 <= k ensures !s.writer.Idle? ==> s'.buf.data[k % size] == s.history[k] {
      SameSlot(k, w, size);
    }
  }

  lemma FinishWriteKeepsInv<H, D>(s: System<H, D>, wraps: bool)
    requires Inv(s)
    ensures Inv(Step(s, FinishWrite, wraps))
  {
    if s.writer.PayloadIn? {
      var s' := Step(s, FinishWrite, wraps);
      NextIsModular(|s.history|, |s.buf.data|);
      forall i | 0 <= i < |s.readers|
        ensures ReaderInv(s'.buf.cursors[i], s'.readers[i], s'.history, |s'.buf.data|, true)
      {
        AfterWriteKeeps(s.buf.cursors[i], s.readers[i], s.history, s.writer.packet, |s.buf.data|, s'.buf.writePtr);
      }
    }
  }

  lemma ReaderStepKeepsInv<H, D>(s: System<H, D>, a: Action<H, D>, wraps: bool)
    requires Inv(s) && OfReader(a)
    ensures Inv(Step(s, a, wraps))
  {
    if a.i < |s.readers| {
      OneReaderKeeps(s.buf.data, s.buf.cursors[a.i], s.readers[a.i], s.history, s.writer.Idle?, a);
    }
  }

  // ---------------------------------------------------------------------------
  // Whole runs
  // ---------------------------------------------------------------------------

  /** A pointer that has left the slots never comes back. */
  lemma EscapeIsPermanent<H, D>(s: System<H, D>, a: Action<H, D>)
    requires Shaped(s) && !AllOnSlots(s)
    ensures !AllOnSlots(Step(s, a, false))
  {
    var i :| 0 <= i < |s.buf.cursors| && !OnSlot(s, i);
    assert !OnSlot(Step(s, a, false), i);
  }

  lemma {:induction false} EscapedRun<H, D>(s: System<H, D>, actions: seq<Action<H, D>>)
    requires Shaped(s) && !AllOnSlots(s)
    ensures !AllOnSlots(Run(s, actions, false))
    decreases |actions|
  {
    if actions != [] {
      EscapeIsPermanent(s, actions[0]);
      EscapedRun(Step(s, actions[0], false), actions[1..]);
    }
  }

  /**
   * Safety over every interleaving: with the wrapping advance always, and with the code's own advance
   * as long as every read pointer is on a slot at the end, the whole invariant holds.
   */
  lemma {:induction false} RunKeepsInv<H, D>(s: System<H, D>, actions: seq<Action<H, D>>, wraps: bool)
    requires Inv(s) && (wraps || AllOnSlots(Run(s, actions, wraps)))
    ensures Inv(Run(s, actions, wraps))
    decreases |actions|
  {
    if actions != [] {
      var s1 := Step(s, actions[0], wraps);
      if !wraps && !AllOnSlots(s1) {
        EscapedRun(s1, actions[1..]);
      }
      StepKeepsInv(s, actions[0], wraps);
      RunKeepsInv(s1, actions[1..], wraps);
    }
  }

  /** getWritePtr is not called while a full reader's pointer is on the last slot. */
  predicate GuardedStep<H, D>(s: System<H, D>, a: Action<H, D>) {
    a.StartWrite? && s.writer.Idle? ==>
      forall i :: 0 <= i < |s.buf.cursors| && s.buf.cursors[i].full ==> s.buf.cursors[i].ptr != |s.buf.data| - 1
  }

  predicate Guarded<H, D>(s: System<H, D>, actions: seq<Action<H, D>>)
    requires Shaped(s)
    decreases |actions|
  {
    actions != [] ==> GuardedStep(s, actions[0]) && Guarded(Step(s, actions[0], false), actions[1..])
  }

  lemma GuardedStepExact<H, D>(s: System<H, D>, a: Action<H, D>)
    requires Inv(s)
    ensures AllOnSlots(s)
    ensures AllOnSlots(Step(s, a, false)) <==> GuardedStep(s, a)
    ensures GuardedStep(s, a) ==> Step(s, a, false) == Step(s, a, true)
  {
    forall i | 0 <= i < |s.buf.cursors| ensures OnSlot(s, i) {
      assert ReaderInv(s.buf.cursors[i], s.readers[i], s.history, |s.buf.data|, s.writer.Idle?);
    }
    if a.StartWrite? && s.writer.Idle? {
      var s' := Step(s, a, false);
      forall i | 0 <= i < |s.buf.cursors|
        ensures OnSlot(s, i)
        ensures OnSlot(s', i) <==> !(s.buf.cursors[i].full && s.buf.cursors[i].ptr == |s.buf.data| - 1)
      {
        assert OnSlot(s, i);
      }
      if GuardedStep(s, a) {
        assert s'.buf.cursors == Step(s, a, true).buf.cursors;
      }
    } else if OfReader(a) && a.i < |s.readers| {
      StepKeepsInv(s, a, true);
      var s' := Step(s, a, true);
      forall i | 0 <= i < |s'.buf.cursors| ensures OnSlot(s', i) {
        assert ReaderInv(s'.buf.cursors[i], s'.readers[i], s'.history, |s'.buf.data|, s'.writer.Idle?);
      }
    } else {
      StepKeepsInv(s, a, true);
      var s' := Step(s, a, true);
      forall i | 0 <= i < |s'.buf.cursors| ensures OnSlot(s', i) {
        assert ReaderInv(s'.buf.cursors[i], s'.readers[i], s'.history, |s'.buf.data|, s'.writer.Idle?);
      }
    }
  }

  /**
   * The code as written keeps every read pointer on a slot exactly when no getWritePtr of the run
   * meets a full reader on the last slot; and then it does what the wrapping advance does.
   */
  lemma {:induction false} LiteralAdvanceExact<H, D>(s: System<H, D>, actions: seq<Action<H, D>>)
    requires Inv(s)
    ensures AllOnSlots(Run(s, actions, false)) <==> Guarded(s, actions)
    ensures Guarded(s, actions) ==> Run(s, actions, false) == Run(s, actions, true)
    decreases |actions|
  {
    if actions != [] {
      GuardedStepExact(s, actions[0]);
      if GuardedStep(s, actions[0]) {
        StepKeepsInv(s, actions[0], false);
        LiteralAdvanceExact(Step(s, actions[0], false), actions[1..]);
      } else {
        EscapedRun(Step(s, actions[0], false), actions[1..]);
      }
    } else {
      GuardedStepExact(s, ClearCounters);
    }
  }
}
