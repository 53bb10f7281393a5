/** What every interleaving of the writer and the readers guarantees. */
module PipelineLaws {
  import opened Words
  import opened DataBuffers
  import opened Pipeline

  /**
   * A reachable state: buffers of two or more slots, any number of readers, any interleaving.  With
   * the code's own advance (wraps false) no getWritePtr may meet a full reader on the last slot.
   */
  ghost predicate Reaches<H, D>(slots: seq<Slot<H, D>>, readers: nat,
                                actions: seq<Action<H, D>>, wraps: bool, s: System<H, D>)
  {
    && |slots| >= 2
    && (wraps || Guarded(Initial(slots, readers), actions))
    && s == Run(Initial(slots, readers), actions, wraps)
  }

  lemma ReachableInv<H, D>(slots: seq<Slot<H, D>>, readers: nat,
                           actions: seq<Action<H, D>>, wraps: bool, s: System<H, D>)
    requires Reaches(slots, readers, actions, wraps, s)
    ensures Inv(s) && |s.readers| == readers && |s.buf.data| == |slots|
  {
    InitialInv(slots, readers);
    LiteralAdvanceExact(Initial(slots, readers), actions);
    RunKeepsInv(Initial(slots, readers), actions, wraps);
  }

  // ---------------------------------------------------------------------------
  // A bounded queue that drops its oldest entry
  // ---------------------------------------------------------------------------

  /** Written and not yet passed by reader i. */
  function Pending<H, D>(s: System<H, D>, i: nat): seq<Slot<H, D>>
    requires i < |s.readers| == |s.buf.cursors|
    requires Position(s.buf.cursors[i], s.readers[i]) <= |s.history|
  {
    s.history[Position(s.buf.cursors[i], s.readers[i])..]
  }

  lemma ReaderFacts<H, D>(s: System<H, D>, i: nat)
    requires Inv(s) && i < |s.readers|
    ensures ReaderInv(s.buf.cursors[i], s.readers[i], s.history, |s.buf.data|, s.writer.Idle?)
    ensures Position(s.buf.cursors[i], s.readers[i]) <= |s.history|
  {}

  /** The flags and the pointer distance say how much is pending. */
  lemma FlagsDescribeQueue<H, D>(s: System<H, D>, i: nat)
    requires Inv(s) && i < |s.readers|
    ensures Position(s.buf.cursors[i], s.readers[i]) <= |s.history|
    ensures var c, q := s.buf.cursors[i], Pending(s, i);
            && |q| <= |s.buf.data|
            && (c.empty <==> q == [])
            && (s.writer.Idle? ==> (c.full <==> |q| == |s.buf.data|))
            && (!s.writer.Idle? ==> |q| < |s.buf.data| && (c.full ==> |q| == |s.buf.data| - 1))
            && |q| == Distance(s.buf.writePtr, c, |s.buf.data|)
  {
    ReaderFacts(s, i);
    PointersApart(Position(s.buf.cursors[i], s.readers[i]), |s.history|, |s.buf.data|);
  }

  /** Slots from the read pointer up to the write pointer, going around; equal pointers mean none or all. */
  function Distance(writePtr: nat, c: Cursor, size: nat): int {
    if c.empty then 0
    else if writePtr > c.ptr then writePtr - c.ptr
    else writePtr - c.ptr + size
  }

  lemma PointersApart(p: nat, w: nat, size: nat)
    requires size > 0 && p <= w <= p + size
    ensures p < w ==> w - p == if w % size > p % size then w % size - p % size else w % size - p % size + size
  {
    var d := w / size - p / size;
    assert w - p == d * size + (w % size - p % size);
    MultipleIsLarge(d, size);
    MultipleIsLarge(d - 1, size);
    MultipleIsLarge(d - 2, size);
    assert (d - 1) * size == d * size - size && (d - 2) * size == d * size - 2 * size;
  }

  /**
   * Each step does to the pending packets what a queue of |data| places that drops its oldest does.
   * A finished read removes the oldest, which is the packet it read only if nothing was overwritten
   * meanwhile (ReadPacketIsOldest).
   */
  lemma StepRefinesQueue<H, D>(s: System<H, D>, a: Action<H, D>, i: nat, wraps: bool)
    requires Inv(s) && (wraps || AllOnSlots(Step(s, a, wraps))) && i < |s.readers|
    ensures Position(s.buf.cursors[i], s.readers[i]) <= |s.history|
    ensures var s' := Step(s, a, wraps);
            Position(s'.buf.cursors[i], s'.readers[i]) <= |s'.history|
    ensures var s' := Step(s, a, wraps);
            var q := Pending(s, i);
            Pending(s', i) ==
            if a.StartWrite? && s.writer.Idle? && |q| == |s.buf.data| then q[1..]
            else if a.FinishWrite? && s.writer.PayloadIn? then q + [s.writer.packet]
            else if a == Release(i) && BothRead(s.readers[i].reading) then q[1..]
            else q
  {
    StepKeepsInv(s, a, wraps);
    PositionMoves(s, a, i, wraps);
    QueueMoves(s, Step(s, a, wraps), a, i);
  }

  /** The queue, from how the position and the history moved. */
  lemma QueueMoves<H, D>(s: System<H, D>, s': System<H, D>, a: Action<H, D>, i: nat)
    requires Inv(s) && Inv(s') && i < |s.readers| == |s'.readers| && Moved(s, s', a, i)
    ensures Position(s.buf.cursors[i], s.readers[i]) <= |s.history|
    ensures Position(s'.buf.cursors[i], s'.readers[i]) <= |s'.history|
    ensures var q := Pending(s, i);
            Pending(s', i) ==
            if a.StartWrite? && s.writer.Idle? && |q| == |s.buf.data| then q[1..]
            else if a.FinishWrite? && s.writer.PayloadIn? then q + [s.writer.packet]
            else if a == Release(i) && BothRead(s.readers[i].reading) then q[1..]
            else q
  {
    ReaderFacts(s, i);
    ReaderFacts(s', i);
    var p, p' := Position(s.buf.cursors[i], s.readers[i]), Position(s'.buf.cursors[i], s'.readers[i]);
    if p' == p + 1 {
      assert s.history[p'..] == s.history[p..][1..];
    } else if s'.history != s.history {
      assert s'.history[p..] == s.history[p..] + [s.writer.packet];
    }
  }

  /** A read that only waits for doneReading. */
  predicate BothRead<H, D>(r: Reading<H, D>) {
    r.Holding? && r.header.Some? && r.payload.Some?
  }

  function Seen<H, D>(r: Reading<H, D>): Slot<H, D>
    requires BothRead(r)
  {
    Slot(r.header.value, r.payload.value)
  }

  /** How reader i's position and the history move with an action. */
  ghost predicate Moved<H, D>(s: System<H, D>, s': System<H, D>, a: Action<H, D>, i: nat)
    requires i < |s.readers| == |s.buf.cursors| && i < |s'.readers| == |s'.buf.cursors|
  {
    var (c, c') := (s.buf.cursors[i], s'.buf.cursors[i]);
    && s'.history == (if a.FinishWrite? && s.writer.PayloadIn? then s.history + [s.writer.packet] else s.history)
    && c'.readCnt == c.readCnt + (if a == Release(i) && BothRead(s.readers[i].reading) then 1 else 0)
    && s'.readers[i].overwritten ==
       s.readers[i].overwritten + (if a.StartWrite? && s.writer.Idle? && c.full then 1 else 0)
  }

  lemma PositionMoves<H, D>(s: System<H, D>, a: Action<H, D>, i: nat, wraps: bool)
    requires Shaped(s) && i < |s.readers|
    ensures Moved(s, Step(s, a, wraps), a, i)
  {}

  /**
   * Writes = reads + overwrites + what the pointers say is pending, for every reader at every step.
   * The overwrites are those of the code's own counter as long as clearCnts is not called.
   */
  lemma Conservation<H, D>(slots: seq<Slot<H, D>>, readers: nat, actions: seq<Action<H, D>>, wraps: bool,
                           s: System<H, D>, i: nat)
    requires Reaches(slots, readers, actions, wraps, s) && i < readers
    ensures i < |s.buf.cursors| == |s.readers|
    ensures var c := s.buf.cursors[i];
            var pending := Distance(s.buf.writePtr, c, |slots|);
            && s.buf.writeCnt == c.readCnt + s.readers[i].overwritten + pending
            && (ClearCounters !in actions ==> s.buf.writeCnt == c.readCnt + c.owCnt + pending)
  {
    ReachableInv(slots, readers, actions, wraps, s);
    FlagsDescribeQueue(s, i);
    if ClearCounters !in actions {
      CountersCountOverwrites(Initial(slots, readers), actions, i, wraps);
    }
  }

  /** OWCnt moves with the overwrites until it is cleared. */
  lemma {:induction false} CountersCountOverwrites<H, D>(s: System<H, D>, actions: seq<Action<H, D>>,
                                                         i: nat, wraps: bool)
    requires Shaped(s) && i < |s.readers| && ClearCounters !in actions
    requires s.buf.cursors[i].owCnt == s.readers[i].overwritten
    ensures var s' := Run(s, actions, wraps);
            s'.buf.cursors[i].owCnt == s'.readers[i].overwritten
    decreases |actions|
  {
    if actions != [] {
      StepCountsOverwrites(s, actions[0], i, wraps);
      CountersCountOverwrites(Step(s, actions[0], wraps), actions[1..], i, wraps);
    }
  }

  lemma StepCountsOverwrites<H, D>(s: System<H, D>, a: Action<H, D>, i: nat, wraps: bool)
    requires Shaped(s) && i < |s.readers| && s.buf.cursors[i].owCnt == s.readers[i].overwritten
    ensures var s' := Step(s, a, wraps);
            a != ClearCounters ==> s'.buf.cursors[i].owCnt == s'.readers[i].overwritten
  {}

  // ---------------------------------------------------------------------------
  // Reads
  // ---------------------------------------------------------------------------

  /**
   * Overwrite-safe reads: as long as reader i's overwrite total is what it was at getReadPtr, the
   * slot it holds has the intended packet, whole, and is not the one being written.
   */
  lemma HeldPacketIsIntact<H, D>(slots: seq<Slot<H, D>>, readers: nat, actions: seq<Action<H, D>>, wraps: bool,
                                 s: System<H, D>, i: nat)
    requires Reaches(slots, readers, actions, wraps, s) && i < readers == |s.readers|
    requires s.readers[i].reading.Holding? && s.readers[i].overwritten == s.readers[i].reading.lost
    ensures var h := s.readers[i].reading;
            && h.slot < |s.buf.data| && h.at < |s.history|
            && s.buf.data[h.slot] == s.history[h.at]
            && (!s.writer.Idle? ==> s.buf.writePtr != h.slot)
  {
    ReachableInv(slots, readers, actions, wraps, s);
    ReaderFacts(s, i);
    HeldSlotIsSafe(s.buf.data, s.buf.cursors[i], s.readers[i], s.history, s.writer.Idle?);
  }

  /**
   * A packet read whole was given the number of the oldest pending one, the one doneReading removes,
   * exactly when no overwrite came since getReadPtr; and then it is that packet.
   */
  lemma ReadPacketIsOldest<H, D>(slots: seq<Slot<H, D>>, readers: nat, actions: seq<Action<H, D>>, wraps: bool,
                                 s: System<H, D>, i: nat)
    requires Reaches(slots, readers, actions, wraps, s) && i < readers == |s.readers| == |s.buf.cursors|
    requires BothRead(s.readers[i].reading)
    ensures Position(s.buf.cursors[i], s.readers[i]) < |s.history|
    ensures var r := s.readers[i];
            && (r.reading.at == Position(s.buf.cursors[i], r) <==> r.overwritten == r.reading.lost)
            && (r.overwritten == r.reading.lost ==> Seen(r.reading) == Pending(s, i)[0])
  {
    ReachableInv(slots, readers, actions, wraps, s);
    ReaderFacts(s, i);
  }

  /** And it is lost exactly when it should be: the next write takes the held slot iff it counts an overwrite. */
  lemma OverwriteTakesHeldSlot<H, D>(slots: seq<Slot<H, D>>, readers: nat, actions: seq<Action<H, D>>,
                                     wraps: bool, s: System<H, D>, i: nat, p: Slot<H, D>)
    requires Reaches(slots, readers, actions, wraps, s) && i < readers == |s.readers| && s.writer.Idle?
    requires s.readers[i].reading.Holding? && s.readers[i].overwritten == s.readers[i].reading.lost
    ensures s.buf.writePtr == s.readers[i].reading.slot <==>
            Step(s, StartWrite(p), wraps).readers[i].overwritten == s.readers[i].overwritten + 1
  {
    ReachableInv(slots, readers, actions, wraps, s);
    ReaderFacts(s, i);
    SameSlot(s.readers[i].reading.at, |s.history|, |s.buf.data|);
  }

  /**
   * Delivery: finished reads carry strictly increasing write numbers, and getReadPtr results
   * non-decreasing ones even when a read is abandoned; a read without an overwrite saw the packet
   * written; and a reader that polls first never underflows.
   */
  lemma DeliveryInOrder<H, D>(slots: seq<Slot<H, D>>, readers: nat, actions: seq<Action<H, D>>, wraps: bool,
                              s: System<H, D>, i: nat)
    requires Reaches(slots, readers, actions, wraps, s) && i < readers == |s.readers| == |s.buf.cursors|
    ensures var d, acq := s.readers[i].delivered, s.readers[i].acquired;
            && |d| == s.buf.cursors[i].readCnt
            && (forall j, k :: 0 <= j < k < |d| ==> d[j].at < d[k].at)
            && (forall k :: 0 <= k < |d| ==> d[k].at < |s.history|)
            && (forall k :: 0 <= k < |d| && d[k].clean ==> d[k].packet == s.history[d[k].at])
            && (forall j, k :: 0 <= j <= k < |acq| ==> acq[j] <= acq[k])
            && s.buf.cursors[i].rofCnt == 0
  {
    ReachableInv(slots, readers, actions, wraps, s);
    ReaderFacts(s, i);
  }

  function Packets<H, D>(d: seq<Delivery<H, D>>): (r: seq<Slot<H, D>>)
    ensures |r| == |d|
  {
    seq(|d|, k requires 0 <= k < |d| => d[k].packet)
  }

  /** A reader that was never overwritten has received exactly a prefix of what was written. */
  lemma NeverOverwrittenGetsPrefix<H, D>(slots: seq<Slot<H, D>>, readers: nat, actions: seq<Action<H, D>>,
                                         wraps: bool, s: System<H, D>, i: nat)
    requires Reaches(slots, readers, actions, wraps, s) && i < readers == |s.readers| == |s.buf.cursors|
    requires s.readers[i].overwritten == 0
    ensures s.buf.cursors[i].readCnt <= |s.history|
    ensures Packets(s.readers[i].delivered) == s.history[..s.buf.cursors[i].readCnt]
    ensures Packets(s.readers[i].delivered) + Pending(s, i) == s.history
  {
    ReachableInv(slots, readers, actions, wraps, s);
    ReaderFacts(s, i);
  }

  // ---------------------------------------------------------------------------
  // A writer that works through a given list of packets
  // ---------------------------------------------------------------------------

  /** The writer thread puts the packets in the buffer, in order. */
  ghost predicate Feeds<H, D>(s: System<H, D>, actions: seq<Action<H, D>>, packets: seq<Slot<H, D>>, wraps: bool)
    requires Shaped(s)
    decreases |actions|
  {
    actions != [] ==>
      && (actions[0].StartWrite? && s.writer.Idle? ==>
            |s.history| < |packets| && actions[0].packet == packets[|s.history|])
      && Feeds(Step(s, actions[0], wraps), actions[1..], packets, wraps)
  }

  ghost predicate WrittenSoFar<H, D>(s: System<H, D>, packets: seq<Slot<H, D>>) {
    && s.history <= packets
    && (!s.writer.Idle? ==> |s.history| < |packets| && s.writer.packet == packets[|s.history|])
  }

  lemma {:induction false} FedHistory<H, D>(s: System<H, D>, actions: seq<Action<H, D>>,
                                            packets: seq<Slot<H, D>>, wraps: bool)
    requires Shaped(s) && Feeds(s, actions, packets, wraps) && WrittenSoFar(s, packets)
    ensures WrittenSoFar(Run(s, actions, wraps), packets)
    decreases |actions|
  {
    if actions != [] {
      StepWrites(s, actions[0], packets, wraps);
      FedHistory(Step(s, actions[0], wraps), actions[1..], packets, wraps);
    }
  }

  lemma StepWrites<H, D>(s: System<H, D>, a: Action<H, D>, packets: seq<Slot<H, D>>, wraps: bool)
    requires Shaped(s) && WrittenSoFar(s, packets)
    requires a.StartWrite? && s.writer.Idle? ==> |s.history| < |packets| && a.packet == packets[|s.history|]
    ensures WrittenSoFar(Step(s, a, wraps), packets)
  {}

  // ---------------------------------------------------------------------------
  // Readers do not influence each other
  // ---------------------------------------------------------------------------

  /** Everything reader i can see or have. */
  datatype View<H, D> = View(data: seq<Slot<H, D>>, writePtr: nat, writeCnt: nat, writer: Writer<H, D>,
                             history: seq<Slot<H, D>>, cursor: Cursor, reader: Reader<H, D>)

  function ViewOf<H, D>(s: System<H, D>, i: nat): View<H, D>
    requires i < |s.readers| == |s.buf.cursors|
  {
    View(s.buf.data, s.buf.writePtr, s.buf.writeCnt, s.writer, s.history, s.buf.cursors[i], s.readers[i])
  }

  /** The actions of the writer and of reader i. */
  function Relevant<H, D>(actions: seq<Action<H, D>>, i: nat): seq<Action<H, D>> {
    if actions == [] then []
    else (if OfReader(actions[0]) && actions[0].i != i then [] else [actions[0]]) + Relevant(actions[1..], i)
  }

  lemma StepOnView<H, D>(s: System<H, D>, t: System<H, D>, a: Action<H, D>, i: nat, wraps: bool)
    requires Shaped(s) && Shaped(t) && i < |s.readers| && i < |t.readers|
    requires ViewOf(s, i) == ViewOf(t, i) && (OfReader(a) ==> a.i == i)
    ensures ViewOf(Step(s, a, wraps), i) == ViewOf(Step(t, a, wraps), i)
  {}

  lemma OtherReadersStep<H, D>(s: System<H, D>, a: Action<H, D>, i: nat, wraps: bool)
    requires Shaped(s) && i < |s.readers| && OfReader(a) && a.i != i
    ensures ViewOf(Step(s, a, wraps), i) == ViewOf(s, i)
  {}

  lemma {:induction false} RunOnView<H, D>(s: System<H, D>, t: System<H, D>,
                                           actions: seq<Action<H, D>>, i: nat, wraps: bool)
    requires Shaped(s) && Shaped(t) && i < |s.readers| && i < |t.readers|
    requires ViewOf(s, i) == ViewOf(t, i)
    ensures ViewOf(Run(s, actions, wraps), i) == ViewOf(Run(t, Relevant(actions, i), wraps), i)
    decreases |actions|
  {
    if actions != [] {
      var a := actions[0];
      if OfReader(a) && a.i != i {
        OtherReadersStep(s, a, i, wraps);
        assert Relevant(actions, i) == Relevant(actions[1..], i);
        RunOnView(Step(s, a, wraps), t, actions[1..], i, wraps);
      } else {
        StepOnView(s, t, a, i, wraps);
        RunOnView(Step(s, a, wraps), Step(t, a, wraps), actions[1..], i, wraps);
        assert Relevant(actions, i) == [a] + Relevant(actions[1..], i);
        assert Relevant(actions, i)[1..] == Relevant(actions[1..], i);
      }
    }
  }

  /**
   * Independence: two runs with the same writer steps and the same steps of reader i, whatever the
   * other readers do and however many there are, leave reader i with the same pointer, flags,
   * counters, reads and packets.
   */
  lemma ReadersIndependent<H, D>(slots: seq<Slot<H, D>>, n: nat, m: nat, actions1: seq<Action<H, D>>,
                                 actions2: seq<Action<H, D>>, i: nat, wraps: bool)
    requires |slots| > 0 && i < n && i < m && Relevant(actions1, i) == Relevant(actions2, i)
    ensures var s1, s2 := Run(Initial(slots, n), actions1, wraps), Run(Initial(slots, m), actions2, wraps);
            ViewOf(s1, i) == ViewOf(s2, i)
  {
    var s, t := Initial(slots, n), Initial(slots, m);
    RunOnView(s, s, actions1, i, wraps);
    RunOnView(s, t, actions1, i, wraps);
    RunOnView(t, t, actions2, i, wraps);
  }

  // ---------------------------------------------------------------------------
  // Where the code departs from its intent
  // ---------------------------------------------------------------------------

  /** One packet written with no reader step in between. */
  function OneWrite<H, D>(p: Slot<H, D>): seq<Action<H, D>> {
    [StartWrite(p), CopyHeader, CopyPayload, FinishWrite]
  }

  function Writes<H, D>(p: Slot<H, D>, n: nat): seq<Action<H, D>> {
    if n == 0 then [] else Writes(p, n - 1) + OneWrite(p)
  }

  lemma {:induction false} RunOn<H, D>(s: System<H, D>, xs: seq<Action<H, D>>, ys: seq<Action<H, D>>, wraps: bool)
    requires Shaped(s)
    ensures Run(s, xs + ys, wraps) == Run(Run(s, xs, wraps), ys, wraps)
    decreases |xs|
  {
    if xs == [] {
      assert xs + ys == ys;
    } else {
      assert (xs + ys)[0] == xs[0] && (xs + ys)[1..] == xs[1..] + ys;
      RunOn(Step(s, xs[0], wraps), xs[1..], ys, wraps);
    }
  }

  /** One write by the code as it is, when no full reader's pointer is on the last slot. */
  lemma WriteOnce<H, D>(s: System<H, D>, p: Slot<H, D>)
    requires Inv(s) && s.writer.Idle? && |s.readers| > 0 && GuardedStep(s, StartWrite(p))
    ensures var s' := Run(s, OneWrite(p), false);
            && Inv(s') && s'.writer.Idle? && |s'.history| == |s.history| + 1
            && s'.buf.cursors[0].readCnt == s.buf.cursors[0].readCnt
            && s'.readers[0].overwritten == s.readers[0].overwritten + (if s.buf.cursors[0].full then 1 else 0)
  {
    var s1 := Step(s, StartWrite(p), false);
    var s2 := Step(s1, CopyHeader, false);
    var s3 := Step(s2, CopyPayload, false);
    GuardedStepExact(s, StartWrite(p));
    StepKeepsInv(s, StartWrite(p), false);
    CopyKeepsInv(s1, CopyHeader, false);
    CopyKeepsInv(s2, CopyPayload, false);
    FinishWriteKeepsInv(s3, false);
    RunFour(s, StartWrite(p), CopyHeader, CopyPayload, FinishWrite, false);
  }

  lemma RunFour<H, D>(s: System<H, D>, a: Action<H, D>, b: Action<H, D>, c: Action<H, D>, d: Action<H, D>, wraps: bool)
    requires Shaped(s)
    ensures Run(s, [a, b, c, d], wraps) == Step(Step(Step(Step(s, a, wraps), b, wraps), c, wraps), d, wraps)
  {
    var s1 := Step(s, a, wraps);
    var s2 := Step(s1, b, wraps);
    var s3 := Step(s2, c, wraps);
    assert [a, b, c, d][1..] == [b, c, d] && [b, c, d][1..] == [c, d] && [c, d][1..] == [d];
    assert Run(s, [a, b, c, d], wraps) == Run(s1, [b, c, d], wraps);
    assert Run(s1, [b, c, d], wraps) == Run(s2, [c, d], wraps);
    assert Run(s2, [c, d], wraps) == Run(s3, [d], wraps);
    RunOne(s3, d, wraps);
  }

  lemma RunOne<H, D>(s: System<H, D>, a: Action<H, D>, wraps: bool)
    requires Shaped(s)
    ensures Run(s, [a], wraps) == Step(s, a, wraps)
  {
    assert Run(Step(s, a, wraps), [], wraps) == Step(s, a, wraps);
  }

  /**
   * The code's own run of n writes past a reader that never runs: up to 2 * |slots| - 1 writes the
   * pointer stays on the slots, full from |slots| writes on and moved on once by every further one.
   */
  lemma {:induction false} StalledReader<H, D>(slots: seq<Slot<H, D>>, p: Slot<H, D>, n: nat)
    requires |slots| >= 2 && n < 2 * |slots|
    ensures var s := Run(Initial(slots, 1), Writes(p, n), false);
            && Inv(s) && s.writer.Idle? && |s.history| == n && |s.readers| == 1 && |s.buf.data| == |slots|
            && s.buf.cursors[0].readCnt == 0
            && s.readers[0].overwritten == if n <= |slots| then 0 else n - |slots|
  {
    if n == 0 {
      InitialInv(slots, 1);
    } else {
      StalledReader(slots, p, n - 1);
      var s := Run(Initial(slots, 1), Writes(p, n - 1), false);
      StalledPointer(s);
      WriteOnce(s, p);
      RunOn(Initial(slots, 1), Writes(p, n - 1), OneWrite(p), false);
    }
  }

  /** Where the pointer of a reader that never ran is. */
  lemma StalledPointer<H, D>(s: System<H, D>)
    requires Inv(s) && s.writer.Idle? && |s.readers| == 1
    requires s.buf.cursors[0].readCnt == 0 && s.readers[0].overwritten < |s.buf.data|
    ensures s.buf.cursors[0].full <==> |s.history| - s.readers[0].overwritten == |s.buf.data|
    ensures s.buf.cursors[0].ptr == s.readers[0].overwritten
  {
    ReaderFacts(s, 0);
    ModUnique(s.readers[0].overwritten, 0, s.readers[0].overwritten, |s.buf.data|);
  }

  /**
   * The missing wrap matters: in the code's own run with a reader that stalls, every read pointer is
   * on a slot after 2 * |slots| - 1 writes, and the getWritePtr of the next moves it past the end.
   */
  lemma StalledReaderEscapes<H, D>(slots: seq<Slot<H, D>>, p: Slot<H, D>)
    requires |slots| >= 2
    ensures var writes := Writes(p, 2 * |slots| - 1);
            && AllOnSlots(Run(Initial(slots, 1), writes, false))
            && !AllOnSlots(Run(Initial(slots, 1), writes + [StartWrite(p)], false))
  {
    var writes := Writes(p, 2 * |slots| - 1);
    var s := Run(Initial(slots, 1), writes, false);
    StalledReader(slots, p, 2 * |slots| - 1);
    StalledPointer(s);
    GuardedStepExact(s, StartWrite(p));
    RunOn(Initial(slots, 1), writes, [StartWrite(p)], false);
    RunOne(s, StartWrite(p), false);
  }

  /** empty[i] says that nothing is pending. */
  ghost predicate EmptyFlagRight<H, D>(s: System<H, D>) {
    && |s.readers| == |s.buf.cursors|
    && forall i :: 0 <= i < |s.readers| ==>
         (s.buf.cursors[i].empty <==> Position(s.buf.cursors[i], s.readers[i]) == |s.history|)
  }

  /** Even with the wrap in place the empty flag can be trusted on every run only from two slots on. */
  lemma EmptyFlagNeedsTwoSlots<H, D>(slots: seq<Slot<H, D>>, p: Slot<H, D>)
    requires |slots| > 0
    ensures (forall actions :: EmptyFlagRight(Run(Initial(slots, 1), actions, true))) <==> |slots| >= 2
  {
    if |slots| >= 2 {
      forall actions: seq<Action<H, D>> ensures EmptyFlagRight(Run(Initial(slots, 1), actions, true)) {
        var s := Run(Initial(slots, 1), actions, true);
        ReachableInv(slots, 1, actions, true, s);
        forall i | 0 <= i < |s.readers|
          ensures s.buf.cursors[i].empty <==> Position(s.buf.cursors[i], s.readers[i]) == |s.history|
        {
          ReaderFacts(s, i);
        }
      }
    } else {
      OneSlotBreaks(slots, p);
    }
  }

  lemma OneSlotBreaks<H, D>(slots: seq<Slot<H, D>>, p: Slot<H, D>)
    requires |slots| == 1
    ensures !EmptyFlagRight(Run(Initial(slots, 1), OneWrite(p) + [StartWrite(p)], true))
  {
    var s0 := Initial(slots, 1);
    var s1 := Step(s0, StartWrite(p), true);
    var s2 := Step(s1, CopyHeader, true);
    var s3 := Step(s2, CopyPayload, true);
    var s4 := Step(s3, FinishWrite, true);
    var s5 := Step(s4, StartWrite(p), true);
    assert s4.buf.cursors[0] == Cursor(0, true, false, 0, 0, 0);
    assert s5.buf.cursors[0] == Cursor(0, true, false, 0, 1, 0) && s5.readers[0].overwritten == 1;
    assert !EmptyFlagRight(s5);
    RunFour(s0, StartWrite(p), CopyHeader, CopyPayload, FinishWrite, true);
    RunOn(s0, OneWrite(p), [StartWrite(p)], true);
    RunOne(s4, StartWrite(p), true);
  }
}
