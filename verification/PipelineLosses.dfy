/** Packets a reader passes without reading them, and the overwrites counted. */
module PipelineLosses {
  import opened Wrappers
  import opened DataBuffers
  import opened Pipeline
  import opened PipelineLaws

  /** Write numbers of the reads that saw the packet they were given. */
  function CleanReads<H, D>(d: seq<Delivery<H, D>>): set<nat> {
    set k | 0 <= k < |d| && d[k].clean :: d[k].at
  }

  function UncleanCount<H, D>(d: seq<Delivery<H, D>>): nat {
    if d == [] then 0 else UncleanCount(d[..|d| - 1]) + (if d[|d| - 1].clean then 0 else 1)
  }

  predicate AllClean<H, D>(d: seq<Delivery<H, D>>) {
    forall k :: 0 <= k < |d| ==> d[k].clean
  }

  function Below(n: nat): (r: set<nat>)
    ensures forall k: nat :: k in r <==> k < n
  {
    if n == 0 then {} else Below(n - 1) + {n - 1}
  }

  /** Packets that reader i has passed without a clean read of them. */
  function LostPackets<H, D>(s: System<H, D>, i: nat): set<nat>
    requires i < |s.readers| == |s.buf.cursors|
  {
    Below(Position(s.buf.cursors[i], s.readers[i])) - CleanReads(s.readers[i].delivered)
  }

  lemma {:induction false} BelowSize(n: nat)
    ensures |Below(n)| == n
  {
    if n > 0 {
      BelowSize(n - 1);
    }
  }

  ghost predicate Increasing<H, D>(d: seq<Delivery<H, D>>) {
    forall j, k :: 0 <= j < k < |d| ==> d[j].at < d[k].at
  }

  lemma {:induction false} CleanReadsSize<H, D>(d: seq<Delivery<H, D>>)
    requires Increasing(d)
    ensures |CleanReads(d)| == |d| - UncleanCount(d)
  {
    if d != [] {
      var front, last := d[..|d| - 1], d[|d| - 1];
      CleanReadsSize(front);
      CleanReadsGrow(d);
    }
  }

  lemma CleanReadsGrow<H, D>(d: seq<Delivery<H, D>>)
    requires d != [] && Increasing(d)
    ensures var front, last := d[..|d| - 1], d[|d| - 1];
            && Increasing(front) && last.at !in CleanReads(front)
            && CleanReads(d) == if last.clean then CleanReads(front) + {last.at} else CleanReads(front)
  {
    var front, last := d[..|d| - 1], d[|d| - 1];
    var more := if last.clean then CleanReads(front) + {last.at} else CleanReads(front);
    forall x ensures x in CleanReads(d) <==> x in more {
      if x in CleanReads(front) {
        var k :| 0 <= k < |front| && front[k].clean && front[k].at == x;
        assert d[k] == front[k];
      }
      if x in CleanReads(d) {
        var k :| 0 <= k < |d| && d[k].clean && d[k].at == x;
        assert k < |front| ==> front[k] == d[k];
      }
    }
  }

  lemma {:induction false} UncleanZero<H, D>(d: seq<Delivery<H, D>>)
    ensures UncleanCount(d) == 0 <==> AllClean(d)
  {
    if d != [] {
      UncleanZero(d[..|d| - 1]);
    }
  }

  lemma SetDifferenceSize<T>(a: set<T>, b: set<T>)
    requires b <= a
    ensures |a - b| == |a| - |b|
  {
    assert a == (a - b) + b;
  }

  /**
   * The law of losses, over every interleaving: the packets a reader has passed without reading them
   * are as many as its overwrites and its unclean reads together.  So the overwrite count is the
   * number of packets lost exactly when every finished read was clean.
   */
  lemma LossLaw<H, D>(slots: seq<Slot<H, D>>, readers: nat, actions: seq<Action<H, D>>, wraps: bool,
                      s: System<H, D>, i: nat)
    requires Reaches(slots, readers, actions, wraps, s) && i < readers == |s.readers| == |s.buf.cursors|
    ensures var d, lost := s.readers[i].delivered, |LostPackets(s, i)|;
            && lost == s.readers[i].overwritten + UncleanCount(d)
            && (lost == s.readers[i].overwritten <==> AllClean(d))
            && (ClearCounters !in actions ==> (lost == s.buf.cursors[i].owCnt <==> AllClean(d)))
  {
    ReachableInv(slots, readers, actions, wraps, s);
    ReaderFacts(s, i);
    PassedSize(s.buf.cursors[i], s.readers[i], s.history);
    UncleanZero(s.readers[i].delivered);
    if ClearCounters !in actions {
      CountersCountOverwrites(Initial(slots, readers), actions, i, wraps);
    }
  }

  lemma PassedSize<H, D>(c: Cursor, r: Reader<H, D>, history: seq<Slot<H, D>>)
    requires DeliveredInv(c, r, history)
    ensures |Below(Position(c, r)) - CleanReads(r.delivered)| == r.overwritten + UncleanCount(r.delivered)
  {
    BelowSize(Position(c, r));
    CleanReadsSize(r.delivered);
    SetDifferenceSize(Below(Position(c, r)), CleanReads(r.delivered));
  }

  // ---------------------------------------------------------------------------
  // A run that loses a packet without counting it
  // ---------------------------------------------------------------------------

  /** Two packets are written, the first is taken and overwritten by a third while it is being read. */
  function OvertakenRead<H, D>(p0: Slot<H, D>, p1: Slot<H, D>, p2: Slot<H, D>): seq<Action<H, D>> {
    OneWrite(p0)
    + (OneWrite(p1) + ([Poll(0), Acquire(0)] + (OneWrite(p2) + [ReadHeader(0), ReadPayload(0), Release(0)])))
  }

  /** What one write does to a two-slot buffer with one reader. */
  function Written<H, D>(s: System<H, D>, p: Slot<H, D>): System<H, D>
    requires |s.readers| == |s.buf.cursors| == 1 && |s.buf.data| == 2 && s.buf.writePtr < 2
  {
    var w := 1 - s.buf.writePtr;
    System(Buffer(s.buf.data[s.buf.writePtr := p], w, s.buf.writeCnt + 1,
                  [AfterWrite(Overtaken(s.buf.cursors[0], 2, false), w)]),
           Idle, [NoteOverwrite(s.readers[0], s.buf.cursors[0].full)], s.history + [p])
  }

  lemma OneWriteIs<H, D>(s: System<H, D>, p: Slot<H, D>)
    requires Shaped(s) && |s.readers| == 1 && |s.buf.data| == 2 && s.writer.Idle?
    ensures Run(s, OneWrite(p), false) == Written(s, p)
  {
    var s1 := Step(s, StartWrite(p), false);
    var s2 := Step(s1, CopyHeader, false);
    var s3 := Step(s2, CopyPayload, false);
    assert s3.buf.data == s.buf.data[s.buf.writePtr := p];
    assert Step(s3, FinishWrite, false).buf.cursors == Written(s, p).buf.cursors;
    RunFour(s, StartWrite(p), CopyHeader, CopyPayload, FinishWrite, false);
  }

  lemma RunTwo<H, D>(s: System<H, D>, a: Action<H, D>, b: Action<H, D>)
    requires Shaped(s)
    ensures Run(s, [a, b], false) == Step(Step(s, a, false), b, false)
  {
    assert [a, b][1..] == [b];
    RunOne(Step(s, a, false), b, false);
  }

  lemma RunThree<H, D>(s: System<H, D>, a: Action<H, D>, b: Action<H, D>, c: Action<H, D>)
    requires Shaped(s)
    ensures Run(s, [a, b, c], false) == Step(Step(Step(s, a, false), b, false), c, false)
  {
    assert [a, b, c][1..] == [b, c];
    RunTwo(Step(s, a, false), b, c);
  }

  // The states of that run: both packets written, the first one taken, the third written over it, the read finished.

  function BothWritten<H, D>(p0: Slot<H, D>, p1: Slot<H, D>): System<H, D> {
    System(Buffer([p0, p1], 0, 2, [Cursor(0, true, false, 0, 0, 0)]), Idle, [Reader(Waiting, 0, [], [])], [p0, p1])
  }

  function FirstTaken<H, D>(p0: Slot<H, D>, p1: Slot<H, D>): System<H, D> {
    BothWritten(p0, p1).(readers := [Reader(Holding(0, 0, 0, None, None), 0, [], [0])])
  }

  function WrittenOver<H, D>(p0: Slot<H, D>, p1: Slot<H, D>, p2: Slot<H, D>): System<H, D> {
    System(Buffer([p2, p1], 1, 3, [Cursor(1, true, false, 0, 1, 0)]), Idle,
           [Reader(Holding(0, 0, 0, None, None), 1, [], [0])], [p0, p1, p2])
  }

  function ReadFinished<H, D>(p0: Slot<H, D>, p1: Slot<H, D>, p2: Slot<H, D>): System<H, D> {
    System(Buffer([p2, p1], 1, 3, [Cursor(0, false, false, 1, 1, 0)]), Idle,
           [Reader(Waiting, 1, [Delivery(0, false, p2)], [0])], [p0, p1, p2])
  }

  /**
   * The code's own run on two slots: the reader finishes a read of packet 0 that saw packet 2, and is
   * moved past packet 1, which it never read; one overwrite is counted and two packets are lost.
   */
  lemma OvertakenReadLosesTwo<H, D>(slots: seq<Slot<H, D>>, p0: Slot<H, D>, p1: Slot<H, D>, p2: Slot<H, D>)
    requires |slots| == 2
    ensures var s := Run(Initial(slots, 1), OvertakenRead(p0, p1, p2), false);
            && Reaches(slots, 1, OvertakenRead(p0, p1, p2), false, s)
            && s.history == [p0, p1, p2] && s.buf.cursors[0].owCnt == 1
            && s.readers == [Reader(Waiting, 1, [Delivery(0, false, p2)], [0])]
            && LostPackets(s, 0) == {0, 1}
  {
    var s0 := Initial(slots, 1);
    OneWriteIs(s0, p0);
    OneWriteIs(Written(s0, p0), p1);
    WritesBoth(s0, slots, p0, p1);
    TakesFirst(p0, p1);
    OneWriteIs(FirstTaken(p0, p1), p2);
    WritesOver(p0, p1, p2);
    FinishesFirst(p0, p1, p2);
    RunBlocks(s0, Written(s0, p0), BothWritten(p0, p1), FirstTaken(p0, p1), WrittenOver(p0, p1, p2),
              ReadFinished(p0, p1, p2), p0, p1, p2);
    InitialInv(slots, 1);
    LiteralAdvanceExact(s0, OvertakenRead(p0, p1, p2));
    LosesTwo(p0, p1, p2);
  }

  lemma LosesTwo<H, D>(p0: Slot<H, D>, p1: Slot<H, D>, p2: Slot<H, D>)
    ensures LostPackets(ReadFinished(p0, p1, p2), 0) == {0, 1}
  {
    assert CleanReads([Delivery(0, false, p2)]) == {};
    assert Below(2) == {0, 1};
  }

  lemma WritesBoth<H, D>(s: System<H, D>, slots: seq<Slot<H, D>>, p0: Slot<H, D>, p1: Slot<H, D>)
    requires |slots| == 2 && s == Initial(slots, 1)
    ensures Written(Written(s, p0), p1) == BothWritten(p0, p1)
  {
    assert s.readers == [Reader(Waiting, 0, [], [])] && s.buf.cursors == [Cursor(0, false, true, 0, 0, 0)];
    assert slots[0 := p0][1 := p1] == [p0, p1];
    assert [] + [p0] + [p1] == [p0, p1];
  }

  lemma WritesOver<H, D>(p0: Slot<H, D>, p1: Slot<H, D>, p2: Slot<H, D>)
    ensures Written(FirstTaken(p0, p1), p2) == WrittenOver(p0, p1, p2)
  {
    assert [p0, p1][0 := p2] == [p2, p1];
    assert [p0, p1] + [p2] == [p0, p1, p2];
  }

  lemma TakesFirst<H, D>(p0: Slot<H, D>, p1: Slot<H, D>)
    ensures Run(BothWritten(p0, p1), [Poll(0), Acquire(0)], false) == FirstTaken(p0, p1)
  {
    var s := BothWritten(p0, p1);
    var s1 := ReaderStepIs(s, Poll(0), s.buf.cursors[0], Reader(Ready, 0, [], []));
    assert [] + [0] == [0];
    var s2 := ReaderStepIs(s1, Acquire(0), s.buf.cursors[0], Reader(Holding(0, 0, 0, None, None), 0, [], [0]));
    RunTwo(s, Poll(0), Acquire(0));
  }

  lemma FinishesFirst<H, D>(p0: Slot<H, D>, p1: Slot<H, D>, p2: Slot<H, D>)
    ensures Run(WrittenOver(p0, p1, p2), [ReadHeader(0), ReadPayload(0), Release(0)], false) == ReadFinished(p0, p1, p2)
  {
    var s := WrittenOver(p0, p1, p2);
    var c := s.buf.cursors[0];
    var s1 := ReaderStepIs(s, ReadHeader(0), c, Reader(Holding(0, 0, 0, Some(p2.header), None), 1, [], [0]));
    var s2 := ReaderStepIs(s1, ReadPayload(0), c,
                           Reader(Holding(0, 0, 0, Some(p2.header), Some(p2.payload)), 1, [], [0]));
    assert [] + [Delivery(0, false, p2)] == [Delivery(0, false, p2)];
    var s3 := ReaderStepIs(s2, Release(0), Cursor(0, false, false, 1, 1, 0),
                           Reader(Waiting, 1, [Delivery(0, false, p2)], [0]));
    RunThree(s, ReadHeader(0), ReadPayload(0), Release(0));
  }

  /** A step of the only reader, from what it makes of the cursor and the reader. */
  lemma ReaderStepIs<H, D>(s: System<H, D>, a: Action<H, D>, c: Cursor, r: Reader<H, D>) returns (t: System<H, D>)
    requires Shaped(s) && |s.readers| == 1 && OfReader(a) && a.i == 0
    requires OneReader(s.buf.data, s.buf.writePtr, s.buf.cursors[0], s.readers[0], a) == (c, r)
    ensures t == s.(buf := s.buf.(cursors := [c]), readers := [r]) == Step(s, a, false)
  {
    t := Step(s, a, false);
    assert s.buf.cursors[0 := c] == [c] && s.readers[0 := r] == [r];
  }

  lemma RunBlocks<H, D>(s0: System<H, D>, s1: System<H, D>, s2: System<H, D>, s3: System<H, D>, s4: System<H, D>,
                        s5: System<H, D>, p0: Slot<H, D>, p1: Slot<H, D>, p2: Slot<H, D>)
    requires Shaped(s0) && Run(s0, OneWrite(p0), false) == s1
    requires Shaped(s1) && Run(s1, OneWrite(p1), false) == s2
    requires Shaped(s2) && Run(s2, [Poll(0), Acquire(0)], false) == s3
    requires Shaped(s3) && Run(s3, OneWrite(p2), false) == s4
    requires Shaped(s4) && Run(s4, [ReadHeader(0), ReadPayload(0), Release(0)], false) == s5
    ensures Run(s0, OvertakenRead(p0, p1, p2), false) == s5
  {
    var last: seq<Action<H, D>> := [ReadHeader(0), ReadPayload(0), Release(0)];
    RunOn(s3, OneWrite(p2), last, false);
    RunOn(s2, [Poll(0), Acquire(0)], OneWrite(p2) + last, false);
    RunOn(s1, OneWrite(p1), [Poll(0), Acquire(0)] + (OneWrite(p2) + last), false);
    RunOn(s0, OneWrite(p0), OneWrite(p1) + ([Poll(0), Acquire(0)] + (OneWrite(p2) + last)), false);
  }
}
