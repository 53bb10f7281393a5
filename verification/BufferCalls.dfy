/** The buffer's calls on their own, in any sequence, and as steps of the threads that make them. */
module BufferCalls {
  import opened Words
  import opened Wrappers
  import opened DataBuffers
  import opened Pipeline
  import opened PipelineLaws

  // ---------------------------------------------------------------------------
  // Counters, over any sequence of calls
  // ---------------------------------------------------------------------------

  datatype Call = WritePtr | WriteDone | ReadPtr(i: nat) | ReadDone(i: nat) | Clear

  function Apply<T>(b: Buffer<T>, c: Call): (r: Buffer<T>)
    ensures |r.cursors| == |b.cursors|
  {
    match c
    case WritePtr => GetWritePtr(b, false)
    case WriteDone => DoneWriting(b)
    case ReadPtr(i) => if i < |b.cursors| then GetReadPtr(b, i).0 else b
    case ReadDone(i) => if i < |b.cursors| then DoneReading(b, i) else b
    case Clear => ClearCnts(b)
  }

  function ApplyAll<T>(b: Buffer<T>, calls: seq<Call>): (r: Buffer<T>)
    ensures |r.cursors| == |b.cursors|
  {
    if calls == [] then b else Apply(ApplyAll(b, calls[..|calls| - 1]), calls[|calls| - 1])
  }

  function Count(calls: seq<Call>, c: Call): nat {
    if calls == [] then 0 else Count(calls[..|calls| - 1], c) + (if calls[|calls| - 1] == c then 1 else 0)
  }

  /** getWritePtr calls that met reader i full, since the last clear. */
  function MetFull<T>(b: Buffer<T>, calls: seq<Call>, i: nat): nat
    requires i < |b.cursors|
  {
    if calls == [] || calls[|calls| - 1] == Clear then 0
    else
      var front := calls[..|calls| - 1];
      MetFull(b, front, i) + (if calls[|calls| - 1] == WritePtr && ApplyAll(b, front).cursors[i].full then 1 else 0)
  }

  /** getReadPtr calls of reader i that met it empty, since the last clear. */
  function MetEmpty<T>(b: Buffer<T>, calls: seq<Call>, i: nat): nat
    requires i < |b.cursors|
  {
    if calls == [] || calls[|calls| - 1] == Clear then 0
    else
      var front := calls[..|calls| - 1];
      MetEmpty(b, front, i) + (if calls[|calls| - 1] == ReadPtr(i) && ApplyAll(b, front).cursors[i].empty then 1 else 0)
  }

  /** From a new buffer, whatever is called in whatever order: what each counter counts. */
  lemma {:induction false} CountersCount<T>(slots: seq<T>, readers: nat, calls: seq<Call>, i: nat)
    requires i < readers
    ensures var b := ApplyAll(Fresh(slots, readers), calls);
            && b.writeCnt == Count(calls, WriteDone)
            && b.cursors[i].readCnt == Count(calls, ReadDone(i))
            && b.cursors[i].owCnt == MetFull(Fresh(slots, readers), calls, i)
            && b.cursors[i].rofCnt == MetEmpty(Fresh(slots, readers), calls, i)
  {
    if calls != [] {
      CountersCount(slots, readers, calls[..|calls| - 1], i);
    }
  }

  // ---------------------------------------------------------------------------
  // The same calls as steps of the threads
  // ---------------------------------------------------------------------------

  /** In every reachable state getReadPtr gives a slot exactly when a packet is pending for the reader. */
  lemma ReadGrantedIffPending<H, D>(slots: seq<Slot<H, D>>, readers: nat, actions: seq<Action<H, D>>, wraps: bool,
                                    s: System<H, D>, i: nat)
    requires Reaches(slots, readers, actions, wraps, s) && i < readers == |s.readers| == |s.buf.cursors|
    ensures Position(s.buf.cursors[i], s.readers[i]) <= |s.history|
    ensures GetReadPtr(s.buf, i).1 <==> Pending(s, i) != []
  {
    ReachableInv(slots, readers, actions, wraps, s);
    ReaderFacts(s, i);
  }

  /** A reader about to call getReadPtr gets what that call gives, and the buffer is what the call leaves. */
  lemma AcquireIsGetReadPtr<H, D>(s: System<H, D>, i: nat, wraps: bool)
    requires Shaped(s) && i < |s.readers| && s.readers[i].reading.Ready? && OnSlot(s, i)
    ensures var s', (b, ok) := Step(s, Acquire(i), wraps), GetReadPtr(s.buf, i);
            && s'.buf == b
            && (ok <==> s'.readers[i].reading.Holding?)
            && (ok ==> s'.readers[i].reading.slot == s.buf.cursors[i].ptr)
  {
    assert s.buf.cursors[i := s.buf.cursors[i]] == s.buf.cursors;
  }

  /** A reader that has read both parts leaves the buffer as doneReading does. */
  lemma ReleaseIsDoneReading<H, D>(s: System<H, D>, i: nat, wraps: bool)
    requires Shaped(s) && i < |s.readers| && BothRead(s.readers[i].reading)
    ensures Step(s, Release(i), wraps).buf == DoneReading(s.buf, i)
  {}
}
