/**
 * The thread that writes packets to files (pktWriter in src/smurf_processor.cpp), as a reader of the
 * buffer: getReadPtr, then write_file on the packet in its slot, then doneReading.
 */
module Recorder {
  import opened Words
  import opened Wrappers
  import opened SmurfPacket
  import opened Pipeline
  import opened PipelineLaws
  import opened DataFiles

  type PacketSlot = Slot<Header, seq<int>>
  type PacketSystem = System<Header, seq<int>>
  type PacketAction = Action<Header, seq<int>>

  /** The writer, the readers and the files; `stored` says that write_file has returned and doneReading is next. */
  datatype Recording = Recording(s: PacketSystem, f: File<PacketSlot>, stored: bool)

  /** A step of some thread on the buffer, or the file reader's write_file on what it has read. */
  datatype Move = Thread(a: PacketAction) | CallWriteFile

  /** What write_file looks at. */
  function RecordOf(p: PacketSlot): Record<PacketSlot> {
    Record(p, FileWritingOff(p.header))
  }

  function RecordsOf(ps: seq<PacketSlot>): (r: seq<Record<PacketSlot>>)
    ensures |r| == |ps|
  {
    seq(|ps|, k requires 0 <= k < |ps| => RecordOf(ps[k]))
  }

  /** A recording with as many cursors as readers, the file reader `i` among them. */
  predicate Formed(d: Recording, i: nat) {
    Shaped(d.s) && i < |d.s.readers|
  }

  predicate MayStore(d: Recording, i: nat)
    requires Formed(d, i)
  {
    BothRead(d.s.readers[i].reading) && !d.stored
  }

  /**
   * The file reader calls doneReading only after write_file, and write_file only reads the slot and
   * never throws.
   */
  predicate Barred(d: Recording, a: PacketAction, i: nat) {
    OfReader(a) && a.i == i
    && (a.Abandon? || (a.Release? && !d.stored) || (d.stored && (a.ReadHeader? || a.ReadPayload?)))
  }

  /** One step; what a thread cannot do where it stands changes nothing. */
  function AfterMove(d: Recording, m: Move, i: nat, cfg: FileConfig, wraps: bool): (d': Recording)
    requires Formed(d, i)
    ensures Formed(d', i)
  {
    match m
    case CallWriteFile =>
      if MayStore(d, i) then
        d.(f := WriteFile(cfg, d.f, RecordOf(Seen(d.s.readers[i].reading))), stored := true)
      else d
    case Thread(a) =>
      if Barred(d, a, i) then d
      else Recording(Step(d.s, a, wraps), d.f, d.stored && a != Release(i))
  }

  function Play(d: Recording, ms: seq<Move>, i: nat, cfg: FileConfig, wraps: bool): (d': Recording)
    requires Formed(d, i)
    ensures Formed(d', i)
    decreases |ms|
  {
    if ms == [] then d else Play(AfterMove(d, ms[0], i, cfg, wraps), ms[1..], i, cfg, wraps)
  }

  /** The steps on the buffer among those moves. */
  function Taken(d: Recording, ms: seq<Move>, i: nat, cfg: FileConfig, wraps: bool): seq<PacketAction>
    requires Formed(d, i)
    decreases |ms|
  {
    if ms == [] then []
    else
      (if ms[0].Thread? && !Barred(d, ms[0].a, i) then [ms[0].a] else [])
      + Taken(AfterMove(d, ms[0], i, cfg, wraps), ms[1..], i, cfg, wraps)
  }

  /** The buffer runs as it does without the files. */
  lemma {:induction false} PlayIsRun(d: Recording, ms: seq<Move>, i: nat, cfg: FileConfig, wraps: bool)
    requires Formed(d, i)
    ensures Play(d, ms, i, cfg, wraps).s == Pipeline.Run(d.s, Taken(d, ms, i, cfg, wraps), wraps)
    decreases |ms|
  {
    if ms != [] {
      var d' := AfterMove(d, ms[0], i, cfg, wraps);
      var rest := Taken(d', ms[1..], i, cfg, wraps);
      PlayIsRun(d', ms[1..], i, cfg, wraps);
      if ms[0].Thread? && !Barred(d, ms[0].a, i) {
        assert ([ms[0].a] + rest)[1..] == rest;
      } else {
        assert Taken(d, ms, i, cfg, wraps) == rest;
      }
    }
  }

  // ---------------------------------------------------------------------------
  // What the files hold
  // ---------------------------------------------------------------------------

  /** The packets write_file was called on: those of the finished reads, and the one just stored. */
  function Stored(d: Recording, i: nat): seq<PacketSlot>
    requires Formed(d, i)
  {
    Packets(d.s.readers[i].delivered)
    + (if d.stored && BothRead(d.s.readers[i].reading) then [Seen(d.s.readers[i].reading)] else [])
  }

  /** The files are those of write_file called on these packets, in order. */
  ghost predicate Recorded(d: Recording, i: nat, cfg: FileConfig, f: File<PacketSlot>)
    requires Formed(d, i)
  {
    && (d.stored ==> BothRead(d.s.readers[i].reading))
    && d.f == WriteAll(cfg, f, RecordsOf(Stored(d, i)))
  }

  lemma MoveKeepsRecorded(d: Recording, m: Move, i: nat, cfg: FileConfig, wraps: bool, f: File<PacketSlot>)
    requires Formed(d, i) && Recorded(d, i, cfg, f)
    ensures Recorded(AfterMove(d, m, i, cfg, wraps), i, cfg, f)
  {
    var r := d.s.readers[i];
    match m
    case CallWriteFile =>
      if MayStore(d, i) {
        var rs := RecordsOf(Packets(r.delivered) + [Seen(r.reading)]);
        assert Stored(d, i) == Packets(r.delivered);
        assert rs[..|rs| - 1] == RecordsOf(Packets(r.delivered));
      }
    case Thread(a) =>
      if !Barred(d, a, i) {
        ReaderKeepsStored(d, a, i, wraps);
      }
  }

  lemma ReaderKeepsStored(d: Recording, a: PacketAction, i: nat, wraps: bool)
    requires Formed(d, i) && !Barred(d, a, i) && (d.stored ==> BothRead(d.s.readers[i].reading))
    ensures var d' := Recording(Step(d.s, a, wraps), d.f, d.stored && a != Release(i));
            && (d'.stored ==> BothRead(d'.s.readers[i].reading))
            && Stored(d', i) == Stored(d, i)
  {
    var r, r' := d.s.readers[i], Step(d.s, a, wraps).readers[i];
    if a == Release(i) {
      assert r'.delivered == r.delivered + [Delivery(r.reading.at, r.reading.lost == r.overwritten, Seen(r.reading))];
      assert Packets(r'.delivered) == Packets(r.delivered) + [Seen(r.reading)];
    } else {
      assert r'.delivered == r.delivered;
    }
  }

  lemma {:induction false} PlayKeepsRecorded(d: Recording, ms: seq<Move>, i: nat,
                                             cfg: FileConfig, wraps: bool, f: File<PacketSlot>)
    requires Formed(d, i) && Recorded(d, i, cfg, f)
    ensures Recorded(Play(d, ms, i, cfg, wraps), i, cfg, f)
    decreases |ms|
  {
    if ms != [] {
      MoveKeepsRecorded(d, ms[0], i, cfg, wraps, f);
      PlayKeepsRecorded(AfterMove(d, ms[0], i, cfg, wraps), ms[1..], i, cfg, wraps, f);
    }
  }

  function Start(slots: seq<PacketSlot>, readers: nat, f: File<PacketSlot>): Recording {
    Recording(Pipeline.Initial(slots, readers), f, false)
  }

  /** Pending packets not yet on disk: from write_file to doneReading the oldest pending one is there already. */
  function Unwritten(d: Recording, i: nat): seq<PacketSlot>
    requires Formed(d, i) && Position(d.s.buf.cursors[i], d.s.readers[i]) <= |d.s.history|
  {
    var q := Pending(d.s, i);
    if d.stored && q != [] then q[1..] else q
  }

  /** A reachable recording, from a fresh buffer of two or more slots. */
  ghost predicate Attained(slots: seq<PacketSlot>, readers: nat, f: File<PacketSlot>, ms: seq<Move>, i: nat,
                           cfg: FileConfig, wraps: bool, d: Recording)
  {
    && |slots| >= 2 && i < readers
    && (wraps || Guarded(Pipeline.Initial(slots, readers), Taken(Start(slots, readers, f), ms, i, cfg, wraps)))
    && d == Play(Start(slots, readers, f), ms, i, cfg, wraps)
  }

  lemma AttainedReaches(slots: seq<PacketSlot>, readers: nat, f: File<PacketSlot>, ms: seq<Move>, i: nat,
                        cfg: FileConfig, wraps: bool, d: Recording)
    requires Attained(slots, readers, f, ms, i, cfg, wraps, d)
    ensures Reaches(slots, readers, Taken(Start(slots, readers, f), ms, i, cfg, wraps), wraps, d.s)
    ensures Formed(d, i) && |d.s.readers| == readers && |d.s.buf.data| == |slots|
    ensures Position(d.s.buf.cursors[i], d.s.readers[i]) <= |d.s.history|
  {
    PlayIsRun(Start(slots, readers, f), ms, i, cfg, wraps);
    ReachableInv(slots, readers, Taken(Start(slots, readers, f), ms, i, cfg, wraps), wraps, d.s);
    ReaderFacts(d.s, i);
  }

  /**
   * Over every interleaving in which the file reader is never overwritten: the files are what
   * write_file makes of a prefix of the packets written to the buffer, in order and once each, and the
   * rest of them is pending.
   */
  lemma FilesFollowHistory(slots: seq<PacketSlot>, readers: nat, f: File<PacketSlot>, ms: seq<Move>, i: nat,
                           cfg: FileConfig, wraps: bool, d: Recording)
    requires Attained(slots, readers, f, ms, i, cfg, wraps, d)
    requires Formed(d, i) && d.s.readers[i].overwritten == 0
    ensures Position(d.s.buf.cursors[i], d.s.readers[i]) <= |d.s.history|
    ensures Stored(d, i) + Unwritten(d, i) == d.s.history
    ensures d.f == WriteAll(cfg, f, RecordsOf(Stored(d, i)))
  {
    AttainedReaches(slots, readers, f, ms, i, cfg, wraps, d);
    assert RecordsOf([]) == [];
    PlayKeepsRecorded(Start(slots, readers, f), ms, i, cfg, wraps, f);
    StoredThenUnwritten(slots, readers, Taken(Start(slots, readers, f), ms, i, cfg, wraps), wraps, d, i);
  }

  /** When the buffer's writer works through a list of packets, what has been written is a prefix of it. */
  lemma FedRecording(slots: seq<PacketSlot>, readers: nat, f: File<PacketSlot>, ms: seq<Move>, i: nat,
                     cfg: FileConfig, wraps: bool, d: Recording, packets: seq<PacketSlot>)
    requires Attained(slots, readers, f, ms, i, cfg, wraps, d)
    requires Feeds(Pipeline.Initial(slots, readers), Taken(Start(slots, readers, f), ms, i, cfg, wraps), packets, wraps)
    ensures d.s.history <= packets
  {
    AttainedReaches(slots, readers, f, ms, i, cfg, wraps, d);
    FedHistory(Pipeline.Initial(slots, readers), Taken(Start(slots, readers, f), ms, i, cfg, wraps), packets, wraps);
  }

  lemma StoredThenUnwritten(slots: seq<PacketSlot>, readers: nat, actions: seq<PacketAction>, wraps: bool,
                            d: Recording, i: nat)
    requires Reaches(slots, readers, actions, wraps, d.s) && Formed(d, i) && |d.s.readers| == readers
    requires d.s.readers[i].overwritten == 0 && (d.stored ==> BothRead(d.s.readers[i].reading))
    ensures Position(d.s.buf.cursors[i], d.s.readers[i]) <= |d.s.history|
    ensures Stored(d, i) + Unwritten(d, i) == d.s.history
  {
    ReachableInv(slots, readers, actions, wraps, d.s);
    ReaderFacts(d.s, i);
    NeverOverwrittenGetsPrefix(slots, readers, actions, wraps, d.s, i);
    if d.stored {
      ReadPacketIsOldest(slots, readers, actions, wraps, d.s, i);
      assert Pending(d.s, i) == [Seen(d.s.readers[i].reading)] + Pending(d.s, i)[1..];
    }
  }
}
