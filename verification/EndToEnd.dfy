/** The pieces put together: register events to packet headers, and frames to files. */
module EndToEnd {
  import opened Words
  import opened Wrappers
  import opened TesBias
  import opened SmurfPacket
  import opened PhaseUnwrap
  import opened Processor
  import BiasServer
  import LoopLaws
  import opened Pipeline
  import opened PipelineLaws
  import opened DataFiles
  import opened Recorder

  // ---------------------------------------------------------------------------
  // TES bias: from register events to the packets emitted afterwards
  // ---------------------------------------------------------------------------

  /** What reaches the processor: register listener calls, and frames to pop. */
  datatype Input = Bias(e: BiasServer.Event) | Arrival(header: Header, samples: Samples, unixTime: nat)

  /** The listener calls among the first n inputs. */
  function EventsOf(inputs: seq<Input>, n: nat): seq<BiasServer.Event>
    requires n <= |inputs|
  {
    if n == 0 then []
    else EventsOf(inputs, n - 1) + (if inputs[n - 1].Bias? then [inputs[n - 1].e] else [])
  }

  /** The server and bias array after the first n inputs. */
  function ServerAt(inputs: seq<Input>, n: nat): (s: BiasServer.State)
    requires n <= |inputs|
    ensures BiasServer.WellFormed(s)
  {
    BiasServer.Run(BiasServer.Initial(), EventsOf(inputs, n))
  }

  /** The frames among the first n inputs, each with the bias array as it is when popped. */
  function FramesOf(inputs: seq<Input>, n: nat): seq<Frame>
    requires n <= |inputs|
  {
    if n == 0 then []
    else
      var x := inputs[n - 1];
      FramesOf(inputs, n - 1)
      + (if x.Arrival? then [Popped(x.header, x.samples, ServerAt(inputs, n - 1).tes, x.unixTime)] else [])
  }

  /** Where those frames are among the inputs. */
  function PopTimes(inputs: seq<Input>, n: nat): (r: seq<nat>)
    requires n <= |inputs|
    ensures |r| == |FramesOf(inputs, n)| && forall t :: 0 <= t < |r| ==> r[t] < n
  {
    if n == 0 then []
    else PopTimes(inputs, n - 1) + (if inputs[n - 1].Arrival? then [n - 1] else [])
  }

  lemma {:induction false} FramesCarryBias(inputs: seq<Input>, n: nat, t: nat)
    requires n <= |inputs| && t < |FramesOf(inputs, n)|
    ensures FramesOf(inputs, n)[t].tes == ServerAt(inputs, PopTimes(inputs, n)[t]).tes
  {
    if t < |FramesOf(inputs, n - 1)| {
      FramesCarryBias(inputs, n - 1, t);
    }
  }

  lemma {:induction false} CollectedAt(es: seq<Option<Emission>>, k: nat) returns (t: nat)
    requires k < |Collect(es)|
    ensures t < |es| && es[t] == Some(Collect(es)[k])
  {
    var last := |es| - 1;
    if k < |Collect(es[..last])| {
      t := CollectedAt(es[..last], k);
    } else {
      t := last;
    }
  }

  /** The frame that completed the k-th packet, and the packet's header in terms of it. */
  lemma EmittedFrame(cfg: Config, frames: seq<Frame>, k: nat) returns (t: nat)
    requires GoodConfig(cfg) && k < |EmittedPackets(cfg, frames)|
    ensures t < |frames| && EmissionAt(cfg, frames, t) == Some(Emitted(cfg, frames)[k])
    ensures EmittedPackets(cfg, frames)[k].header == StampedHeader(frames[t].header, frames[t].tes, frames[t].unixTime)
  {
    t := CollectedAt(TraceOf(cfg, frames).emissions, k);
    StepLinks(cfg, Processor.Run(cfg, frames, t), frames[t]);
    assert EmittedPackets(cfg, frames)[k] == MakePacket(Emitted(cfg, frames)[k]);
  }

  /**
   * TES bias flow, for all inputs: the getTESBias of a packet returns, for each word, the register
   * difference last sent before the frame that completed the packet was popped, as a signed 20-bit
   * value.  That is the register difference of that time as long as no listener call was refused.
   */
  lemma PacketsReportBias(cfg: Config, inputs: seq<Input>, k: nat) returns (t: nat)
    requires GoodConfig(cfg) && k < |EmittedPackets(cfg, FramesOf(inputs, |inputs|))|
    ensures var frames := FramesOf(inputs, |inputs|);
            && t < |frames| && EmissionAt(cfg, frames, t) == Some(Emitted(cfg, frames)[k])
    ensures var h := EmittedPackets(cfg, FramesOf(inputs, |inputs|))[k].header;
            var events := EventsOf(inputs, PopTimes(inputs, |inputs|)[t]);
            forall i: nat :: i < TES_BIAS_COUNT ==> Reports(h, events, i)
  {
    var frames := FramesOf(inputs, |inputs|);
    t := EmittedFrame(cfg, frames, k);
    FramesCarryBias(inputs, |inputs|, t);
    forall i: nat | i < TES_BIAS_COUNT
      ensures Reports(StampedHeader(frames[t].header, frames[t].tes, frames[t].unixTime),
                      EventsOf(inputs, PopTimes(inputs, |inputs|)[t]), i)
    {
      FrameReports(frames[t], EventsOf(inputs, PopTimes(inputs, |inputs|)[t]), i);
    }
  }

  /** The same for the packets of the whole loop, whatever the configuration files hold. */
  lemma LoopPacketReportsBias(cfg: Config, inputs: seq<Input>, files: seq<Config>, t: nat)
    requires GoodConfig(cfg) && GoodFiles(files) && t < |FramesOf(inputs, |inputs|)| == |files|
    requires LoopPacketAt(cfg, FramesOf(inputs, |inputs|), files, t).Some?
    ensures var h := LoopPacketAt(cfg, FramesOf(inputs, |inputs|), files, t).value.header;
            var events := EventsOf(inputs, PopTimes(inputs, |inputs|)[t]);
            forall i: nat :: i < TES_BIAS_COUNT ==> Reports(h, events, i)
  {
    var frames := FramesOf(inputs, |inputs|);
    FramesCarryBias(inputs, |inputs|, t);
    var p, e, first := LoopLaws.PacketParts(cfg, frames, files, t, 0);
    forall i: nat | i < TES_BIAS_COUNT
      ensures Reports(StampedHeader(frames[t].header, frames[t].tes, frames[t].unixTime),
                      EventsOf(inputs, PopTimes(inputs, |inputs|)[t]), i)
    {
      FrameReports(frames[t], EventsOf(inputs, PopTimes(inputs, |inputs|)[t]), i);
    }
  }

  /** Word i of a header is the pair value last sent, and the last values' difference if no call was refused. */
  ghost predicate Reports(h: Header, events: seq<BiasServer.Event>, i: nat)
    requires i < TES_BIAS_COUNT
  {
    && Read(h, Tes(i)) == Signed20(BiasServer.LastSent(events, i))
    && (BiasServer.NoneRefused(events) ==>
        Read(h, Tes(i)) ==
        Signed20(BiasServer.LastValue(events, 2 * i + 2) - BiasServer.LastValue(events, 2 * i + 1)))
  }

  lemma FrameReports(f: Frame, events: seq<BiasServer.Event>, i: nat)
    requires i < TES_BIAS_COUNT && f.tes == BiasServer.Run(BiasServer.Initial(), events).tes
    ensures Reports(StampedHeader(f.header, f.tes, f.unixTime), events, i)
  {
    BiasServer.WordIsLastSent(events, i);
    StampedBias(f, i, BiasServer.LastSent(events, i));
    if BiasServer.NoneRefused(events) {
      BiasServer.SentIsPair(events, i);
    }
  }

  lemma StampedBias(f: Frame, i: nat, d: int)
    requires i < TES_BIAS_COUNT && Word(f.tes, i) == d % 0x10_0000
    ensures Read(StampedHeader(f.header, f.tes, f.unixTime), Tes(i)) == Signed20(d)
  {
    StampedWord(f, i);
    SignedOfResidue(Word(f.tes, i), d);
  }

  lemma StampedWord(f: Frame, i: nat)
    requires i < TES_BIAS_COUNT
    ensures Read(StampedHeader(f.header, f.tes, f.unixTime), Tes(i)) == Signed20(Word(f.tes, i))
  {
    StampKeepsTes(f.header, f.tes, f.unixTime);
    TesReading(StampedHeader(f.header, f.tes, f.unixTime), i);
  }

  lemma SignedOfResidue(w: int, d: int)
    requires w == d % 0x10_0000
    ensures Signed20(w) == Signed20(d)
  {
    Signed20Periodic(d % 0x10_0000, d / 0x10_0000);
  }

  // ---------------------------------------------------------------------------
  // From frames to files
  // ---------------------------------------------------------------------------

  /** The packets of a run as they lie in buffer slots. */
  function EmittedSlots(cfg: Config, frames: seq<Frame>): (r: seq<PacketSlot>)
    requires GoodConfig(cfg)
    ensures |r| == |EmittedPackets(cfg, frames)|
  {
    var ps := EmittedPackets(cfg, frames);
    seq(|ps|, k requires 0 <= k < |ps| => Slot(ps[k].header, ps[k].payload))
  }

  /** Stamping leaves the control field: the k-th packet has file writing off iff the frame that completed it does. */
  lemma EmittedKeepFlag(cfg: Config, frames: seq<Frame>, k: nat) returns (t: nat)
    requires GoodConfig(cfg) && k < |EmittedSlots(cfg, frames)|
    ensures t < |frames| && EmissionAt(cfg, frames, t) == Some(Emitted(cfg, frames)[k])
    ensures FileWritingOff(EmittedSlots(cfg, frames)[k].header) <==> FileWritingOff(frames[t].header)
  {
    t := EmittedFrame(cfg, frames, k);
    StampKeepsControl(frames[t].header, frames[t].tes, frames[t].unixTime);
  }

  /** No frame that completes a packet asks for file writing to be off. */
  ghost predicate EmissionsForFile(cfg: Config, frames: seq<Frame>)
    requires GoodConfig(cfg)
  {
    forall t :: 0 <= t < |frames| && EmissionAt(cfg, frames, t).Some? ==> !FileWritingOff(frames[t].header)
  }

  /**
   * Frames to disk, over every interleaving: if the file reader is never overwritten and the emitted
   * packets go to files with the name extension, then the part files one after the other, then the
   * packets pending and not yet in a file, then those still to be written to the buffer, are exactly
   * the packets the frame loop emitted, as long as part numbers are not re-used.
   */
  lemma FramesReachDisk(cfg: Config, frames: seq<Frame>, slots: seq<PacketSlot>, readers: nat, file: nat,
                        ms: seq<Move>, wraps: bool, fcfg: FileConfig, f: File<PacketSlot>, d: Recording)
    requires GoodConfig(cfg) && EmissionsForFile(cfg, frames)
    requires fcfg.extend && Rested(f) && Attained(slots, readers, f, ms, file, fcfg, wraps, d)
    requires Feeds(Pipeline.Initial(slots, readers), Taken(Start(slots, readers, f), ms, file, fcfg, wraps),
                   EmittedSlots(cfg, frames), wraps)
    requires Formed(d, file) && d.s.readers[file].overwritten == 0
    requires |Parts(Stored(d, file), PartSize(fcfg))| <= PART_NUMBERS
    ensures Position(d.s.buf.cursors[file], d.s.readers[file]) <= |d.s.history| <= |EmittedSlots(cfg, frames)|
    ensures Joined(fcfg, d.f.disk, |Parts(Stored(d, file), PartSize(fcfg))|) + Unwritten(d, file)
            + EmittedSlots(cfg, frames)[|d.s.history|..] == EmittedSlots(cfg, frames)
  {
    FedRecording(slots, readers, f, ms, file, fcfg, wraps, d, EmittedSlots(cfg, frames));
    DiskAndPending(cfg, frames, slots, readers, file, ms, wraps, fcfg, f, d);
    PrefixThenRest(Joined(fcfg, d.f.disk, |Parts(Stored(d, file), PartSize(fcfg))|) + Unwritten(d, file),
                   d.s.history, EmittedSlots(cfg, frames));
  }

  lemma PrefixThenRest<T>(a: seq<T>, b: seq<T>, all: seq<T>)
    requires a == b && b <= all
    ensures |b| <= |all| && a + all[|b|..] == all
  {}

  /** The part files and then the packets pending and not yet in a file are what went into the buffer. */
  lemma DiskAndPending(cfg: Config, frames: seq<Frame>, slots: seq<PacketSlot>, readers: nat, file: nat,
                       ms: seq<Move>, wraps: bool, fcfg: FileConfig, f: File<PacketSlot>, d: Recording)
    requires GoodConfig(cfg) && EmissionsForFile(cfg, frames) && d.s.history <= EmittedSlots(cfg, frames)
    requires fcfg.extend && Rested(f) && Attained(slots, readers, f, ms, file, fcfg, wraps, d)
    requires Formed(d, file) && d.s.readers[file].overwritten == 0
    requires |Parts(Stored(d, file), PartSize(fcfg))| <= PART_NUMBERS
    ensures Position(d.s.buf.cursors[file], d.s.readers[file]) <= |d.s.history|
    ensures Joined(fcfg, d.f.disk, |Parts(Stored(d, file), PartSize(fcfg))|) + Unwritten(d, file) == d.s.history
  {
    FilesFollowHistory(slots, readers, f, ms, file, fcfg, wraps, d);
    PrefixIsEnabled(cfg, frames, Stored(d, file), d.s.history);
    FilesHoldEverything(fcfg, f, Stored(d, file));
  }

  lemma PrefixIsEnabled(cfg: Config, frames: seq<Frame>, got: seq<PacketSlot>, history: seq<PacketSlot>)
    requires GoodConfig(cfg) && EmissionsForFile(cfg, frames)
    requires got <= history <= EmittedSlots(cfg, frames)
    ensures RecordsOf(got) == Enabled(got)
  {
    forall k | 0 <= k < |got| ensures !FileWritingOff(got[k].header) {
      assert got[k] == history[k] == EmittedSlots(cfg, frames)[k];
      var t := EmittedKeepFlag(cfg, frames, k);
    }
  }
}
