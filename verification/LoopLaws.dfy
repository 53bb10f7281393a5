/** What the whole loop does over a run: which configuration is in force, and what it sends. */
module LoopLaws {
  import opened Words
  import opened Wrappers
  import opened TesBias
  import opened SmurfPacket
  import opened PhaseUnwrap
  import opened DigitalFilter
  import opened Processor
  import opened Windows
  import opened FrameAccounting

  // ---------------------------------------------------------------------------
  // What the loop decides on, from the bytes of the header
  // ---------------------------------------------------------------------------

  /** A popped frame's number is bytes 84 to 87, its syncword bytes 96 to 99, its clear bit the lowest of byte 104. */
  lemma PoppedIs(h: Header, samples: Samples, tes: Packed, unixTime: nat)
    ensures var f := Popped(h, samples, tes, unixTime);
            && f.number == Word4(h[84], h[85], h[86], h[87])
            && f.syncword == Word4(h[96], h[97], h[98], h[99])
            && (f.clear <==> h[104] % 2 == 1)
            && f.header == h && f.samples == samples && f.tes == tes && f.unixTime == unixTime
  {
    PoppedNumber(h, samples, tes, unixTime);
    PoppedSyncword(h, samples, tes, unixTime);
    PoppedClear(h, samples, tes, unixTime);
  }

  lemma PoppedNumber(h: Header, samples: Samples, tes: Packed, unixTime: nat)
    ensures Popped(h, samples, tes, unixTime).number == Word4(h[84], h[85], h[86], h[87])
  {
    NumberIs(h, FrameCounter, 84);
  }

  lemma PoppedSyncword(h: Header, samples: Samples, tes: Packed, unixTime: nat)
    ensures Popped(h, samples, tes, unixTime).syncword == Word4(h[96], h[97], h[98], h[99])
  {
    SyncwordIs(h, ExternalTimeClock, 96);
  }

  lemma PoppedClear(h: Header, samples: Samples, tes: Packed, unixTime: nat)
    ensures Popped(h, samples, tes, unixTime).clear <==> h[104] % 2 == 1
  {
    ControlByteIs(h);
  }

  lemma NumberIs(h: Header, f: Field, at: nat)
    requires f == FrameCounter && at == 84
    ensures GetField(h, f) == Word4(h[at], h[at + 1], h[at + 2], h[at + 3])
  {
    Load4(h, at);
  }

  lemma SyncwordIs(h: Header, f: Field, at: nat)
    requires f == ExternalTimeClock && at == 96
    ensures GetField(h, f) % TWO_32 == Word4(h[at], h[at + 1], h[at + 2], h[at + 3])
  {
    LowWord(h, at, 4, 4);
    Load4(h, at);
  }

  /** Bit 3 of byte 104. */
  predicate AsksForRead(f: Frame) {
    f.header[104] / 8 % 2 == 1
  }

  lemma ReadsConfigIs(f: Frame)
    ensures ReadsConfig(f) <==> AsksForRead(f)
    ensures TestModeOf(f) == f.header[104] / 16
  {
    ControlByteIs(f.header);
  }

  // ---------------------------------------------------------------------------
  // The configuration in force
  // ---------------------------------------------------------------------------

  /** Accepted frames before n with the read-config bit, since the last accepted one without it. */
  function Held(frames: seq<Frame>, n: nat): nat
    requires n <= |frames|
  {
    if n == 0 then 0
    else if !Accepted(frames, n - 1) then Held(frames, n - 1)
    else if AsksForRead(frames[n - 1]) then Held(frames, n - 1) + 1
    else 0
  }

  /** The first frame of such a stretch and every 5000th after it read the files; the count is a 32-bit one. */
  predicate Due(frames: seq<Frame>, t: nat)
    requires t < |frames|
  {
    Accepted(frames, t) && AsksForRead(frames[t]) && Held(frames, t) % 0x1_0000_0000 % 5000 == 0
  }

  /** What the files held at the last frame before n that was due, or the configuration of the start. */
  function ConfigAt(cfg: Config, frames: seq<Frame>, files: seq<Config>, n: nat): (r: Config)
    requires n <= |frames| == |files|
    ensures GoodConfig(cfg) && GoodFiles(files) ==> GoodConfig(r)
  {
    if n == 0 then cfg
    else if Due(frames, n - 1) then files[n - 1]
    else ConfigAt(cfg, frames, files, n - 1)
  }

  /** The configuration law, from the frames and the files alone. */
  lemma ConfigurationInForce(cfg: Config, frames: seq<Frame>, files: seq<Config>, n: nat)
    requires GoodConfig(cfg) && GoodFiles(files) && n <= |frames| == |files|
    ensures LoopAt(cfg, frames, files, n).cfg == ConfigAt(cfg, frames, files, n)
  {
    var ls, done := StatesTrace(cfg, frames, files);
    TraceConfig(cfg, frames, files, ls, done, n);
  }

  // ---------------------------------------------------------------------------
  // The states of a run, one frame to the next
  // ---------------------------------------------------------------------------

  /** What a frame does to the configuration, the re-read counter and the first test syncword. */
  ghost predicate Links(l: LoopState, l': LoopState, f: Frame, files: Config, accepted: bool, completed: bool) {
    && l'.fast == (if !accepted then l.fast else if AsksForRead(f) then (l.fast + 1) % 0x1_0000_0000 else 0)
    && l'.cfg == (if accepted && AsksForRead(f) && l.fast % 5000 == 0 then files else l.cfg)
    && l'.firstSync == if l.firstSync.None? && completed && f.header[104] >= 16 then Some(f.syncword) else l.firstSync
  }

  ghost predicate LoopTrace(cfg: Config, frames: seq<Frame>, files: seq<Config>, ls: seq<LoopState>, done: seq<bool>) {
    && |files| == |done| == |frames| && |ls| == |frames| + 1
    && ls[0].cfg == cfg && ls[0].fast == 0 && ls[0].firstSync == None
    && forall t :: 0 <= t < |frames| ==> Links(ls[t], ls[t + 1], frames[t], files[t], Accepted(frames, t), done[t])
  }

  /** The state before every frame and after the last. */
  ghost function States(cfg: Config, frames: seq<Frame>, files: seq<Config>): (ls: seq<LoopState>)
    requires GoodConfig(cfg) && GoodFiles(files) && |frames| == |files|
    ensures |ls| == |frames| + 1
  {
    seq(|frames| + 1, n requires 0 <= n <= |frames| => LoopAt(cfg, frames, files, n))
  }

  lemma StatesTrace(cfg: Config, frames: seq<Frame>, files: seq<Config>)
    returns (ls: seq<LoopState>, done: seq<bool>)
    requires GoodConfig(cfg) && GoodFiles(files) && |frames| == |files|
    ensures ls == States(cfg, frames, files) && done == Completions(cfg, frames, files)
    ensures LoopTrace(cfg, frames, files, ls, done)
  {
    ls, done := States(cfg, frames, files), Completions(cfg, frames, files);
    forall t | 0 <= t < |frames|
      ensures Links(ls[t], ls[t + 1], frames[t], files[t], Accepted(frames, t), done[t])
    {
      StateLinks(cfg, frames, files, t);
    }
  }

  lemma StateLinks(cfg: Config, frames: seq<Frame>, files: seq<Config>, t: nat)
    requires GoodConfig(cfg) && GoodFiles(files) && t < |frames| == |files|
    ensures Links(States(cfg, frames, files)[t], States(cfg, frames, files)[t + 1], frames[t], files[t],
                  Accepted(frames, t), Completions(cfg, frames, files)[t])
  {
    LinksAt(cfg, frames, files, t);
    StateIs(cfg, frames, files, t);
    StateIs(cfg, frames, files, t + 1);
    assert Completions(cfg, frames, files)[t] == CompletedAt(cfg, frames, files, t).Some?;
  }

  lemma StateIs(cfg: Config, frames: seq<Frame>, files: seq<Config>, n: nat)
    requires GoodConfig(cfg) && GoodFiles(files) && n <= |frames| == |files|
    ensures States(cfg, frames, files)[n] == LoopAt(cfg, frames, files, n)
  {}

  lemma StatesFollow(cfg: Config, frames: seq<Frame>, files: seq<Config>, t: nat)
    requires GoodConfig(cfg) && GoodFiles(files) && t < |frames| == |files|
    ensures States(cfg, frames, files)[t + 1] == LoopStep(LoopAt(cfg, frames, files, t), frames[t], files[t]).0
  {
    assert States(cfg, frames, files)[t + 1] == LoopAt(cfg, frames, files, t + 1);
  }

  lemma LinksAt(cfg: Config, frames: seq<Frame>, files: seq<Config>, t: nat)
    requires GoodConfig(cfg) && GoodFiles(files) && t < |frames| == |files|
    ensures Links(LoopAt(cfg, frames, files, t), LoopAt(cfg, frames, files, t + 1), frames[t], files[t],
                  Accepted(frames, t), CompletedAt(cfg, frames, files, t).Some?)
  {
    LoopDiscards(cfg, frames, files, t);
    LinksStep(LoopAt(cfg, frames, files, t), frames[t], files[t]);
  }

  lemma LoopDiscards(cfg: Config, frames: seq<Frame>, files: seq<Config>, t: nat)
    requires GoodConfig(cfg) && GoodFiles(files) && t < |frames| == |files|
    ensures Discarded(LoopAt(cfg, frames, files, t).s, frames[t]) <==> !Accepted(frames, t)
  {
    CountersIgnoreConfig(cfg, frames, files, t);
    RunRemembers(cfg, frames, t);
  }

  lemma LinksStep(l: LoopState, f: Frame, files: Config)
    requires Running(l) && GoodConfig(files)
    ensures Links(l, LoopStep(l, f, files).0, f, files, !Discarded(l.s, f), Completed(l.cfg, l.s, f).Some?)
  {
    var l', accepted, completed := LoopStep(l, f, files).0, !Discarded(l.s, f), Completed(l.cfg, l.s, f).Some?;
    LinksInBytes(l, l', f, files, accepted, completed);
  }

  lemma LinksInBytes(l: LoopState, l': LoopState, f: Frame, files: Config, accepted: bool, completed: bool)
    requires l'.fast == if accepted then NextFast(l.fast, f) else l.fast
    requires l'.cfg == if accepted then Reread(l.cfg, l.fast, f, files) else l.cfg
    requires l'.firstSync == if completed then FirstSync(l.firstSync, f) else l.firstSync
    ensures Links(l, l', f, files, accepted, completed)
  {
    ReadsConfigIs(f);
  }

  lemma {:induction false} TraceFast(cfg: Config, frames: seq<Frame>, files: seq<Config>, ls: seq<LoopState>,
                                     done: seq<bool>, n: nat)
    requires LoopTrace(cfg, frames, files, ls, done) && n <= |frames|
    ensures ls[n].fast == Held(frames, n) % 0x1_0000_0000
  {
    if n > 0 {
      TraceFast(cfg, frames, files, ls, done, n - 1);
      NextResidue(Held(frames, n - 1), 0x1_0000_0000);
      assert Links(ls[n - 1], ls[n], frames[n - 1], files[n - 1], Accepted(frames, n - 1), done[n - 1]);
    }
  }

  lemma {:induction false} TraceConfig(cfg: Config, frames: seq<Frame>, files: seq<Config>, ls: seq<LoopState>,
                                       done: seq<bool>, n: nat)
    requires LoopTrace(cfg, frames, files, ls, done) && n <= |frames|
    ensures ls[n].cfg == ConfigAt(cfg, frames, files, n)
  {
    if n > 0 {
      TraceConfig(cfg, frames, files, ls, done, n - 1);
      TraceFast(cfg, frames, files, ls, done, n - 1);
      assert Links(ls[n - 1], ls[n], frames[n - 1], files[n - 1], Accepted(frames, n - 1), done[n - 1]);
    }
  }

  /** The first test syncword, from the frames and which of them completed an average. */
  lemma {:induction false} TraceFirstSync(cfg: Config, frames: seq<Frame>, files: seq<Config>, ls: seq<LoopState>,
                                          done: seq<bool>, n: nat)
    requires LoopTrace(cfg, frames, files, ls, done) && n <= |frames|
    ensures ls[n].firstSync == FirstTestSync(frames, done, n)
  {
    if n > 0 {
      TraceFirstSync(cfg, frames, files, ls, done, n - 1);
      assert Links(ls[n - 1], ls[n], frames[n - 1], files[n - 1], Accepted(frames, n - 1), done[n - 1]);
    }
  }

  // ---------------------------------------------------------------------------
  // What is sent
  // ---------------------------------------------------------------------------

  /** The average that frame t completes, under the configuration in force before it. */
  function CompletedAt(cfg: Config, frames: seq<Frame>, files: seq<Config>, t: nat): (e: Option<Emission>)
    requires GoodConfig(cfg) && GoodFiles(files) && t < |frames| == |files|
    ensures e.Some? ==> Complete(e.value)
  {
    Completed(LoopAt(cfg, frames, files, t).cfg, LoopAt(cfg, frames, files, t).s, frames[t])
  }

  /** Which frames complete an average. */
  function Completions(cfg: Config, frames: seq<Frame>, files: seq<Config>): (r: seq<bool>)
    requires GoodConfig(cfg) && GoodFiles(files) && |frames| == |files|
    ensures |r| == |frames|
  {
    seq(|frames|, t requires 0 <= t < |frames| => CompletedAt(cfg, frames, files, t).Some?)
  }

  /** The syncword of the first frame before n that completed an average in a test mode. */
  function FirstTestSync(frames: seq<Frame>, done: seq<bool>, n: nat): Option<nat>
    requires n <= |frames| == |done|
  {
    if n == 0 then None
    else if FirstTestSync(frames, done, n - 1).Some? then FirstTestSync(frames, done, n - 1)
    else if done[n - 1] && frames[n - 1].header[104] >= 16 then Some(frames[n - 1].syncword)
    else None
  }

  /**
   * Frame t is averaged under the configuration before it and sends under the one after: a packet
   * goes out exactly when an average completes and data_frames is then not zero.
   */
  lemma SentIff(cfg: Config, frames: seq<Frame>, files: seq<Config>, t: nat)
    requires GoodConfig(cfg) && GoodFiles(files) && t < |frames| == |files|
    ensures LoopAt(cfg, frames, files, t + 1).s ==
            Step(ConfigAt(cfg, frames, files, t), LoopAt(cfg, frames, files, t).s, frames[t]).0
    ensures LoopPacketAt(cfg, frames, files, t).Some? <==>
            CompletedAt(cfg, frames, files, t).Some? && ConfigAt(cfg, frames, files, t + 1).dataFrames != 0
  {
    ConfigurationInForce(cfg, frames, files, t);
    ConfigurationInForce(cfg, frames, files, t + 1);
    SentStep(LoopAt(cfg, frames, files, t), frames[t], files[t]);
  }

  lemma SentStep(l: LoopState, f: Frame, files: Config)
    requires Running(l) && GoodConfig(files)
    ensures var (l', packet) := LoopStep(l, f, files);
            && l'.s == Step(l.cfg, l.s, f).0
            && (packet.Some? <==> Completed(l.cfg, l.s, f).Some? && l'.cfg.dataFrames != 0)
  {}

  /** A value in 32 bits that is congruent to x. */
  ghost predicate WrapsTo(v: int, x: int) {
    -0x8000_0000 <= v < 0x8000_0000 && (v - x) % 0x1_0000_0000 == 0
  }

  /** What a test mode makes of output j, `first` being the first test syncword and param the test parameter. */
  ghost predicate TestValue(mode: nat, j: nat, v: int, plain: int, sync: int, first: int, param: int) {
    match mode
    case 8 => v == 0
    case 9 => v == j
    case 10 => WrapsTo(v, param * (sync - first))
    case 14 => WrapsTo(v, param * (sync - first))
    case 15 => v == 10000000
    case _ => v == plain
  }

  /**
   * The packet of an average completed by frame f over some filter calls: its header is the frame's,
   * stamped, and its values are the outputs of the calls, or what the test mode in byte 104 makes of them.
   */
  ghost predicate PacketFor(p: Packet, f: Frame, calls: seq<Call>, first: Option<nat>, j: nat)
    requires calls != [] && GoodCalls(calls, SMURF_SAMPLES, FILTER_RECORDS) && j < SMURF_SAMPLES
  {
    var mode, plain := f.header[104] / 16, Outputs(calls, SMURF_SAMPLES)[j];
    && p.header == StampedHeader(f.header, f.tes, f.unixTime) && |p.payload| == SMURF_SAMPLES
    && if mode == 0 then p.payload[j] == plain
       else first.Some? && TestValue(mode, j, p.payload[j], plain, f.syncword, first.value, f.header[105])
  }

  /** Every packet of every run: made from the average its frame completed, and the first test syncword so far. */
  lemma PacketIs(cfg: Config, frames: seq<Frame>, files: seq<Config>, t: nat, j: nat)
    requires GoodConfig(cfg) && GoodFiles(files) && t < |frames| == |files| && j < SMURF_SAMPLES
    requires LoopPacketAt(cfg, frames, files, t).Some?
    ensures CompletedAt(cfg, frames, files, t).Some?
    ensures PacketFor(LoopPacketAt(cfg, frames, files, t).value, frames[t],
                      CompletedAt(cfg, frames, files, t).value.calls,
                      FirstTestSync(frames, Completions(cfg, frames, files), t + 1), j)
  {
    var p, e, first := PacketParts(cfg, frames, files, t, j);
  }

  lemma PacketParts(cfg: Config, frames: seq<Frame>, files: seq<Config>, t: nat, j: nat)
    returns (p: Packet, e: Emission, first: Option<nat>)
    requires GoodConfig(cfg) && GoodFiles(files) && t < |frames| == |files| && j < SMURF_SAMPLES
    requires LoopPacketAt(cfg, frames, files, t).Some?
    ensures LoopPacketAt(cfg, frames, files, t) == Some(p) && CompletedAt(cfg, frames, files, t) == Some(e)
    ensures first == FirstTestSync(frames, Completions(cfg, frames, files), t + 1)
    ensures Complete(e) && PacketFor(p, frames[t], e.calls, first, j)
  {
    p, e, first := StepPacket(LoopAt(cfg, frames, files, t), frames[t], files[t], j);
    NextSync(cfg, frames, files, t, LoopStep(LoopAt(cfg, frames, files, t), frames[t], files[t]).0);
  }

  lemma NextSync(cfg: Config, frames: seq<Frame>, files: seq<Config>, t: nat, l: LoopState)
    requires GoodConfig(cfg) && GoodFiles(files) && t < |frames| == |files|
    requires l == LoopStep(LoopAt(cfg, frames, files, t), frames[t], files[t]).0
    ensures l.firstSync == FirstTestSync(frames, Completions(cfg, frames, files), t + 1)
  {
    StatesFollow(cfg, frames, files, t);
    var ls, done := StatesTrace(cfg, frames, files);
    TraceFirstSync(cfg, frames, files, ls, done, t + 1);
  }

  lemma StepPacket(l: LoopState, f: Frame, files: Config, j: nat)
    returns (p: Packet, e: Emission, first: Option<nat>)
    requires Running(l) && GoodConfig(files) && j < SMURF_SAMPLES && LoopStep(l, f, files).1.Some?
    ensures LoopStep(l, f, files).1 == Some(p) && LoopStep(l, f, files).0.firstSync == first
    ensures Completed(l.cfg, l.s, f) == Some(e)
    ensures Complete(e) && PacketFor(p, f, e.calls, first, j)
  {
    SentGenerated(l, f, files);
    p, e, first := LoopStep(l, f, files).1.value, Completed(l.cfg, l.s, f).value, LoopStep(l, f, files).0.firstSync;
    GeneratedIs(e, first, j, p);
  }

  lemma SentGenerated(l: LoopState, f: Frame, files: Config)
    requires Running(l) && GoodConfig(files)
    ensures var (l', p) := LoopStep(l, f, files);
            var e := Completed(l.cfg, l.s, f);
            && (e.Some? && TestModeOf(f) != 0 ==> l'.firstSync.Some?)
            && (p.Some? ==> e.Some? && e.value.frame == f && p.value == Generated(e.value, l'.firstSync))
  {}

  lemma ParameterIs(h: Header, f: Field, at: nat)
    requires f == TestParameters && at == 105
    ensures GetField(h, f) == h[at]
  {
    assert Load(h, at + 1, 0) == 0;
  }

  lemma GeneratedIs(e: Emission, first: Option<nat>, j: nat, p: Packet)
    requires Complete(e) && j < SMURF_SAMPLES && (TestModeOf(e.frame) != 0 ==> first.Some?)
    requires p == Generated(e, first)
    ensures PacketFor(p, e.frame, e.calls, first, j)
  {
    var f := e.frame;
    ReadsConfigIs(f);
    ParameterIs(f.header, TestParameters, 105);
    if TestModeOf(f) != 0 {
      TestOutputIs(Outputs(e.calls, SMURF_SAMPLES), TestModeOf(f), f.syncword, first.value, f.header[105], j);
    }
  }

  lemma TestOutputIs(outputs: seq<int>, mode: nat, sync: nat, first: nat, param: nat, j: nat)
    requires j < |outputs| && j < SMURF_SAMPLES
    ensures TestValue(mode, j, TestOutputs(outputs, mode, sync, first, param)[j], outputs[j], sync, first, param)
  {
    Signed32Unique(j, j, 0);
    Signed32Wraps(param * (sync - first));
  }

  lemma Signed32Wraps(x: int)
    ensures WrapsTo(Signed32(x), x)
  {}
}
