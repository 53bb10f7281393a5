/** The frame loop of SmurfProcessor::runThread, one popped frame at a time. */
module Processor {
  import opened Words
  import opened Wrappers
  import opened TesBias
  import opened SmurfPacket
  import opened PhaseUnwrap
  import opened DigitalFilter

  const FILTER_RECORDS := 16

  /** The part of SmurfConfig and of the mask the loop uses, fixed over a run. */
  datatype Config = Config(numAverages: int, order: int, a: seq<real>, b: seq<real>, g: real,
                           dataFrames: int, mask: seq<nat>)

  predicate GoodConfig(cfg: Config) {
    && FitsInt32(cfg.numAverages) && FitsInt32(cfg.dataFrames)
    && |cfg.mask| == SMURF_SAMPLES && GoodMask(cfg.mask)
    && GoodCall(CallOf(cfg, seq(SMURF_SAMPLES, _ => 0)), SMURF_SAMPLES, FILTER_RECORDS)
  }

  function CallOf(cfg: Config, data: seq<int32>): Call {
    Call(data, cfg.order, cfg.a, cfg.b, cfg.g)
  }

  /**
   * A popped frame: the header fields the loop decides on, the header and samples themselves, and
   * what else the loop reads while handling it, the TES bias array and the unix time as they are then.
   */
  datatype FrameRecord = FrameRecord(number: nat, syncword: nat, clear: bool,
                                     header: Header, samples: Samples, tes: Packed, unixTime: nat)

  type Frame = f: FrameRecord | f.number < TWO_32 && f.syncword < TWO_32
    witness FrameRecord(0, 0, false, seq(HEADER_LENGTH, _ => 0), seq(SMURF_RAW_SAMPLES, _ => 0),
                        seq(TES_BIAS_BUFFER_SIZE, _ => 0), 0)

  /** The frame that a header and its samples stand for. */
  function Popped(header: Header, samples: Samples, tes: Packed, unixTime: nat): Frame {
    SpanValues();
    FrameRecord(GetField(header, FrameCounter), GetField(header, ExternalTimeClock) % TWO_32,
                Bit(ControlByte(header), 0), header, samples, tes, unixTime)
  }

  // ---------------------------------------------------------------------------
  // Averaging control
  // ---------------------------------------------------------------------------

  /** What average_control returns, zero to keep averaging, and the counter it leaves. */
  function AverageControl(numAverages: int, counter: nat, lastSync: nat, sync: nat): (r: (nat, nat))
    ensures r.1 < TWO_32
  {
    var c := (counter + 1) % TWO_32;
    if numAverages != 0 then
      if c == numAverages % TWO_32 then (c, 0) else (0, c)
    else if (sync - lastSync) % TWO_32 != 0 then (c, 0)
    else (0, c)
  }

  /** The counters of SmurfHeader. */
  class AverageCounter {
    var averageCounter: nat
    var lastSyncword: nat

    constructor ()
      ensures averageCounter == 0 && lastSyncword == 0
    {
      averageCounter := 0;
      lastSyncword := 0;
    }

    method Control(numAverages: int, sync: nat) returns (cnt: nat)
      modifies this
      ensures (cnt, averageCounter) == AverageControl(numAverages, old(averageCounter), old(lastSyncword), sync)
      ensures lastSyncword == sync
    {
      var delta := (sync - lastSyncword) % TWO_32;
      lastSyncword := sync;
      averageCounter := (averageCounter + 1) % TWO_32;
      cnt := 0;
      if numAverages != 0 {
        if averageCounter == numAverages % TWO_32 {
          cnt := averageCounter;
          averageCounter := 0;
        }
      } else if delta != 0 {
        cnt := averageCounter;
        averageCounter := 0;
      }
    }

    method ClearAverage()
      modifies this
      ensures averageCounter == 0 && lastSyncword == old(lastSyncword)
    {
      averageCounter := 0;
    }
  }

  // ---------------------------------------------------------------------------
  // One frame as a function
  // ---------------------------------------------------------------------------

  datatype State = State(
    last: Samples, frameNumber: nat, firstFrame: bool,
    received: nat, lost: nat, outOfOrder: nat,
    wraps: seq<int32>, calls: seq<Call>, averageCounter: nat, lastSyncword: nat)

  function NoWraps(): (w: seq<int32>)
    ensures |w| == SMURF_SAMPLES
  {
    seq(SMURF_SAMPLES, _ => 0)
  }

  function Initial(): State {
    State(seq(SMURF_RAW_SAMPLES, _ => 0), 0, true, 0, 0, 0, NoWraps(), [], 0, 0)
  }

  predicate Sound(s: State) {
    && |s.wraps| == SMURF_SAMPLES
    && GoodCalls(s.calls, SMURF_SAMPLES, FILTER_RECORDS)
  }

  predicate Discarded(s: State, f: Frame) {
    !s.firstFrame && f.number < s.frameNumber
  }

  /** The unwrapped channel values handed to the filter. */
  function InputData(cfg: Config, s: State, f: Frame): (r: seq<int32>)
    requires GoodConfig(cfg) && Sound(s)
    ensures |r| == SMURF_SAMPLES
  {
    Inputs(NextWraps(s.wraps, f.samples, s.last, cfg.mask), f.samples, cfg.mask)
  }

  function CallsAfter(cfg: Config, s: State, f: Frame): (r: seq<Call>)
    requires GoodConfig(cfg) && Sound(s)
    ensures r != [] && GoodCalls(r, SMURF_SAMPLES, FILTER_RECORDS)
  {
    Push(s.calls, CallOf(cfg, InputData(cfg, s, f)))
  }

  function EndRun(calls: seq<Call>): seq<Call> {
    if Order(calls) == FLAT_AVERAGE then [] else calls
  }

  /** What goes into one packet: its last frame, and the filter calls its output came from. */
  datatype Emission = Emission(frame: Frame, calls: seq<Call>)

  predicate Complete(e: Emission) {
    e.calls != [] && GoodCalls(e.calls, SMURF_SAMPLES, FILTER_RECORDS)
  }

  /** Unwrapping, filtering and averaging control of an accepted frame, and the count average_control returns. */
  function Average(cfg: Config, s: State, f: Frame): (r: (State, nat))
    requires GoodConfig(cfg) && Sound(s)
    ensures Sound(r.0)
  {
    var calls := CallsAfter(cfg, s, f);
    var (cnt, counter) := AverageControl(cfg.numAverages, s.averageCounter, s.lastSyncword, f.syncword);
    (s.(wraps := if f.clear then NoWraps() else NextWraps(s.wraps, f.samples, s.last, cfg.mask),
        averageCounter := if f.clear then 0 else counter,
        lastSyncword := f.syncword,
        calls := if f.clear then [] else calls), cnt)
  }

  /** With the end of a completed average. */
  function Accept(cfg: Config, s: State, f: Frame): (s': State)
    requires GoodConfig(cfg) && Sound(s)
    ensures Sound(s')
  {
    var (s1, cnt) := Average(cfg, s, f);
    if cnt == 0 then s1 else s1.(calls := EndRun(s1.calls))
  }

  /** Loss accounting; the difference of frame numbers wraps at 32 bits. */
  function Counted(s: State, f: Frame): State {
    var s1 := s.(frameNumber := f.number, firstFrame := false);
    if Discarded(s, f) then s1.(outOfOrder := s.outOfOrder + 1)
    else
      s1.(received := s.received + 1,
          lost := if s.firstFrame then s.lost else s.lost + (f.number - s.frameNumber - 1) % TWO_32)
  }

  /** The state after a frame.  One that is discarded still becomes the previous frame. */
  function StateAfter(cfg: Config, s: State, f: Frame): (s': State)
    requires GoodConfig(cfg) && Sound(s)
    ensures Sound(s')
  {
    var counted := Counted(s, f);
    (if Discarded(s, f) then counted else Accept(cfg, counted, f)).(last := f.samples)
  }

  /** The average that a frame completes, if it does. */
  function Completed(cfg: Config, s: State, f: Frame): (e: Option<Emission>)
    requires GoodConfig(cfg) && Sound(s)
    ensures e.Some? ==> Complete(e.value) && e.value.frame == f
  {
    if Discarded(s, f) || Average(cfg, Counted(s, f), f).1 == 0 then None
    else Some(Emission(f, CallsAfter(cfg, Counted(s, f), f)))
  }

  /** The state after a frame, and what it emits to the transmit buffer if anything. */
  function Step(cfg: Config, s: State, f: Frame): (r: (State, Option<Emission>))
    requires GoodConfig(cfg) && Sound(s)
    ensures Sound(r.0) && (r.1.Some? ==> Complete(r.1.value))
  {
    (StateAfter(cfg, s, f), if cfg.dataFrames == 0 then None else Completed(cfg, s, f))
  }

  /** The packet copied into the buffer: the stamped header and the filter's output. */
  function MakePacket(e: Emission): (p: Packet)
    requires Complete(e)
  {
    Packet(StampedHeader(e.frame.header, e.frame.tes, e.frame.unixTime), Outputs(e.calls, SMURF_SAMPLES))
  }

  function PacketOf(e: Option<Emission>): Option<Packet>
    requires e.Some? ==> Complete(e.value)
  {
    if e.Some? then Some(MakePacket(e.value)) else None
  }

  // ---------------------------------------------------------------------------
  // Runs
  // ---------------------------------------------------------------------------

  /** The state after the first n frames. */
  function Run(cfg: Config, frames: seq<Frame>, n: nat): (s: State)
    requires GoodConfig(cfg) && n <= |frames|
    ensures Sound(s)
  {
    if n == 0 then Initial() else Step(cfg, Run(cfg, frames, n - 1), frames[n - 1]).0
  }

  /** The channel values computed at frame t; computed, but not used, at discarded frames too. */
  function DataAt(cfg: Config, frames: seq<Frame>, t: nat): (r: seq<int32>)
    requires GoodConfig(cfg) && t < |frames|
    ensures |r| == SMURF_SAMPLES
  {
    InputData(cfg, Counted(Run(cfg, frames, t), frames[t]), frames[t])
  }

  function EmissionAt(cfg: Config, frames: seq<Frame>, t: nat): (e: Option<Emission>)
    requires GoodConfig(cfg) && t < |frames|
    ensures e.Some? ==> Complete(e.value)
  {
    Step(cfg, Run(cfg, frames, t), frames[t]).1
  }

  function Collect(es: seq<Option<Emission>>): seq<Emission> {
    if es == [] then []
    else
      var last := es[|es| - 1];
      Collect(es[..|es| - 1]) + (if last.Some? then [last.value] else [])
  }

  lemma {:induction false} CollectComplete(es: seq<Option<Emission>>)
    requires forall t :: 0 <= t < |es| && es[t].Some? ==> Complete(es[t].value)
    ensures forall k :: 0 <= k < |Collect(es)| ==> Complete(Collect(es)[k])
  {
    if es != [] {
      CollectComplete(es[..|es| - 1]);
    }
  }

  /** What a run puts in the transmit buffer, in order. */
  function Emitted(cfg: Config, frames: seq<Frame>): (r: seq<Emission>)
    requires GoodConfig(cfg)
    ensures forall k :: 0 <= k < |r| ==> Complete(r[k])
  {
    var es := TraceOf(cfg, frames).emissions;
    CollectComplete(es);
    Collect(es)
  }

  function EmittedPackets(cfg: Config, frames: seq<Frame>): (r: seq<Packet>)
    requires GoodConfig(cfg)
    ensures |r| == |Emitted(cfg, frames)|
    ensures forall k :: 0 <= k < |r| ==> r[k] == MakePacket(Emitted(cfg, frames)[k])
  {
    MakePackets(Emitted(cfg, frames))
  }

  function MakePackets(es: seq<Emission>): (r: seq<Packet>)
    requires forall k :: 0 <= k < |es| ==> Complete(es[k])
    ensures |r| == |es| && forall k :: 0 <= k < |r| ==> r[k] == MakePacket(es[k])
  {
    seq(|es|, k requires 0 <= k < |es| => MakePacket(es[k]))
  }

  /** A run laid out by frame: the states around each frame, its channel values, and what it emits. */
  datatype Trace = Trace(states: seq<State>, data: seq<seq<int32>>, emissions: seq<Option<Emission>>)

  function TraceOf(cfg: Config, frames: seq<Frame>): (tr: Trace)
    requires GoodConfig(cfg)
    ensures |tr.emissions| == |frames|
    ensures forall t :: 0 <= t < |frames| && tr.emissions[t].Some? ==> Complete(tr.emissions[t].value)
  {
    Trace(seq(|frames| + 1, n requires 0 <= n < |frames| + 1 => Run(cfg, frames, n)),
          seq(|frames|, t requires 0 <= t < |frames| => DataAt(cfg, frames, t)),
          seq(|frames|, t requires 0 <= t < |frames| => EmissionAt(cfg, frames, t)))
  }

  /** What a frame with channel values `data` does to the filter's calls and the averaging counter. */
  ghost predicate Averages(cfg: Config, s: State, f: Frame, data: seq<int32>, s': State, e: Option<Emission>) {
    if Discarded(s, f) then
      s'.calls == s.calls && s'.averageCounter == s.averageCounter && s'.lastSyncword == s.lastSyncword && e == None
    else
      var calls := Push(s.calls, CallOf(cfg, data));
      var (cnt, counter) := AverageControl(cfg.numAverages, s.averageCounter, s.lastSyncword, f.syncword);
      && s'.lastSyncword == f.syncword
      && s'.averageCounter == (if f.clear then 0 else counter)
      && s'.calls == (if f.clear then [] else if cnt == 0 then calls else EndRun(calls))
      && e == if cnt == 0 || cfg.dataFrames == 0 then None else Some(Emission(f, calls))
  }

  /** What it does to the wrap counters. */
  ghost predicate Unwraps(cfg: Config, s: State, f: Frame, data: seq<int32>, s': State) {
    && |s.wraps| == |s'.wraps| == |data| == SMURF_SAMPLES
    && forall j: nat :: j < SMURF_SAMPLES && j < |cfg.mask| && cfg.mask[j] < SMURF_RAW_SAMPLES ==>
         var d, p := f.samples[cfg.mask[j]], s.last[cfg.mask[j]];
         && data[j] == Unwrapped(d, NextWrap(s.wraps[j], d, p))
         && s'.wraps[j] == if Discarded(s, f) then s.wraps[j] else if f.clear then 0 else NextWrap(s.wraps[j], d, p)
  }

  /** The frame the loop remembers is the last one popped, discarded or not. */
  ghost predicate Remembers(frames: seq<Frame>, n: nat, s: State)
    requires n <= |frames|
  {
    && s.firstFrame == (n == 0)
    && (n > 0 ==> s.frameNumber == frames[n - 1].number)
    && s.last == if n == 0 then Initial().last else frames[n - 1].samples
  }

  ghost predicate IsTrace(cfg: Config, frames: seq<Frame>, tr: Trace) {
    && |tr.states| == |frames| + 1 && |tr.data| == |tr.emissions| == |frames|
    && tr.states[0] == Initial()
    && (forall t :: 0 <= t < |frames| ==> |tr.data[t]| == SMURF_SAMPLES)
    && (forall n :: 0 <= n <= |frames| ==> Remembers(frames, n, tr.states[n]))
    && (forall t :: 0 <= t < |frames| ==>
          Averages(cfg, tr.states[t], frames[t], tr.data[t], tr.states[t + 1], tr.emissions[t]))
    && (forall t :: 0 <= t < |frames| ==> Unwraps(cfg, tr.states[t], frames[t], tr.data[t], tr.states[t + 1]))
  }

  lemma StepLinks(cfg: Config, s: State, f: Frame)
    requires GoodConfig(cfg) && Sound(s)
    ensures var (s', e) := Step(cfg, s, f);
            var data := InputData(cfg, Counted(s, f), f);
            && Averages(cfg, s, f, data, s', e) && Unwraps(cfg, s, f, data, s')
            && s'.last == f.samples && s'.frameNumber == f.number && !s'.firstFrame
  {}

  lemma {:induction false} RunRemembers(cfg: Config, frames: seq<Frame>, n: nat)
    requires GoodConfig(cfg) && n <= |frames|
    ensures Remembers(frames, n, Run(cfg, frames, n))
  {
    if n > 0 {
      StepLinks(cfg, Run(cfg, frames, n - 1), frames[n - 1]);
    }
  }

  lemma RunsAreTraces(cfg: Config, frames: seq<Frame>)
    requires GoodConfig(cfg)
    ensures IsTrace(cfg, frames, TraceOf(cfg, frames))
  {
    var tr := TraceOf(cfg, frames);
    forall n | 0 <= n <= |frames| ensures Remembers(frames, n, tr.states[n]) {
      RunRemembers(cfg, frames, n);
    }
    forall t | 0 <= t < |frames|
      ensures Averages(cfg, tr.states[t], frames[t], tr.data[t], tr.states[t + 1], tr.emissions[t])
      ensures Unwraps(cfg, tr.states[t], frames[t], tr.data[t], tr.states[t + 1])
    {
      LinkAt(cfg, frames, t);
    }
  }

  lemma LinkAt(cfg: Config, frames: seq<Frame>, t: nat)
    requires GoodConfig(cfg) && t < |frames|
    ensures Averages(cfg, Run(cfg, frames, t), frames[t], DataAt(cfg, frames, t), Run(cfg, frames, t + 1),
                     EmissionAt(cfg, frames, t))
    ensures Unwraps(cfg, Run(cfg, frames, t), frames[t], DataAt(cfg, frames, t), Run(cfg, frames, t + 1))
  {
    StepLinks(cfg, Run(cfg, frames, t), frames[t]);
  }

  // ---------------------------------------------------------------------------
  // The whole loop, with configuration re-reads and generated test outputs
  // ---------------------------------------------------------------------------

  /** What gen_test_mce_data makes of the outputs, `first` being the syncword of its first call. */
  function TestOutputs(outputs: seq<int>, mode: nat, sync: nat, first: nat, param: nat): (r: seq<int>)
    ensures |r| == |outputs|
  {
    if mode == 8 then seq(|outputs|, _ => 0)
    else if mode == 9 then seq(|outputs|, j => Signed32(j))
    else if mode == 10 || mode == 14 then seq(|outputs|, _ => Signed32(param * (sync - first)))
    else if mode == 15 then seq(|outputs|, _ => 10000000)
    else outputs
  }

  predicate ReadsConfig(f: Frame) {
    Bit(ControlByte(f.header), 3)
  }

  function TestModeOf(f: Frame): nat {
    ControlByte(f.header) / 16 % 16
  }

  const REREAD_PERIOD := 5000

  /** The loop's state with the configuration in force, the re-read counter and the test generator's first syncword. */
  datatype LoopState = LoopState(cfg: Config, fast: nat, firstSync: Option<nat>, s: State)

  predicate Running(l: LoopState) {
    GoodConfig(l.cfg) && Sound(l.s)
  }

  /** The configuration after an accepted frame; `files` is what reading the two files would then give. */
  function Reread(cfg: Config, fast: nat, f: Frame, files: Config): Config {
    if ReadsConfig(f) && fast % REREAD_PERIOD == 0 then files else cfg
  }

  function NextFast(fast: nat, f: Frame): nat {
    if ReadsConfig(f) then (fast + 1) % TWO_32 else 0
  }

  function FirstSync(first: Option<nat>, f: Frame): Option<nat> {
    if TestModeOf(f) != 0 && first.None? then Some(f.syncword) else first
  }

  /** The packet, its outputs replaced in a test mode. */
  function Generated(e: Emission, firstSync: Option<nat>): (p: Packet)
    requires Complete(e)
  {
    var p, f := MakePacket(e), e.frame;
    if TestModeOf(f) == 0 || firstSync.None? then p
    else
      var param := GetField(f.header, TestParameters);
      p.(payload := TestOutputs(p.payload, TestModeOf(f), f.syncword, firstSync.value, param))
  }

  /** What is averaged uses the configuration before a re-read, what is sent the one after. */
  function LoopStep(l: LoopState, f: Frame, files: Config): (r: (LoopState, Option<Packet>))
    requires Running(l) && GoodConfig(files)
    ensures Running(r.0)
  {
    var e := Completed(l.cfg, l.s, f);
    var l1 := if Discarded(l.s, f) then l else l.(cfg := Reread(l.cfg, l.fast, f, files), fast := NextFast(l.fast, f));
    var l2 := l1.(firstSync := if e.Some? then FirstSync(l.firstSync, f) else l.firstSync,
                  s := StateAfter(l.cfg, l.s, f));
    (l2, if e.None? || l2.cfg.dataFrames == 0 then None else Some(Generated(e.value, l2.firstSync)))
  }

  /** LoopStep for a frame that is accepted, from its parts. */
  lemma AcceptedStep(l: LoopState, f: Frame, files: Config, p: Samples,
                     counted: State, l': LoopState, packet: Option<Packet>)
    requires Running(l) && GoodConfig(files) && !Discarded(l.s, f) && counted == Counted(l.s, f)
    requires l'.cfg == Reread(l.cfg, l.fast, f, files) && l'.fast == NextFast(l.fast, f)
    requires l'.s.(last := p) == Accept(l.cfg, counted, f) && l'.s.last == f.samples
    requires var cnt := Average(l.cfg, counted, f).1;
             && l'.firstSync == (if cnt == 0 then l.firstSync else FirstSync(l.firstSync, f))
             && packet == if cnt == 0 || l'.cfg.dataFrames == 0 then None
                          else Some(Generated(Emission(f, CallsAfter(l.cfg, counted, f)), l'.firstSync))
    ensures LoopStep(l, f, files) == (l', packet)
  {}

  ghost predicate GoodFiles(files: seq<Config>) {
    forall t :: 0 <= t < |files| ==> GoodConfig(files[t])
  }

  /** The loop after n frames, files[t] being what the configuration files hold at frame t. */
  function LoopAt(cfg: Config, frames: seq<Frame>, files: seq<Config>, n: nat): (l: LoopState)
    requires GoodConfig(cfg) && GoodFiles(files) && n <= |frames| == |files|
    ensures Running(l)
  {
    if n == 0 then LoopState(cfg, 0, None, Initial())
    else LoopStep(LoopAt(cfg, frames, files, n - 1), frames[n - 1], files[n - 1]).0
  }

  function LoopPacketAt(cfg: Config, frames: seq<Frame>, files: seq<Config>, t: nat): Option<Packet>
    requires GoodConfig(cfg) && GoodFiles(files) && t < |frames| == |files|
  {
    LoopStep(LoopAt(cfg, frames, files, t), frames[t], files[t]).1
  }

  function Somes<T>(xs: seq<Option<T>>): seq<T> {
    if xs == [] then []
    else
      var last := xs[|xs| - 1];
      Somes(xs[..|xs| - 1]) + (if last.Some? then [last.value] else [])
  }

  /** The packets of the first n frames. */
  function LoopPackets(cfg: Config, frames: seq<Frame>, files: seq<Config>, n: nat): seq<Packet>
    requires GoodConfig(cfg) && GoodFiles(files) && n <= |frames| == |files|
  {
    Somes(seq(n, t requires 0 <= t < n => LoopPacketAt(cfg, frames, files, t)))
  }

  lemma LoopPacketsStep(cfg: Config, frames: seq<Frame>, files: seq<Config>, n: nat)
    requires GoodConfig(cfg) && GoodFiles(files) && n < |frames| == |files|
    ensures var packet := LoopPacketAt(cfg, frames, files, n);
            LoopPackets(cfg, frames, files, n + 1) ==
            LoopPackets(cfg, frames, files, n) + (if packet.Some? then [packet.value] else [])
  {
    var xs := seq(n, t requires 0 <= t < n => LoopPacketAt(cfg, frames, files, t));
    var ys := seq(n + 1, t requires 0 <= t < n + 1 => LoopPacketAt(cfg, frames, files, t));
    assert ys[..n] == xs;
  }

  /** No generated outputs: test modes below 8 only replace the samples a frame starts with. */
  predicate KeepsOutputs(f: Frame) {
    TestModeOf(f) !in {8, 9, 10, 14, 15}
  }

  /** Where a frame asks for a re-read the files say what is in force, and no frame asks for generated outputs. */
  ghost predicate Fixed(cfg: Config, frames: seq<Frame>, files: seq<Config>) {
    && |frames| == |files|
    && forall t :: 0 <= t < |frames| ==> (ReadsConfig(frames[t]) ==> files[t] == cfg) && KeepsOutputs(frames[t])
  }

  /** Then the loop is the run of the fixed configuration, whatever re-reads happen. */
  lemma FixedConfiguration(cfg: Config, frames: seq<Frame>, files: seq<Config>)
    requires GoodConfig(cfg) && GoodFiles(files) && Fixed(cfg, frames, files)
    ensures var l := LoopAt(cfg, frames, files, |frames|);
            l.cfg == cfg && l.s == Run(cfg, frames, |frames|)
    ensures LoopPackets(cfg, frames, files, |frames|) == EmittedPackets(cfg, frames)
  {
    FixedState(cfg, frames, files, |frames|);
    var ps := seq(|frames|, t requires 0 <= t < |frames| => LoopPacketAt(cfg, frames, files, t));
    var es := TraceOf(cfg, frames).emissions;
    forall t | 0 <= t < |frames| ensures ps[t] == PacketOf(es[t]) {
      FixedPacket(cfg, frames, files, t);
    }
    CollectComplete(es);
    SomesOfPackets(ps, es);
  }

  lemma {:induction false} SomesOfPackets(ps: seq<Option<Packet>>, es: seq<Option<Emission>>)
    requires |ps| == |es| && forall t :: 0 <= t < |es| && es[t].Some? ==> Complete(es[t].value)
    requires forall t :: 0 <= t < |es| ==> ps[t] == PacketOf(es[t])
    requires forall k :: 0 <= k < |Collect(es)| ==> Complete(Collect(es)[k])
    ensures Somes(ps) == MakePackets(Collect(es))
  {
    if es != [] {
      var last := |es| - 1;
      CollectComplete(es[..last]);
      SomesOfPackets(ps[..last], es[..last]);
    }
  }

  lemma {:induction false} FixedState(cfg: Config, frames: seq<Frame>, files: seq<Config>, n: nat)
    requires GoodConfig(cfg) && GoodFiles(files) && Fixed(cfg, frames, files) && n <= |frames|
    ensures var l := LoopAt(cfg, frames, files, n);
            l.cfg == cfg && l.s == Run(cfg, frames, n)
  {
    if n > 0 {
      FixedState(cfg, frames, files, n - 1);
      FixedStep(LoopAt(cfg, frames, files, n - 1), frames[n - 1], files[n - 1]);
    }
  }

  lemma FixedPacket(cfg: Config, frames: seq<Frame>, files: seq<Config>, t: nat)
    requires GoodConfig(cfg) && GoodFiles(files) && Fixed(cfg, frames, files) && t < |frames|
    ensures LoopPacketAt(cfg, frames, files, t) == PacketOf(EmissionAt(cfg, frames, t))
  {
    FixedState(cfg, frames, files, t);
    FixedStep(LoopAt(cfg, frames, files, t), frames[t], files[t]);
  }

  lemma FixedStep(l: LoopState, f: Frame, files: Config)
    requires Running(l) && KeepsOutputs(f) && GoodConfig(files) && (ReadsConfig(f) ==> files == l.cfg)
    ensures var (l', packet) := LoopStep(l, f, files);
            && l'.cfg == l.cfg && l'.s == Step(l.cfg, l.s, f).0
            && packet == PacketOf(Step(l.cfg, l.s, f).1)
  {}

  // ---------------------------------------------------------------------------
  // The class
  // ---------------------------------------------------------------------------

  /** The generator of test outputs (SmurfTestData). */
  class SmurfTestData {
    var init: bool
    var initialSync: nat

    function FirstSync(): Option<nat>
      reads this
    {
      if init then Some(initialSync) else None
    }

    constructor ()
      ensures FirstSync() == None
    {
      init := false;
      initialSync := 0;
    }

    method GenTestMceData(input: array<int32>, mode: nat, sync: nat, param: nat)
      modifies this, input
      ensures FirstSync() == if old(init) then old(FirstSync()) else Some(sync)
      ensures input[..] == TestOutputs(old(input[..]), mode, sync, initialSync, param)
    {
      if !init {
        init := true;
        initialSync := sync;
      }
      if mode == 8 {
        forall j | 0 <= j < input.Length { input[j] := 0; }
      } else if mode == 9 {
        forall j | 0 <= j < input.Length { input[j] := Signed32(j); }
      } else if mode == 10 || mode == 14 {
        forall j | 0 <= j < input.Length { input[j] := Signed32(param * (sync - initialSync)); }
      } else if mode == 15 {
        forall j | 0 <= j < input.Length { input[j] := 10000000; }
      }
    }
  }

  class FrameLoop {
    var cfg: Config
    const b: array<Samples>
    const wrapCounter: array<int32>
    const inputData: array<int32>
    const F: SmurfFilter
    const H: AverageCounter
    const T: SmurfTestData
    var bufn: nat
    var fastInternalCounter: nat
    var frameNumber: nat
    var firstFrame: bool
    var frameRxCnt: nat
    var frameLossCnt: nat
    var frameOutOrderCnt: nat

    ghost predicate Valid()
      reads this, F, F.xd, F.yd
    {
      && GoodConfig(cfg)
      && b.Length == 2 && bufn < 2
      && wrapCounter.Length == inputData.Length == SMURF_SAMPLES
      && wrapCounter != inputData && wrapCounter != F.output && inputData != F.output
      && (b as object) !in {wrapCounter, inputData, F.output, F.xd, F.yd}
      && F.Valid() && F.samples == SMURF_SAMPLES && F.records == FILTER_RECORDS
    }

    /** The state of the averaging, as of a fixed configuration. */
    ghost function Abstract(): (s: State)
      requires Valid()
      reads this, b, wrapCounter, F, F.xd, F.yd, H
      ensures Sound(s)
    {
      State(b[1 - bufn], frameNumber, firstFrame, frameRxCnt, frameLossCnt, frameOutOrderCnt,
            wrapCounter[..], F.calls, H.averageCounter, H.lastSyncword)
    }

    ghost function Loop(): (l: LoopState)
      requires Valid()
      reads this, b, wrapCounter, F, F.xd, F.yd, H, T
      ensures Running(l)
    {
      LoopState(cfg, fastInternalCounter, T.FirstSync(), Abstract())
    }

    constructor (cfg: Config)
      requires GoodConfig(cfg)
      ensures Valid() && Loop() == LoopState(cfg, 0, None, Initial())
    {
      this.cfg := cfg;
      b := new Samples[2](_ => seq(SMURF_RAW_SAMPLES, _ => 0));
      wrapCounter := new int32[SMURF_SAMPLES](_ => 0);
      inputData := new int32[SMURF_SAMPLES](_ => 0);
      F := new SmurfFilter(SMURF_SAMPLES, FILTER_RECORDS);
      H := new AverageCounter();
      T := new SmurfTestData();
      bufn := 0;
      fastInternalCounter := 0;
      frameNumber := 0;
      firstFrame := true;
      frameRxCnt, frameLossCnt, frameOutOrderCnt := 0, 0, 0;
      new;
      assert wrapCounter[..] == NoWraps();
    }

    /**
     * The loop over a finite run of popped frames: what it puts in the transmit buffer.  files[t] is
     * what the configuration files hold at frame t.
     */
    method RunThread(frames: seq<Frame>, files: seq<Config>) returns (packets: seq<Packet>)
      requires Valid() && Loop() == LoopState(cfg, 0, None, Initial())
      requires |files| == |frames| && GoodFiles(files)
      modifies this, b, wrapCounter, inputData, H, T, F, F.xd, F.yd, F.output
      ensures Valid() && Loop() == LoopAt(old(cfg), frames, files, |frames|)
      ensures packets == LoopPackets(old(cfg), frames, files, |frames|)
      ensures Fixed(old(cfg), frames, files) ==> packets == EmittedPackets(old(cfg), frames)
    {
      packets := [];
      for n := 0 to |frames|
        invariant Valid() && Loop() == LoopAt(old(cfg), frames, files, n)
        invariant packets == LoopPackets(old(cfg), frames, files, n)
      {
        var packet := ProcessFrame(frames[n], files[n]);
        LoopPacketsStep(old(cfg), frames, files, n);
        if packet.Some? {
          packets := packets + [packet.value];
        }
      }
      assert Fixed(old(cfg), frames, files) ==> packets == EmittedPackets(old(cfg), frames) by {
        if Fixed(old(cfg), frames, files) {
          FixedConfiguration(old(cfg), frames, files);
        }
      }
    }

    /** The loop body: the new state and the packet are those of LoopStep. */
    method ProcessFrame(f: Frame, files: Config) returns (packet: Option<Packet>)
      requires Valid() && GoodConfig(files)
      modifies this, b, wrapCounter, inputData, H, T, F, F.xd, F.yd, F.output
      ensures Valid()
      ensures (Loop(), packet) == LoopStep(old(Loop()), f, files)
    {
      ghost var before := Loop();
      var discard := CountFrame(f);
      var p := SwapBuffers(f);
      if discard {
        return None;
      }
      ghost var counted := Abstract().(last := p);
      assert counted == Counted(before.s, f);
      packet := AcceptFrame(f, p, files);
      ghost var after := Abstract();
      assert after.last == f.samples;
      assert after.(last := p) == Accept(before.cfg, counted, f);
      AcceptedStep(before, f, files, p, counted, Loop(), packet);
    }

    /** Copies the frame into the buffer not used last; returns what the other one holds. */
    method SwapBuffers(f: Frame) returns (p: Samples)
      requires Valid()
      modifies `bufn, b
      ensures Valid() && p == old(Abstract()).last
      ensures Abstract() == old(Abstract()).(last := f.samples)
    {
      var cur := bufn;
      bufn := if bufn != 0 then 0 else 1;
      b[cur] := f.samples;
      return b[bufn];
    }

    /** Loss accounting; true when the frame is out of order and must be dropped. */
    method CountFrame(f: Frame) returns (discard: bool)
      requires Valid()
      modifies `frameNumber, `firstFrame, `frameRxCnt, `frameLossCnt, `frameOutOrderCnt
      ensures Valid() && discard == Discarded(old(Abstract()), f)
      ensures Abstract() == Counted(old(Abstract()), f)
    {
      var prevFrameNumber := frameNumber;
      frameNumber := f.number;
      if firstFrame {
        firstFrame := false;
      } else {
        if frameNumber < prevFrameNumber {
          frameOutOrderCnt := frameOutOrderCnt + 1;
          return true;
        }
        var delta := (frameNumber - prevFrameNumber - 1) % TWO_32;
        if delta != 0 {
          frameLossCnt := frameLossCnt + delta;
        }
      }
      frameRxCnt := frameRxCnt + 1;
      return false;
    }

    /** The rest of the loop body; p is the previous block of samples. */
    method AcceptFrame(f: Frame, p: Samples, files: Config) returns (packet: Option<Packet>)
      requires Valid() && GoodConfig(files)
      modifies `cfg, `fastInternalCounter, wrapCounter, inputData, H, T, F, F.xd, F.yd, F.output
      ensures Valid()
      ensures cfg == Reread(old(cfg), old(fastInternalCounter), f, files)
      ensures fastInternalCounter == NextFast(old(fastInternalCounter), f)
      ensures Abstract().last == old(Abstract()).last
      ensures var before := old(Abstract()).(last := p);
              var cnt := Average(old(cfg), before, f).1;
              && Abstract().(last := p) == Accept(old(cfg), before, f)
              && T.FirstSync() == (if cnt == 0 then old(T.FirstSync()) else FirstSync(old(T.FirstSync()), f))
              && packet == if cnt == 0 || cfg.dataFrames == 0 then None
                           else Some(Generated(Emission(f, CallsAfter(old(cfg), before, f)), T.FirstSync()))
    {
      ghost var e := Emission(f, CallsAfter(cfg, Abstract().(last := p), f));
      var cnt := AverageFrame(f, p);
      RereadConfig(f, files);
      if cnt == 0 {
        return None;
      }
      EndAverage();
      packet := SendFrame(f, e);
    }

    /** Unwrapping, filter, averaging control and clear; the outputs are left in F.output. */
    method AverageFrame(f: Frame, p: Samples) returns (cnt: nat)
      requires Valid()
      modifies wrapCounter, inputData, H, F, F.xd, F.yd, F.output
      ensures Valid()
      ensures (Abstract().(last := p), cnt) == Average(cfg, old(Abstract()).(last := p), f)
      ensures F.output[..] == Outputs(CallsAfter(cfg, old(Abstract()).(last := p), f), SMURF_SAMPLES)
    {
      UnwrapFrame(f.samples, p, cfg.mask, wrapCounter, inputData);
      F.Filter(CallOf(cfg, inputData[..]));
      cnt := H.Control(cfg.numAverages, f.syncword);
      if f.clear {
        ClearWraps();
        H.ClearAverage();
        F.ClearFilter();
      }
    }

    /** With the read-config bit held the files are read again every 5000 frames. */
    method RereadConfig(f: Frame, files: Config)
      requires Valid() && GoodConfig(files)
      modifies `cfg, `fastInternalCounter
      ensures Valid() && Abstract() == old(Abstract())
      ensures cfg == Reread(old(cfg), old(fastInternalCounter), f, files)
      ensures fastInternalCounter == NextFast(old(fastInternalCounter), f)
    {
      if ReadsConfig(f) {
        var due := fastInternalCounter % REREAD_PERIOD == 0;
        fastInternalCounter := (fastInternalCounter + 1) % TWO_32;
        if due {
          cfg := files;
        }
      } else {
        fastInternalCounter := 0;
      }
    }

    method EndAverage()
      requires Valid()
      modifies F, F.xd, F.yd
      ensures Valid() && Abstract() == old(Abstract()).(calls := EndRun(old(Abstract()).calls))
    {
      F.EndRun();
    }

    /** Puts in test outputs, and makes the packet if any are wanted. */
    method SendFrame(f: Frame, ghost e: Emission) returns (packet: Option<Packet>)
      requires Valid() && Complete(e) && e.frame == f && F.output[..] == Outputs(e.calls, SMURF_SAMPLES)
      modifies T, F.output
      ensures Valid() && Abstract() == old(Abstract())
      ensures T.FirstSync() == FirstSync(old(T.FirstSync()), f)
      ensures packet == if cfg.dataFrames == 0 then None else Some(Generated(e, T.FirstSync()))
    {
      if TestModeOf(f) != 0 {
        T.GenTestMceData(F.output, TestModeOf(f), f.syncword, GetField(f.header, TestParameters));
      }
      if cfg.dataFrames == 0 {
        return None;
      }
      return Some(Packet(StampedHeader(f.header, f.tes, f.unixTime), F.output[..]));
    }

    method ClearWraps()
      requires wrapCounter.Length == SMURF_SAMPLES
      modifies wrapCounter
      ensures wrapCounter[..] == NoWraps()
    {
      forall j | 0 <= j < SMURF_SAMPLES {
        wrapCounter[j] := 0;
      }
    }
  }
}
