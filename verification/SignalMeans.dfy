/** From the true signal to the payload: unwrapping and flat averaging over whole runs. */
module SignalMeans {
  import opened Words
  import opened TesBias
  import opened SmurfPacket
  import opened PhaseUnwrap
  import opened DigitalFilter
  import opened FilterLaws
  import opened Processor
  import opened Windows

  /** x[t] is the true integer signal of raw channel c at frame t; the frames deliver it modulo 2^16. */
  ghost predicate Delivers(frames: seq<Frame>, c: nat, x: seq<int>)
    requires c < SMURF_RAW_SAMPLES
  {
    |x| == |frames| && forall t :: 0 <= t < |frames| ==> frames[t].samples[c] == Signed16(x[t])
  }

  /** From each popped frame to the next the signal moves by at most 0x1FFF. */
  ghost predicate MovesSlowly(x: seq<int>) {
    forall t :: 0 < t < |x| ==> -0x1FFF <= x[t] - x[t - 1] <= 0x1FFF
  }

  /**
   * The number of turns taken as zero at frame n: that of the first frame, or of the last frame
   * that cleared, plus the turns made in steps into discarded frames, which are missed.
   */
  function Anchor(frames: seq<Frame>, x: seq<int>, n: nat): int
    requires n <= |frames| == |x| && |frames| > 0
  {
    if n == 0 then Turns(x[0])
    else
      NextAnchor(Anchor(frames, x, n - 1), Accepted(frames, n - 1), frames[n - 1].clear,
                 if n == 1 then x[0] else x[n - 2], x[n - 1])
  }

  /** What a frame does to the anchor when the signal goes from x to y. */
  function NextAnchor(anchor: int, accepted: bool, clear: bool, x: int, y: int): int {
    if !accepted then anchor + Turns(y) - Turns(x)
    else if clear then Turns(y)
    else anchor
  }

  /** The wrap counter that stands for the turns of x since an anchor, and the value it then gives x. */
  function WrapFor(x: int, anchor: int): int32 {
    Signed32(TWO_16 * (Turns(x) - anchor))
  }

  function ShiftedValue(x: int, anchor: int): int32 {
    Signed32(x - TWO_16 * anchor)
  }

  // ---------------------------------------------------------------------------
  // One channel through a run
  // ---------------------------------------------------------------------------

  /** The wrap counters and the values of one channel, frame by frame. */
  ghost predicate ChannelRun(frames: seq<Frame>, c: nat, wrap: seq<int32>, value: seq<int32>)
    requires c < SMURF_RAW_SAMPLES
  {
    && |wrap| == |frames| + 1 && |value| == |frames| && wrap[0] == 0
    && forall t :: 0 <= t < |frames| ==> ChannelLink(frames, c, t, wrap[t], wrap[t + 1], value[t])
  }

  ghost predicate ChannelLink(frames: seq<Frame>, c: nat, t: nat, wrap: int32, wrap': int32, value: int32)
    requires c < SMURF_RAW_SAMPLES && t < |frames|
  {
    var d, p := frames[t].samples[c], if t == 0 then 0 else frames[t - 1].samples[c];
    && value == Unwrapped(d, NextWrap(wrap, d, p))
    && wrap' == if !Accepted(frames, t) then wrap else if frames[t].clear then 0 else NextWrap(wrap, d, p)
  }

  lemma TracesHoldChannels(cfg: Config, frames: seq<Frame>, tr: Trace, j: nat) returns (wrap: seq<int32>,
                           value: seq<int32>)
    requires GoodConfig(cfg) && IsTrace(cfg, frames, tr) && j < SMURF_SAMPLES
    ensures ChannelRun(frames, cfg.mask[j], wrap, value)
    ensures forall t :: 0 <= t < |frames| ==> tr.data[t][j] == value[t]
  {
    wrap := seq(|frames| + 1, n requires 0 <= n < |frames| + 1 =>
              if j < |tr.states[n].wraps| then tr.states[n].wraps[j] else 0);
    value := seq(|frames|, t requires 0 <= t < |frames| => tr.data[t][j]);
    forall t | 0 <= t < |frames|
      ensures ChannelLink(frames, cfg.mask[j], t, wrap[t], wrap[t + 1], value[t])
    {
      assert Unwraps(cfg, tr.states[t], frames[t], tr.data[t], tr.states[t + 1]);
      assert Remembers(frames, t, tr.states[t]);
    }
  }

  /**
   * For every run whatever, slow or not: wrap counters stay multiples of 2^16, so each value
   * computed is congruent to the raw sample.
   */
  lemma {:induction false} ValuesCongruent(frames: seq<Frame>, c: nat, wrap: seq<int32>, value: seq<int32>, t: nat)
    requires c < SMURF_RAW_SAMPLES && ChannelRun(frames, c, wrap, value) && t < |frames|
    ensures wrap[t] % TWO_16 == 0 && wrap[t + 1] % TWO_16 == 0
    ensures Signed16(value[t]) == frames[t].samples[c]
  {
    if t > 0 {
      ValuesCongruent(frames, c, wrap, value, t - 1);
    }
    assert ChannelLink(frames, c, t, wrap[t], wrap[t + 1], value[t]);
    CongruentStep(frames[t].samples[c], if t == 0 then 0 else frames[t - 1].samples[c], wrap[t]);
  }

  lemma DataCongruent(cfg: Config, frames: seq<Frame>, t: nat, j: nat)
    requires GoodConfig(cfg) && t < |frames| && j < SMURF_SAMPLES
    ensures Signed16(DataAt(cfg, frames, t)[j]) == frames[t].samples[cfg.mask[j]]
  {
    RunsAreTraces(cfg, frames);
    var wrap, value := TracesHoldChannels(cfg, frames, TraceOf(cfg, frames), j);
    ValuesCongruent(frames, cfg.mask[j], wrap, value, t);
    assert TraceOf(cfg, frames).data[t][j] == value[t];
  }

  predicate WholeTurns(wraps: seq<int32>) {
    forall j :: 0 <= j < |wraps| ==> wraps[j] % TWO_16 == 0
  }

  /** The same through the whole loop, whatever configurations and masks it reads on the way. */
  lemma LoopDataCongruent(cfg: Config, frames: seq<Frame>, files: seq<Config>, t: nat, j: nat)
    requires GoodConfig(cfg) && GoodFiles(files) && t < |frames| == |files| && j < SMURF_SAMPLES
    ensures var l, f := LoopAt(cfg, frames, files, t), frames[t];
            && WholeTurns(l.s.wraps)
            && Signed16(InputData(l.cfg, Counted(l.s, f), f)[j]) == f.samples[l.cfg.mask[j]]
  {
    LoopWraps(cfg, frames, files, t);
    var l := LoopAt(cfg, frames, files, t);
    StateCongruent(l.cfg, l.s, frames[t], j);
  }

  lemma {:induction false} LoopWraps(cfg: Config, frames: seq<Frame>, files: seq<Config>, n: nat)
    requires GoodConfig(cfg) && GoodFiles(files) && n <= |frames| == |files|
    ensures WholeTurns(LoopAt(cfg, frames, files, n).s.wraps)
  {
    if n > 0 {
      LoopWraps(cfg, frames, files, n - 1);
      var l, f := LoopAt(cfg, frames, files, n - 1), frames[n - 1];
      forall j: nat | j < SMURF_SAMPLES ensures StateAfter(l.cfg, l.s, f).wraps[j] % TWO_16 == 0 {
        StateCongruent(l.cfg, l.s, f, j);
      }
    }
  }

  lemma StateCongruent(cfg: Config, s: State, f: Frame, j: nat)
    requires GoodConfig(cfg) && Sound(s) && WholeTurns(s.wraps) && j < SMURF_SAMPLES
    ensures Signed16(InputData(cfg, Counted(s, f), f)[j]) == f.samples[cfg.mask[j]]
    ensures StateAfter(cfg, s, f).wraps[j] % TWO_16 == 0
  {
    StepLinks(cfg, s, f);
    CongruentStep(f.samples[cfg.mask[j]], s.last[cfg.mask[j]], s.wraps[j]);
  }

  /** One frame for one channel, on values alone. */
  lemma ChannelStep(x: int, y: int, anchor: int, accepted: bool, clear: bool)
    requires -0x1FFF <= y - x <= 0x1FFF
    ensures var d, p, wrap := Signed16(y), Signed16(x), WrapFor(x, anchor);
            && Unwrapped(d, NextWrap(wrap, d, p)) == ShiftedValue(y, anchor)
            && (if !accepted then wrap else if clear then 0 else NextWrap(wrap, d, p)) ==
               WrapFor(y, NextAnchor(anchor, accepted, clear, x, y))
  {
    AnchoredStep(x, y, anchor, WrapFor(x, anchor));
  }

  lemma FirstStep(y: int)
    ensures NextWrap(0, Signed16(y), 0) == 0 == WrapFor(y, Turns(y))
    ensures Unwrapped(Signed16(y), 0) == ShiftedValue(y, Turns(y))
  {
    SampleAndTurns(y);
  }

  /**
   * The law of unwrapping for every run of a slow signal, with clears and discarded frames: the
   * wrap counter holds the turns made since the anchor, and the value computed at a frame is the
   * true one less 2^16 times the anchor, in 32 bits.
   */
  lemma {:induction false} ValuesFollowSignal(frames: seq<Frame>, c: nat, wrap: seq<int32>, value: seq<int32>,
                                              x: seq<int>, t: nat)
    requires c < SMURF_RAW_SAMPLES && ChannelRun(frames, c, wrap, value) && t < |frames|
    requires Delivers(frames, c, x) && MovesSlowly(x)
    ensures wrap[t + 1] == WrapFor(x[t], Anchor(frames, x, t + 1))
    ensures value[t] == ShiftedValue(x[t], Anchor(frames, x, t))
  {
    assert ChannelLink(frames, c, t, wrap[t], wrap[t + 1], value[t]);
    if t > 0 {
      ValuesFollowSignal(frames, c, wrap, value, x, t - 1);
      ChannelStep(x[t - 1], x[t], Anchor(frames, x, t), Accepted(frames, t), frames[t].clear);
    } else {
      FirstStep(x[0]);
    }
  }

  // ---------------------------------------------------------------------------
  // What discarded frames do to later values
  // ---------------------------------------------------------------------------

  predicate NoClear(frames: seq<Frame>, u: nat, v: nat)
    requires u <= v <= |frames|
  {
    forall t :: u <= t < v && Accepted(frames, t) ==> !frames[t].clear
  }

  /** The turns the signal makes in the steps into discarded frames from u up to v. */
  function MissedTurns(frames: seq<Frame>, x: seq<int>, u: nat, v: nat): int
    requires u <= v <= |frames| == |x|
  {
    if u == v then 0
    else
      MissedTurns(frames, x, u, v - 1)
      + (if Accepted(frames, v - 1) then 0 else Turns(x[v - 1]) - Turns(x[v - 2]))
  }

  lemma {:induction false} AnchorMoves(frames: seq<Frame>, x: seq<int>, u: nat, v: nat)
    requires u <= v <= |frames| == |x| && |frames| > 0 && NoClear(frames, u, v)
    ensures Anchor(frames, x, v) == Anchor(frames, x, u) + MissedTurns(frames, x, u, v)
  {
    if u < v {
      AnchorMoves(frames, x, u, v - 1);
    }
  }

  /** A distance less 2^16 for each missed turn, in 32 bits, and so the same exactly when they cancel out. */
  predicate LosesTurns(drift: int, missed: int) {
    && (drift + TWO_16 * missed) % TWO_32 == 0
    && (drift % TWO_32 == 0 <==> missed % TWO_16 == 0)
  }

  /** How much further channel j's value is from the signal at frame v than at frame u. */
  function Drift(cfg: Config, frames: seq<Frame>, x: seq<int>, j: nat, u: nat, v: nat): int
    requires GoodConfig(cfg) && j < SMURF_SAMPLES && u < |frames| && v < |frames| && |x| == |frames|
  {
    (DataAt(cfg, frames, v)[j] - x[v]) - (DataAt(cfg, frames, u)[j] - x[u])
  }

  /**
   * For every run of a slow signal and any two frames with no clear in between: from one to the other
   * the values lose 2^16 against the signal for each turn made going into a discarded frame.  So they
   * keep their distance from the signal, in 32 bits, exactly when those turns cancel out.
   */
  lemma DiscardMissesTurns(cfg: Config, frames: seq<Frame>, x: seq<int>, j: nat, u: nat, v: nat)
    requires GoodConfig(cfg) && j < SMURF_SAMPLES && u <= v < |frames| && NoClear(frames, u, v)
    requires Delivers(frames, cfg.mask[j], x) && MovesSlowly(x)
    ensures LosesTurns(Drift(cfg, frames, x, j, u, v), MissedTurns(frames, x, u, v))
    ensures FitsInt32(x[u] - TWO_16 * Anchor(frames, x, u)) && FitsInt32(x[v] - TWO_16 * Anchor(frames, x, v)) ==>
            Drift(cfg, frames, x, j, u, v) == -TWO_16 * MissedTurns(frames, x, u, v)
  {
    ValueAt(cfg, frames, x, j, u);
    ValueAt(cfg, frames, x, j, v);
    AnchorMoves(frames, x, u, v);
    DriftOfValues(x[u], Anchor(frames, x, u), x[v], Anchor(frames, x, v),
                  Drift(cfg, frames, x, j, u, v), MissedTurns(frames, x, u, v));
  }

  lemma ValueAt(cfg: Config, frames: seq<Frame>, x: seq<int>, j: nat, t: nat)
    requires GoodConfig(cfg) && j < SMURF_SAMPLES && t < |frames|
    requires Delivers(frames, cfg.mask[j], x) && MovesSlowly(x)
    ensures DataAt(cfg, frames, t)[j] == ShiftedValue(x[t], Anchor(frames, x, t))
  {
    RunsAreTraces(cfg, frames);
    var wrap, value := TracesHoldChannels(cfg, frames, TraceOf(cfg, frames), j);
    ValuesFollowSignal(frames, cfg.mask[j], wrap, value, x, t);
    assert TraceOf(cfg, frames).data[t][j] == value[t];
  }

  lemma DriftOfValues(x: int, a: int, y: int, b: int, drift: int, missed: int)
    requires drift == (ShiftedValue(y, b) - y) - (ShiftedValue(x, a) - x) && b == a + missed
    ensures LosesTurns(drift, missed)
    ensures FitsInt32(x - TWO_16 * a) && FitsInt32(y - TWO_16 * b) ==> drift == -TWO_16 * missed
  {
    var m, n := Signed32Distance(x - TWO_16 * a), Signed32Distance(y - TWO_16 * b);
    assert drift + TWO_16 * missed == TWO_32 * (m - n);
  }

  /** How many times 2^32 a number lies above its 32-bit reading. */
  function Signed32Distance(x: int): (k: int)
    ensures x == Signed32(x) + TWO_32 * k
  {
    (x + 0x8000_0000) / TWO_32
  }

  /** One discarded frame between two accepted ones: the distance is kept iff the step into it made no turn. */
  lemma OneDiscard(cfg: Config, frames: seq<Frame>, x: seq<int>, j: nat, t: nat)
    requires GoodConfig(cfg) && j < SMURF_SAMPLES && 0 < t < |frames| - 1
    requires Delivers(frames, cfg.mask[j], x) && MovesSlowly(x)
    requires !Accepted(frames, t) && Accepted(frames, t - 1) && !frames[t - 1].clear
    ensures Drift(cfg, frames, x, j, t - 1, t + 1) % TWO_32 == 0 <==> Turns(x[t]) == Turns(x[t - 1])
  {
    DiscardMissesTurns(cfg, frames, x, j, t - 1, t + 1);
    assert MissedTurns(frames, x, t - 1, t) == 0;
    OneTurn(x[t - 1], x[t], MissedTurns(frames, x, t - 1, t + 1));
  }

  lemma OneTurn(x: int, y: int, missed: int)
    requires -0x1FFF <= y - x <= 0x1FFF && missed == Turns(y) - Turns(x)
    ensures missed % TWO_16 == 0 <==> Turns(y) == Turns(x)
  {}

  /** A received frame with this number and all samples alike, its header otherwise zero. */
  function LevelFrame(number: nat, sample: int16): Frame {
    Popped(SetField(seq(HEADER_LENGTH, _ => 0), FrameCounter, number), seq(SMURF_RAW_SAMPLES, _ => sample),
           seq(TES_BIAS_BUFFER_SIZE, _ => 0), 0)
  }

  lemma LevelFrameIs(number: nat, sample: int16)
    requires number < TWO_32
    ensures var f := LevelFrame(number, sample);
            f.number == number && !f.clear && f.samples == seq(SMURF_RAW_SAMPLES, _ => sample)
  {
    var zeros: Header := seq(HEADER_LENGTH, _ => 0);
    NumberedHeader(zeros, SetField(zeros, FrameCounter, number), number, FrameCounter, ControlField);
  }

  lemma NumberedHeader(h: Header, h': Header, number: nat, f: Field, g: Field)
    requires number < TWO_32 && f == FrameCounter && g == ControlField && h' == SetField(h, f, number)
    requires h == seq(HEADER_LENGTH, _ => 0)
    ensures GetField(h', f) == number && GetField(h', g) == 0
  {
    SetFieldLaw(h, f, number, f);
    SetFieldLaw(h, f, number, g);
    SpanValues();
    assert GetField(h, g) == h[104] + 256 * Load(h, 105, 0);
  }

  /** An input on which it fails: the signal passes 0x8000 in a step into an out-of-order frame. */
  lemma DiscardedTurnShiftsValues(cfg: Config, j: nat) returns (frames: seq<Frame>, x: seq<int>)
    requires GoodConfig(cfg) && j < SMURF_SAMPLES
    ensures frames == [LevelFrame(5, 0x7000), LevelFrame(3, -0x7F00), LevelFrame(6, -0x7E00)]
    ensures !Accepted(frames, 1) && Accepted(frames, 2)
    ensures Delivers(frames, cfg.mask[j], x) && MovesSlowly(x)
    ensures Drift(cfg, frames, x, j, 0, 2) == -TWO_16
  {
    frames := [LevelFrame(5, 0x7000), LevelFrame(3, -0x7F00), LevelFrame(6, -0x7E00)];
    x := [0x7000, 0x8100, 0x8200];
    LevelFrameIs(5, 0x7000);
    LevelFrameIs(3, -0x7F00);
    LevelFrameIs(6, -0x7E00);
    ThreeFramesDrift(cfg, frames, x, j);
  }

  lemma ThreeFramesDrift(cfg: Config, frames: seq<Frame>, x: seq<int>, j: nat)
    requires GoodConfig(cfg) && j < SMURF_SAMPLES && |frames| == 3 && x == [0x7000, 0x8100, 0x8200]
    requires frames[0].number == 5 && frames[1].number == 3 && frames[2].number == 6
    requires !frames[0].clear && !frames[1].clear
    requires forall c :: 0 <= c < SMURF_RAW_SAMPLES ==>
               frames[0].samples[c] == 0x7000 && frames[1].samples[c] == -0x7F00 && frames[2].samples[c] == -0x7E00
    ensures Delivers(frames, cfg.mask[j], x) && MovesSlowly(x)
    ensures Drift(cfg, frames, x, j, 0, 2) == -TWO_16
  {
    assert Signed16(0x7000) == 0x7000 && Signed16(0x8100) == -0x7F00 && Signed16(0x8200) == -0x7E00;
    DiscardMissesTurns(cfg, frames, x, j, 0, 2);
    AnchorMoves(frames, x, 0, 2);
    assert MissedTurns(frames, x, 0, 1) == 0;
    assert Turns(0x7000) == 0 && Turns(0x8100) == 1;
  }

  // ---------------------------------------------------------------------------
  // Payloads
  // ---------------------------------------------------------------------------

  /** Sum over a window of the signal less its anchor, each term in 32 bits. */
  function AnchoredTotal(frames: seq<Frame>, x: seq<int>, w: seq<nat>): int
    requires |frames| == |x| && TimesBelow(w, |frames|)
  {
    if w == [] then 0
    else
      var t := w[|w| - 1];
      AnchoredTotal(frames, x, w[..|w| - 1]) + ShiftedValue(x[t], Anchor(frames, x, t))
  }

  lemma {:induction false} SumIsTotal(cfg: Config, frames: seq<Frame>, data: seq<seq<int32>>,
                                      x: seq<int>, j: nat, w: seq<nat>)
    requires |data| == |frames| == |x| && TimesBelow(w, |frames|)
    requires forall t :: 0 <= t < |frames| ==> j < |data[t]| && data[t][j] == ShiftedValue(x[t], Anchor(frames, x, t))
    ensures Sum(CallsOf(cfg, data, w), j) == AnchoredTotal(frames, x, w)
  {
    if w != [] {
      var last := |w| - 1;
      SumIsTotal(cfg, frames, data, x, j, w[..last]);
      assert CallsOf(cfg, data, w)[..last] == CallsOf(cfg, data, w[..last]);
    }
  }

  /** The filter output over a window of frames. */
  lemma WindowMean(cfg: Config, frames: seq<Frame>, tr: Trace, x: seq<int>, j: nat, w: seq<nat>)
    requires GoodConfig(cfg) && cfg.order == FLAT_AVERAGE && IsTrace(cfg, frames, tr) && j < SMURF_SAMPLES
    requires Delivers(frames, cfg.mask[j], x) && MovesSlowly(x)
    requires TimesBelow(w, |frames|) && 0 < |w| < TWO_32
    ensures Output(CallsOf(cfg, tr.data, w), j) == TruncatedQuotient(AnchoredTotal(frames, x, w), |w|)
  {
    var wrap, value := TracesHoldChannels(cfg, frames, tr, j);
    forall t | 0 <= t < |frames| ensures tr.data[t][j] == ShiftedValue(x[t], Anchor(frames, x, t)) {
      ValuesFollowSignal(frames, cfg.mask[j], wrap, value, x, t);
    }
    SumIsTotal(cfg, frames, tr.data, x, j, w);
    FlatOutputIsMean(CallsOf(cfg, tr.data, w), j, -0x8000_0000, 0x7fff_ffff);
  }

  /**
   * End to end in block-average mode, for every run of a slow signal: payload value j of the k-th
   * packet is the truncated mean, over exactly the frames of the k-th sent window, of the true
   * signal less its anchor.  With a set number of averages the window has that many frames.
   */
  lemma PayloadIsMean(cfg: Config, frames: seq<Frame>, x: seq<int>, k: nat, j: nat)
    requires GoodConfig(cfg) && cfg.order == FLAT_AVERAGE && k < |EmittedPackets(cfg, frames)| && j < SMURF_SAMPLES
    requires Delivers(frames, cfg.mask[j], x) && MovesSlowly(x)
    ensures var ws := SentWindows(cfg, frames);
            && k < |ws| && WindowBelow(ws[k], |frames|)
            && (cfg.numAverages != 0 ==> |ws[k]| == cfg.numAverages % TWO_32)
            && (|ws[k]| < TWO_32 ==>
                EmittedPackets(cfg, frames)[k].payload[j] ==
                TruncatedQuotient(AnchoredTotal(frames, x, ws[k]), |ws[k]|))
  {
    PayloadIsOutput(cfg, frames, k, j);
    if cfg.numAverages != 0 {
      WindowSizes(cfg, frames, |frames|);
    }
    var w := SentWindows(cfg, frames)[k];
    RunsAreTraces(cfg, frames);
    if |w| < TWO_32 {
      WindowMean(cfg, frames, TraceOf(cfg, frames), x, j, w);
    }
  }

  lemma PayloadIsOutput(cfg: Config, frames: seq<Frame>, k: nat, j: nat)
    requires GoodConfig(cfg) && cfg.order == FLAT_AVERAGE && k < |EmittedPackets(cfg, frames)| && j < SMURF_SAMPLES
    ensures var ws := SentWindows(cfg, frames);
            var calls := Emitted(cfg, frames)[k].calls;
            && k < |ws| && WindowBelow(ws[k], |frames|)
            && calls == CallsOf(cfg, TraceOf(cfg, frames).data, ws[k])
            && EmittedPackets(cfg, frames)[k].payload[j] == Output(calls, j)
  {
    EmittedAreWindows(cfg, frames);
    assert EmittedPackets(cfg, frames)[k] == MakePacket(Emitted(cfg, frames)[k]);
  }

  // ---------------------------------------------------------------------------
  // Without discarded frames the anchor is one constant per window
  // ---------------------------------------------------------------------------

  predicate NoneDiscarded(frames: seq<Frame>) {
    forall t :: 0 <= t < |frames| ==> Accepted(frames, t)
  }

  /** Consecutive frames, none but the last with the clear bit. */
  predicate Unbroken(frames: seq<Frame>, w: seq<nat>)
    requires TimesBelow(w, |frames|)
  {
    forall i :: 0 <= i < |w| - 1 ==> w[i + 1] == w[i] + 1 && !frames[w[i]].clear
  }

  ghost predicate AllUnbroken(frames: seq<Frame>, ws: seq<seq<nat>>) {
    forall k :: 0 <= k < |ws| ==> TimesBelow(ws[k], |frames|) && Unbroken(frames, ws[k])
  }

  /** The open window runs up to the frame before n, without a clear. */
  ghost predicate OpenUpTo(frames: seq<Frame>, open: seq<nat>, n: nat)
    requires n <= |frames|
  {
    && TimesBelow(open, |frames|) && Unbroken(frames, open)
    && (open != [] ==> n > 0 && open[|open| - 1] == n - 1 && !frames[n - 1].clear)
  }

  ghost predicate UnbrokenLedger(frames: seq<Frame>, l: Ledger, n: nat)
    requires n <= |frames|
  {
    OpenUpTo(frames, l.open, n) && AllUnbroken(frames, Sent(l.closed))
  }

  lemma {:induction false} WindowsUnbroken(rule: Rule, frames: seq<Frame>, n: nat)
    requires NoneDiscarded(frames) && n <= |frames|
    ensures UnbrokenLedger(frames, LedgerAt(rule, frames, n), n)
  {
    if n > 0 {
      WindowsUnbroken(rule, frames, n - 1);
      AdvanceUnbroken(rule, frames, LedgerAt(rule, frames, n - 1), LedgerAt(rule, frames, n), n);
    }
  }

  lemma AdvanceUnbroken(rule: Rule, frames: seq<Frame>, l: Ledger, m: Ledger, n: nat)
    requires NoneDiscarded(frames) && 0 < n <= |frames| && UnbrokenLedger(frames, l, n - 1)
    requires m == Advance(rule, frames, l, n - 1)
    ensures UnbrokenLedger(frames, m, n)
  {
    var t := n - 1;
    var done := rule(frames[t], l.sync, |l.open| + 1);
    assert Accepted(frames, t);
    ExtendOpen(frames, l.open, t);
    EnterGrows(l, frames[t], t, done);
    AppendUnbroken(frames, Sent(l.closed), l.open + [t]);
  }

  lemma ExtendOpen(frames: seq<Frame>, open: seq<nat>, t: nat)
    requires t < |frames| && OpenUpTo(frames, open, t)
    ensures TimesBelow(open + [t], |frames|) && Unbroken(frames, open + [t])
  {}

  lemma AppendUnbroken(frames: seq<Frame>, ws: seq<seq<nat>>, w: seq<nat>)
    requires AllUnbroken(frames, ws) && TimesBelow(w, |frames|) && Unbroken(frames, w)
    ensures AllUnbroken(frames, ws + [w])
  {}

  lemma {:induction false} AnchorConstant(frames: seq<Frame>, x: seq<int>, w: seq<nat>, i: nat)
    requires NoneDiscarded(frames) && |frames| == |x|
    requires TimesBelow(w, |frames|) && Unbroken(frames, w) && i < |w|
    ensures Anchor(frames, x, w[i]) == Anchor(frames, x, w[0])
  {
    if i > 0 {
      AnchorConstant(frames, x, w, i - 1);
      assert w[i - 1 + 1] == w[i - 1] + 1 && Accepted(frames, w[i - 1]);
    }
  }

  /** Sum over a window of the true signal less one constant. */
  function ShiftedTotal(x: seq<int>, w: seq<nat>, shift: int): int
    requires TimesBelow(w, |x|)
  {
    if w == [] then 0 else ShiftedTotal(x, w[..|w| - 1], shift) + (x[w[|w| - 1]] - shift)
  }

  ghost predicate ShiftedFits(x: seq<int>, w: seq<nat>, shift: int)
    requires TimesBelow(w, |x|)
  {
    forall i :: 0 <= i < |w| ==> FitsInt32(x[w[i]] - shift)
  }

  lemma {:induction false} TotalsMeet(frames: seq<Frame>, x: seq<int>, w: seq<nat>, turns: int)
    requires |frames| == |x| && TimesBelow(w, |frames|)
    requires ShiftedFits(x, w, TWO_16 * turns) && forall i :: 0 <= i < |w| ==> Anchor(frames, x, w[i]) == turns
    ensures AnchoredTotal(frames, x, w) == ShiftedTotal(x, w, TWO_16 * turns)
  {
    if w != [] {
      var last := |w| - 1;
      TotalsMeet(frames, x, w[..last], turns);
      Signed32Unique(x[w[last]] - TWO_16 * turns, x[w[last]] - TWO_16 * turns, 0);
    }
  }

  lemma OneShiftPerWindow(frames: seq<Frame>, x: seq<int>, w: seq<nat>)
    requires NoneDiscarded(frames) && |frames| == |x|
    requires w != [] && TimesBelow(w, |frames|) && Unbroken(frames, w)
    ensures var shift := TWO_16 * Anchor(frames, x, w[0]);
            ShiftedFits(x, w, shift) ==> AnchoredTotal(frames, x, w) == ShiftedTotal(x, w, shift)
  {
    forall i | 0 <= i < |w| ensures Anchor(frames, x, w[i]) == Anchor(frames, x, w[0]) {
      AnchorConstant(frames, x, w, i);
    }
    if ShiftedFits(x, w, TWO_16 * Anchor(frames, x, w[0])) {
      TotalsMeet(frames, x, w, Anchor(frames, x, w[0]));
    }
  }

  /**
   * The headline: with no frame discarded, each payload value is the truncated mean of the true
   * signal less one constant multiple of 2^16 over that packet's window, as long as the shifted
   * signal fits in 32 bits.
   */
  lemma PayloadIsShiftedMean(cfg: Config, frames: seq<Frame>, x: seq<int>, k: nat, j: nat)
    requires GoodConfig(cfg) && cfg.order == FLAT_AVERAGE && k < |EmittedPackets(cfg, frames)| && j < SMURF_SAMPLES
    requires Delivers(frames, cfg.mask[j], x) && MovesSlowly(x) && NoneDiscarded(frames)
    ensures var ws := SentWindows(cfg, frames);
            && k < |ws| && WindowBelow(ws[k], |frames|)
            && var w, shift := ws[k], TWO_16 * Anchor(frames, x, ws[k][0]);
               && (cfg.numAverages != 0 ==> |w| == cfg.numAverages % TWO_32)
               && (|w| < TWO_32 && ShiftedFits(x, w, shift) ==>
                   EmittedPackets(cfg, frames)[k].payload[j] == TruncatedQuotient(ShiftedTotal(x, w, shift), |w|))
  {
    PayloadIsMean(cfg, frames, x, k, j);
    WindowsUnbroken(RuleOf(cfg), frames, |frames|);
    OneShiftPerWindow(frames, x, SentWindows(cfg, frames)[k]);
  }
}
