/** Which frames make up each emitted packet: a simple account of the averaging windows. */
module Windows {
  import opened Words
  import opened Wrappers
  import opened SmurfPacket
  import opened DigitalFilter
  import opened Processor

  // ---------------------------------------------------------------------------
  // Reference: a list of closed windows and one open window, by frame index
  // ---------------------------------------------------------------------------

  datatype Window = Window(times: seq<nat>, sent: bool)

  /** Closed windows, the open one, and the syncword of the last accepted frame. */
  datatype Ledger = Ledger(closed: seq<Window>, open: seq<nat>, sync: nat)

  /** A frame is dropped exactly when its number is below that of the frame before it. */
  predicate Accepted(frames: seq<Frame>, t: nat)
    requires t < |frames|
  {
    t == 0 || frames[t].number >= frames[t - 1].number
  }

  /**
   * Whether an accepted frame completes a window of `size` frames: by the size when averaging a
   * set number of frames, else by a change of the external syncword.  Sizes count modulo 2^32.
   */
  predicate Completes(cfg: Config, f: Frame, sync: nat, size: nat) {
    if cfg.numAverages != 0 then size % TWO_32 == cfg.numAverages % TWO_32
    else f.syncword != sync && size % TWO_32 != 0
  }

  /** Accepted frame f, the one with index t, enters the ledger; `done` says that it completes a window. */
  function Enter(l: Ledger, f: Frame, t: nat, done: bool): Ledger {
    var open := l.open + [t];
    if done then Ledger(l.closed + [Window(open, true)], [], f.syncword)
    else if f.clear then Ledger(l.closed + [Window(open, false)], [], f.syncword)
    else Ledger(l.closed, open, f.syncword)
  }

  /** When a frame completes a window, from the last syncword and the size the window then has. */
  type Rule = (Frame, nat, nat) -> bool

  function RuleOf(cfg: Config): Rule {
    (f: Frame, sync: nat, size: nat) => Completes(cfg, f, sync, size)
  }

  /** The account of the first n frames. */
  function LedgerAt(rule: Rule, frames: seq<Frame>, n: nat): Ledger
    requires n <= |frames|
  {
    if n == 0 then Ledger([], [], 0) else Advance(rule, frames, LedgerAt(rule, frames, n - 1), n - 1)
  }

  /** Frame t enters if it is accepted. */
  function Advance(rule: Rule, frames: seq<Frame>, l: Ledger, t: nat): Ledger
    requires t < |frames|
  {
    if Accepted(frames, t) then Enter(l, frames[t], t, rule(frames[t], l.sync, |l.open| + 1)) else l
  }

  function Flatten(ws: seq<Window>): seq<nat> {
    if ws == [] then [] else Flatten(ws[..|ws| - 1]) + ws[|ws| - 1].times
  }

  /** Every frame of the ledger, in order. */
  function Entries(l: Ledger): seq<nat> {
    Flatten(l.closed) + l.open
  }

  function Sent(ws: seq<Window>): seq<seq<nat>> {
    if ws == [] then []
    else Sent(ws[..|ws| - 1]) + (if ws[|ws| - 1].sent then [ws[|ws| - 1].times] else [])
  }

  function SentWindows(cfg: Config, frames: seq<Frame>): seq<seq<nat>> {
    Sent(LedgerAt(RuleOf(cfg), frames, |frames|).closed)
  }

  function OneIf<T>(b: bool, x: T): seq<T> {
    if b then [x] else []
  }

  function AcceptedTimes(frames: seq<Frame>, n: nat): seq<nat>
    requires n <= |frames|
  {
    if n == 0 then [] else AcceptedTimes(frames, n - 1) + OneIf(Accepted(frames, n - 1), n - 1)
  }

  lemma EnterGrows(l: Ledger, f: Frame, t: nat, done: bool)
    ensures Sent(Enter(l, f, t, done).closed) == Sent(l.closed) + OneIf(done, l.open + [t])
  {
    var m := Enter(l, f, t, done);
    if m.closed != l.closed {
      assert m.closed[..|m.closed| - 1] == l.closed;
    }
  }

  lemma AdvanceEntries(rule: Rule, frames: seq<Frame>, l: Ledger, m: Ledger, t: nat)
    requires t < |frames| && m == Advance(rule, frames, l, t)
    ensures Entries(m) == Entries(l) + OneIf(Accepted(frames, t), t)
  {
    if m.closed != l.closed {
      assert m.closed[..|m.closed| - 1] == l.closed;
    }
  }

  /**
   * Whatever the rule, every accepted frame is in exactly one window, in order: emitted, dropped by
   * a clear, or open.
   */
  lemma {:induction false} WindowsPartition(rule: Rule, frames: seq<Frame>, n: nat)
    requires n <= |frames|
    ensures Entries(LedgerAt(rule, frames, n)) == AcceptedTimes(frames, n)
  {
    if n > 0 {
      WindowsPartition(rule, frames, n - 1);
      AdvanceEntries(rule, frames, LedgerAt(rule, frames, n - 1), LedgerAt(rule, frames, n), n - 1);
    }
  }

  predicate TimesBelow(w: seq<nat>, n: nat) {
    forall k :: 0 <= k < |w| ==> w[k] < n
  }

  predicate WindowBelow(w: seq<nat>, n: nat) {
    w != [] && TimesBelow(w, n)
  }

  predicate NonEmptyBelow(ws: seq<seq<nat>>, n: nat) {
    forall k :: 0 <= k < |ws| ==> WindowBelow(ws[k], n)
  }

  /** All windows of a ledger are of frames before n, and no sent window is empty. */
  predicate Within(l: Ledger, n: nat) {
    TimesBelow(l.open, n) && NonEmptyBelow(Sent(l.closed), n)
  }

  lemma {:induction false} LedgerTimes(rule: Rule, frames: seq<Frame>, n: nat)
    requires n <= |frames|
    ensures Within(LedgerAt(rule, frames, n), n)
  {
    if n > 0 {
      LedgerTimes(rule, frames, n - 1);
      AdvanceWithin(rule, frames, LedgerAt(rule, frames, n - 1), LedgerAt(rule, frames, n), n - 1);
    }
  }

  lemma AdvanceWithin(rule: Rule, frames: seq<Frame>, l: Ledger, m: Ledger, t: nat)
    requires t < |frames| && Within(l, t) && m == Advance(rule, frames, l, t)
    ensures Within(m, t + 1)
  {
    StillWithin(l, t);
    EnterWithin(l, frames[t], t, rule(frames[t], l.sync, |l.open| + 1));
  }

  lemma StillWithin(l: Ledger, t: nat)
    requires Within(l, t)
    ensures Within(l, t + 1)
  {
    forall k | 0 <= k < |Sent(l.closed)| ensures WindowBelow(Sent(l.closed)[k], t + 1) {
      assert WindowBelow(Sent(l.closed)[k], t);
    }
  }

  lemma EnterWithin(l: Ledger, f: Frame, t: nat, done: bool)
    requires Within(l, t)
    ensures Within(Enter(l, f, t, done), t + 1)
  {
    var m := Enter(l, f, t, done);
    StillWithin(l, t);
    if done {
      EnterGrows(l, f, t, true);
      AppendBelow(Sent(l.closed), l.open + [t], t + 1);
    } else {
      EnterGrows(l, f, t, false);
      assert Sent(m.closed) == Sent(l.closed) + [] == Sent(l.closed);
    }
  }

  lemma AppendBelow(ws: seq<seq<nat>>, w: seq<nat>, n: nat)
    requires NonEmptyBelow(ws, n) && WindowBelow(w, n)
    ensures NonEmptyBelow(ws + [w], n)
  {}

  // ---------------------------------------------------------------------------
  // How long windows are
  // ---------------------------------------------------------------------------

  /** Every sent window has `size` frames, and the open one fewer. */
  ghost predicate Sized(l: Ledger, size: nat) {
    |l.open| < size && AllOfSize(Sent(l.closed), size)
  }

  predicate AllOfSize(ws: seq<seq<nat>>, size: nat) {
    forall k :: 0 <= k < |ws| ==> |ws[k]| == size
  }

  /** Averaging a set number of frames: every packet averages num_averages frames, as an unsigned number. */
  lemma {:induction false} WindowSizes(cfg: Config, frames: seq<Frame>, n: nat)
    requires FitsInt32(cfg.numAverages) && cfg.numAverages != 0 && n <= |frames|
    ensures Sized(LedgerAt(RuleOf(cfg), frames, n), cfg.numAverages % TWO_32)
  {
    NonzeroTarget(cfg.numAverages);
    if n > 0 {
      WindowSizes(cfg, frames, n - 1);
      var l, t := LedgerAt(RuleOf(cfg), frames, n - 1), n - 1;
      SizedStep(cfg, l, frames[t], t);
    }
  }

  lemma SizedStep(cfg: Config, l: Ledger, f: Frame, t: nat)
    requires FitsInt32(cfg.numAverages) && cfg.numAverages != 0 && Sized(l, cfg.numAverages % TWO_32)
    ensures Sized(Enter(l, f, t, Completes(cfg, f, l.sync, |l.open| + 1)), cfg.numAverages % TWO_32)
  {
    NonzeroTarget(cfg.numAverages);
    EnterGrows(l, f, t, Completes(cfg, f, l.sync, |l.open| + 1));
    assert Sent(l.closed) + OneIf(false, l.open + [t]) == Sent(l.closed);
  }

  /** The syncword of the last accepted frame before n; zero at the start. */
  function SyncBefore(frames: seq<Frame>, n: nat): (r: nat)
    requires n <= |frames|
    ensures r < TWO_32
  {
    if n == 0 then 0
    else if Accepted(frames, n - 1) then frames[n - 1].syncword
    else SyncBefore(frames, n - 1)
  }

  predicate SyncChanges(frames: seq<Frame>, t: nat)
    requires t < |frames|
  {
    frames[t].syncword != SyncBefore(frames, t)
  }

  /** None of the first m frames of w changes the syncword; one at a multiple of 2^32 may, as the count is then zero. */
  ghost predicate SyncSteady(frames: seq<Frame>, w: seq<nat>, m: nat)
    requires TimesBelow(w, |frames|) && m <= |w|
  {
    forall i :: 0 <= i < m ==> !SyncChanges(frames, w[i]) || (i + 1) % TWO_32 == 0
  }

  ghost predicate EndsAtSync(frames: seq<Frame>, w: seq<nat>) {
    && WindowBelow(w, |frames|)
    && SyncChanges(frames, w[|w| - 1]) && |w| % TWO_32 != 0
    && SyncSteady(frames, w, |w| - 1)
  }

  ghost predicate AllEndAtSync(frames: seq<Frame>, ws: seq<seq<nat>>) {
    forall k :: 0 <= k < |ws| ==> EndsAtSync(frames, ws[k])
  }

  /** The open window has not met a change, and every sent one ended at its first. */
  ghost predicate SyncLedger(frames: seq<Frame>, l: Ledger, n: nat)
    requires n <= |frames|
  {
    && l.sync == SyncBefore(frames, n)
    && TimesBelow(l.open, |frames|) && SyncSteady(frames, l.open, |l.open|)
    && AllEndAtSync(frames, Sent(l.closed))
  }

  /** Averaging by the external syncword: every packet ends at the first accepted frame that changes it. */
  lemma {:induction false} WindowsEndAtSync(cfg: Config, frames: seq<Frame>, n: nat)
    requires cfg.numAverages == 0 && n <= |frames|
    ensures SyncLedger(frames, LedgerAt(RuleOf(cfg), frames, n), n)
  {
    if n > 0 {
      WindowsEndAtSync(cfg, frames, n - 1);
      if Accepted(frames, n - 1) {
        SyncStep(cfg, frames, LedgerAt(RuleOf(cfg), frames, n - 1), n - 1);
      }
    }
  }

  lemma SyncStep(cfg: Config, frames: seq<Frame>, l: Ledger, t: nat)
    requires cfg.numAverages == 0 && t < |frames| && Accepted(frames, t) && SyncLedger(frames, l, t)
    ensures SyncLedger(frames, Enter(l, frames[t], t, Completes(cfg, frames[t], l.sync, |l.open| + 1)), t + 1)
  {
    var done := Completes(cfg, frames[t], l.sync, |l.open| + 1);
    SteadyGrows(frames, l.open, t, done);
    EnterGrows(l, frames[t], t, done);
    SentEndAtSync(frames, Sent(l.closed), l.open + [t], done);
  }

  lemma SteadyGrows(frames: seq<Frame>, open: seq<nat>, t: nat, done: bool)
    requires t < |frames| && TimesBelow(open, |frames|) && SyncSteady(frames, open, |open|)
    requires done <==> SyncChanges(frames, t) && (|open| + 1) % TWO_32 != 0
    ensures TimesBelow(open + [t], |frames|)
    ensures if done then EndsAtSync(frames, open + [t]) else SyncSteady(frames, open + [t], |open| + 1)
  {
    var w := open + [t];
    assert TimesBelow(w, |frames|);
    forall i | 0 <= i < |open| ensures !SyncChanges(frames, w[i]) || (i + 1) % TWO_32 == 0 {
      assert w[i] == open[i];
    }
  }

  lemma SentEndAtSync(frames: seq<Frame>, ws: seq<seq<nat>>, w: seq<nat>, done: bool)
    requires AllEndAtSync(frames, ws) && (done ==> EndsAtSync(frames, w))
    ensures AllEndAtSync(frames, ws + OneIf(done, w))
  {}

  // ---------------------------------------------------------------------------
  // Filter calls and emissions of a window; data[t] is the channel values at frame t
  // ---------------------------------------------------------------------------

  function CallsOf(cfg: Config, data: seq<seq<int32>>, w: seq<nat>): (r: seq<Call>)
    requires TimesBelow(w, |data|)
    ensures |r| == |w| && forall k :: 0 <= k < |w| ==> r[k] == CallOf(cfg, data[w[k]])
  {
    seq(|w|, k requires 0 <= k < |w| => CallOf(cfg, data[w[k]]))
  }

  /** The emission for a window: its last frame, and the filter calls of its frames. */
  function WindowEmission(cfg: Config, frames: seq<Frame>, data: seq<seq<int32>>, w: seq<nat>): Emission
    requires |data| == |frames| && WindowBelow(w, |frames|)
  {
    Emission(frames[w[|w| - 1]], CallsOf(cfg, data, w))
  }

  /** One emission per sent window, or none at all when data_frames is zero. */
  function WindowEmissions(cfg: Config, frames: seq<Frame>, data: seq<seq<int32>>,
                           ws: seq<seq<nat>>): (r: seq<Emission>)
    requires |data| == |frames| && NonEmptyBelow(ws, |frames|)
    ensures cfg.dataFrames == 0 ==> r == []
    ensures cfg.dataFrames != 0 ==>
            |r| == |ws| && forall k :: 0 <= k < |ws| ==> r[k] == WindowEmission(cfg, frames, data, ws[k])
  {
    if cfg.dataFrames == 0 then []
    else seq(|ws|, k requires 0 <= k < |ws| => WindowEmission(cfg, frames, data, ws[k]))
  }

  // ---------------------------------------------------------------------------
  // The loop's two counters and its filter keep to the ledger
  // ---------------------------------------------------------------------------

  /** How a loop state stands to the account of the frames so far, with the filter order fixed at -1. */
  ghost predicate Aligned(cfg: Config, data: seq<seq<int32>>, l: Ledger, s: State) {
    && TimesBelow(l.open, |data|)
    && s.calls == CallsOf(cfg, data, l.open)
    && s.averageCounter == |l.open| % TWO_32
    && s.lastSyncword == l.sync < TWO_32
  }

  /** What average_control decides is what completes the window. */
  lemma ControlCompletes(cfg: Config, f: Frame, size: nat, sync: nat)
    requires FitsInt32(cfg.numAverages) && sync < TWO_32
    ensures var (cnt, counter) := AverageControl(cfg.numAverages, size % TWO_32, sync, f.syncword);
            && (cnt != 0 <==> Completes(cfg, f, sync, size + 1))
            && (cnt != 0 ==> cnt == (size + 1) % TWO_32)
            && counter == if cnt == 0 then (size + 1) % TWO_32 else 0
  {
    NextResidue(size, TWO_32);
    NonzeroTarget(cfg.numAverages);
    WordsDiffer(f.syncword, sync);
  }

  lemma NonzeroTarget(n: int)
    requires FitsInt32(n)
    ensures n != 0 ==> n % TWO_32 != 0
  {}

  lemma WordsDiffer(x: nat, y: nat)
    requires x < TWO_32 && y < TWO_32
    ensures (x - y) % TWO_32 != 0 <==> x != y
  {}

  /** The calls held while handling an accepted frame are those of the open window with it. */
  lemma PushedCalls(cfg: Config, data: seq<seq<int32>>, open: seq<nat>, t: nat)
    requires cfg.order == FLAT_AVERAGE && t < |data| && TimesBelow(open, |data|)
    ensures Push(CallsOf(cfg, data, open), CallOf(cfg, data[t])) == CallsOf(cfg, data, open + [t])
    ensures Order(CallsOf(cfg, data, open + [t])) == FLAT_AVERAGE
  {
    assert CallsOf(cfg, data, open) + [CallOf(cfg, data[t])] == CallsOf(cfg, data, open + [t]);
  }

  /** One accepted frame, in terms of the open window it meets. */
  lemma AlignedStep(cfg: Config, data: seq<seq<int32>>, t: nat, l: Ledger,
                    s: State, f: Frame, s': State, e: Option<Emission>)
    requires FitsInt32(cfg.numAverages) && cfg.order == FLAT_AVERAGE && t < |data|
    requires Aligned(cfg, data, l, s) && !Discarded(s, f) && Averages(cfg, s, f, data[t], s', e)
    ensures Aligned(cfg, data, Enter(l, f, t, Completes(cfg, f, l.sync, |l.open| + 1)), s')
    ensures var open := l.open + [t];
            && TimesBelow(open, |data|)
            && e == if Completes(cfg, f, l.sync, |l.open| + 1) && cfg.dataFrames != 0
                    then Some(Emission(f, CallsOf(cfg, data, open))) else None
  {
    PushedCalls(cfg, data, l.open, t);
    ControlCompletes(cfg, f, |l.open|, l.sync);
  }

  /**
   * Window alignment: at every loop head, through clears, emissions and discarded frames, the
   * filter holds exactly the calls of the open window and the averaging counter its size.
   */
  lemma {:induction false} TraceAligned(cfg: Config, frames: seq<Frame>, tr: Trace, n: nat)
    requires FitsInt32(cfg.numAverages) && cfg.order == FLAT_AVERAGE && IsTrace(cfg, frames, tr) && n <= |frames|
    ensures Aligned(cfg, tr.data, LedgerAt(RuleOf(cfg), frames, n), tr.states[n])
  {
    if n > 0 {
      var t := n - 1;
      TraceAligned(cfg, frames, tr, t);
      assert Remembers(frames, t, tr.states[t]);
      assert Averages(cfg, tr.states[t], frames[t], tr.data[t], tr.states[t + 1], tr.emissions[t]);
      AlignedMove(cfg, frames, tr.data, t, LedgerAt(RuleOf(cfg), frames, t), LedgerAt(RuleOf(cfg), frames, n),
                  tr.states[t], tr.states[n], tr.emissions[t]);
    }
  }

  lemma AlignedMove(cfg: Config, frames: seq<Frame>, data: seq<seq<int32>>, t: nat, l: Ledger, m: Ledger,
                    s: State, s': State, e: Option<Emission>)
    requires FitsInt32(cfg.numAverages) && cfg.order == FLAT_AVERAGE && t < |data| == |frames|
    requires m == Advance(RuleOf(cfg), frames, l, t) && (Discarded(s, frames[t]) <==> !Accepted(frames, t))
    requires Aligned(cfg, data, l, s) && Averages(cfg, s, frames[t], data[t], s', e)
    ensures Aligned(cfg, data, m, s')
  {
    if Accepted(frames, t) {
      AlignedStep(cfg, data, t, l, s, frames[t], s', e);
    }
  }

  lemma Alignment(cfg: Config, frames: seq<Frame>, n: nat)
    requires GoodConfig(cfg) && cfg.order == FLAT_AVERAGE && n <= |frames|
    ensures Aligned(cfg, TraceOf(cfg, frames).data, LedgerAt(RuleOf(cfg), frames, n), Run(cfg, frames, n))
  {
    RunsAreTraces(cfg, frames);
    TraceAligned(cfg, frames, TraceOf(cfg, frames), n);
  }

  /** In particular the two counters agree: H's average counter and the filter's samples since clear. */
  lemma CountersAgree(cfg: Config, frames: seq<Frame>, n: nat)
    requires GoodConfig(cfg) && cfg.order == FLAT_AVERAGE && n <= |frames|
    ensures Run(cfg, frames, n).averageCounter == |Run(cfg, frames, n).calls| % TWO_32
  {
    Alignment(cfg, frames, n);
  }

  /** Refinement: what the loop emits is, in order, one emission for each sent window of the ledger. */
  lemma EmittedAreWindows(cfg: Config, frames: seq<Frame>)
    requires GoodConfig(cfg) && cfg.order == FLAT_AVERAGE
    ensures var ws := SentWindows(cfg, frames);
            && NonEmptyBelow(ws, |frames|)
            && Emitted(cfg, frames) == WindowEmissions(cfg, frames, TraceOf(cfg, frames).data, ws)
  {
    var tr := TraceOf(cfg, frames);
    RunsAreTraces(cfg, frames);
    TraceEmissions(cfg, frames, tr, |frames|);
    LedgerTimes(RuleOf(cfg), frames, |frames|);
    assert tr.emissions[..|frames|] == tr.emissions;
  }

  /** The emissions so far are those of the sent windows so far. */
  ghost predicate Matches(cfg: Config, frames: seq<Frame>, data: seq<seq<int32>>, es: seq<Option<Emission>>, l: Ledger)
    requires |data| == |frames|
  {
    NonEmptyBelow(Sent(l.closed), |frames|) && Collect(es) == WindowEmissions(cfg, frames, data, Sent(l.closed))
  }

  lemma {:induction false} TraceEmissions(cfg: Config, frames: seq<Frame>, tr: Trace, n: nat)
    requires FitsInt32(cfg.numAverages) && cfg.order == FLAT_AVERAGE && IsTrace(cfg, frames, tr) && n <= |frames|
    ensures Matches(cfg, frames, tr.data, tr.emissions[..n], LedgerAt(RuleOf(cfg), frames, n))
  {
    if n > 0 {
      var t := n - 1;
      var l := LedgerAt(RuleOf(cfg), frames, t);
      TraceEmissions(cfg, frames, tr, t);
      assert tr.emissions[..n] == tr.emissions[..t] + [tr.emissions[t]];
      EmissionOfLedger(cfg, frames, tr, t);
      MatchesStep(cfg, frames, tr.data, tr.emissions[..t], l, t,
                  Accepted(frames, t), Completes(cfg, frames[t], l.sync, |l.open| + 1), tr.emissions[t]);
    }
  }

  /** What frame t emits, from the ledger before it. */
  lemma EmissionOfLedger(cfg: Config, frames: seq<Frame>, tr: Trace, t: nat)
    requires FitsInt32(cfg.numAverages) && cfg.order == FLAT_AVERAGE && IsTrace(cfg, frames, tr) && t < |frames|
    ensures var l := LedgerAt(RuleOf(cfg), frames, t);
            var done := Accepted(frames, t) && Completes(cfg, frames[t], l.sync, |l.open| + 1);
            && TimesBelow(l.open, |frames|)
            && tr.emissions[t] == if done && cfg.dataFrames != 0
                                  then Some(Emission(frames[t], CallsOf(cfg, tr.data, l.open + [t]))) else None
  {
    var l := LedgerAt(RuleOf(cfg), frames, t);
    TraceAligned(cfg, frames, tr, t);
    assert Remembers(frames, t, tr.states[t]);
    assert Averages(cfg, tr.states[t], frames[t], tr.data[t], tr.states[t + 1], tr.emissions[t]);
    if Accepted(frames, t) {
      AlignedStep(cfg, tr.data, t, l, tr.states[t], frames[t], tr.states[t + 1], tr.emissions[t]);
    }
  }

  lemma MatchesStep(cfg: Config, frames: seq<Frame>, data: seq<seq<int32>>, es: seq<Option<Emission>>,
                    l: Ledger, t: nat, accepted: bool, done: bool, e: Option<Emission>)
    requires |data| == |frames| && t < |frames|
    requires Matches(cfg, frames, data, es, l) && TimesBelow(l.open, |frames|)
    requires e == if accepted && done && cfg.dataFrames != 0
                  then Some(Emission(frames[t], CallsOf(cfg, data, l.open + [t]))) else None
    ensures Matches(cfg, frames, data, es + [e], if accepted then Enter(l, frames[t], t, done) else l)
  {
    assert (es + [e])[..|es|] == es;
    if accepted {
      EnterGrows(l, frames[t], t, done);
      if done {
        EmissionAppended(cfg, frames, data, Sent(l.closed), l.open + [t]);
      }
    }
  }

  lemma EmissionAppended(cfg: Config, frames: seq<Frame>, data: seq<seq<int32>>, ws: seq<seq<nat>>, w: seq<nat>)
    requires |data| == |frames| && NonEmptyBelow(ws, |frames|) && WindowBelow(w, |frames|)
    ensures NonEmptyBelow(ws + [w], |frames|)
    ensures WindowEmissions(cfg, frames, data, ws + [w]) ==
            WindowEmissions(cfg, frames, data, ws)
            + (if cfg.dataFrames == 0 then [] else [WindowEmission(cfg, frames, data, w)])
  {}

  // ---------------------------------------------------------------------------
  // Recursive filtering: the history is every accepted frame since the last clear
  // ---------------------------------------------------------------------------

  function SinceClear(frames: seq<Frame>, n: nat): (w: seq<nat>)
    requires n <= |frames|
    ensures TimesBelow(w, n)
  {
    if n == 0 then []
    else if !Accepted(frames, n - 1) then SinceClear(frames, n - 1)
    else if frames[n - 1].clear then []
    else SinceClear(frames, n - 1) + [n - 1]
  }

  /** With a recursive filter the calls are not cut at emissions, only by the clear bit. */
  lemma {:induction false} RecursiveHistory(cfg: Config, frames: seq<Frame>, tr: Trace, n: nat)
    requires cfg.order != FLAT_AVERAGE && IsTrace(cfg, frames, tr) && n <= |frames|
    ensures tr.states[n].calls == CallsOf(cfg, tr.data, SinceClear(frames, n))
  {
    if n > 0 {
      var t := n - 1;
      RecursiveHistory(cfg, frames, tr, t);
      assert Remembers(frames, t, tr.states[t]);
      assert Averages(cfg, tr.states[t], frames[t], tr.data[t], tr.states[t + 1], tr.emissions[t]);
      if Accepted(frames, t) {
        HistoryStep(cfg, tr.data, t, SinceClear(frames, t), tr.states[t], frames[t], tr.states[n], tr.emissions[t]);
      }
    }
  }

  lemma HistoryStep(cfg: Config, data: seq<seq<int32>>, t: nat, w: seq<nat>,
                    s: State, f: Frame, s': State, e: Option<Emission>)
    requires cfg.order != FLAT_AVERAGE && t < |data| && TimesBelow(w, |data|)
    requires s.calls == CallsOf(cfg, data, w) && !Discarded(s, f) && Averages(cfg, s, f, data[t], s', e)
    ensures s'.calls == CallsOf(cfg, data, if f.clear then [] else w + [t])
  {
    assert CallsOf(cfg, data, w) + [CallOf(cfg, data[t])] == CallsOf(cfg, data, w + [t]);
  }

  /**
   * What is emitted at frame t with a recursive filter: the difference equation run over the values
   * of every accepted frame since the last clear, t included, times the gain, cast to int32.
   */
  lemma RecursivePayload(cfg: Config, frames: seq<Frame>, t: nat, j: nat)
    requires GoodConfig(cfg) && cfg.order != FLAT_AVERAGE && t < |frames| && j < SMURF_SAMPLES
    requires EmissionAt(cfg, frames, t).Some?
    ensures var calls := CallsOf(cfg, TraceOf(cfg, frames).data, SinceClear(frames, t) + [t]);
            && EmissionAt(cfg, frames, t).value == Emission(frames[t], calls)
            && MakePacket(EmissionAt(cfg, frames, t).value).payload[j] == Amplified(Y(calls, |calls| - 1, j), cfg.g)
  {
    RunsAreTraces(cfg, frames);
    RecursiveEmissionAt(cfg, frames, TraceOf(cfg, frames), t);
    RecursiveOutput(cfg, EmissionAt(cfg, frames, t).value, j);
  }

  lemma RecursiveEmissionAt(cfg: Config, frames: seq<Frame>, tr: Trace, t: nat)
    requires cfg.order != FLAT_AVERAGE && IsTrace(cfg, frames, tr) && t < |frames| && tr.emissions[t].Some?
    ensures var calls := CallsOf(cfg, tr.data, SinceClear(frames, t) + [t]);
            && tr.emissions[t].value == Emission(frames[t], calls)
            && calls != [] && calls[|calls| - 1] == CallOf(cfg, tr.data[t])
  {
    RecursiveHistory(cfg, frames, tr, t);
    assert Averages(cfg, tr.states[t], frames[t], tr.data[t], tr.states[t + 1], tr.emissions[t]);
    RecursiveEmission(cfg, tr.data, t, SinceClear(frames, t), tr.states[t], frames[t], tr.states[t + 1],
                      tr.emissions[t]);
  }

  /** The payload of calls of one recursive configuration. */
  lemma RecursiveOutput(cfg: Config, e: Emission, j: nat)
    requires Complete(e) && cfg.order != FLAT_AVERAGE && j < SMURF_SAMPLES
    requires var c := e.calls[|e.calls| - 1]; c.order == cfg.order && c.g == cfg.g
    ensures MakePacket(e).payload[j] == Amplified(Y(e.calls, |e.calls| - 1, j), cfg.g)
  {
    assert MakePacket(e).payload[j] == Output(e.calls, j);
  }

  lemma RecursiveEmission(cfg: Config, data: seq<seq<int32>>, t: nat, w: seq<nat>,
                          s: State, f: Frame, s': State, e: Option<Emission>)
    requires cfg.order != FLAT_AVERAGE && t < |data| && TimesBelow(w, |data|)
    requires s.calls == CallsOf(cfg, data, w) && Averages(cfg, s, f, data[t], s', e) && e.Some?
    ensures e.value == Emission(f, CallsOf(cfg, data, w + [t]))
  {
    assert CallsOf(cfg, data, w) + [CallOf(cfg, data[t])] == CallsOf(cfg, data, w + [t]);
  }
}
