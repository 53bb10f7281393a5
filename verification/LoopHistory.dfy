/** Which frames each packet of the whole loop averages, whatever configurations are read on the way. */
module LoopHistory {
  import opened Words
  import opened Wrappers
  import opened DigitalFilter
  import opened Processor
  import opened FrameAccounting
  import opened Windows
  import opened SmurfPacket
  import opened LoopLaws

  // ---------------------------------------------------------------------------
  // From the frames and the configuration in force at each
  // ---------------------------------------------------------------------------

  /** Accepted frames before n since the last clear or end of an average, counted in 32 bits. */
  function Averaged(cs: seq<Config>, frames: seq<Frame>, n: nat): nat
    requires n <= |frames| == |cs|
    decreases n, 0
  {
    if n == 0 then 0
    else if !Accepted(frames, n - 1) then Averaged(cs, frames, n - 1)
    else if frames[n - 1].clear || Ends(cs, frames, n - 1) then 0
    else (Averaged(cs, frames, n - 1) + 1) % 0x1_0000_0000
  }

  /** Frame t ends an average: it is the num_averages'th, or without that its syncword is a new one. */
  predicate Ends(cs: seq<Config>, frames: seq<Frame>, t: nat)
    requires t < |frames| == |cs|
    decreases t, 1
  {
    && Accepted(frames, t)
    && if cs[t].numAverages != 0
       then (Averaged(cs, frames, t) + 1) % 0x1_0000_0000 == cs[t].numAverages % 0x1_0000_0000
       else SyncChanges(frames, t)
  }

  /** A count that has wrapped to zero ends no average. */
  predicate CompletesAt(cs: seq<Config>, frames: seq<Frame>, t: nat)
    requires t < |frames| == |cs|
  {
    Ends(cs, frames, t) && (Averaged(cs, frames, t) + 1) % 0x1_0000_0000 != 0
  }

  /**
   * The frames the filter holds before frame n: the accepted ones since the last clear, the last
   * completed block average and the last change of order.
   */
  function Filtered(cs: seq<Config>, frames: seq<Frame>, n: nat): (times: seq<nat>)
    requires n <= |frames| == |cs|
    ensures forall k :: 0 <= k < |times| ==> times[k] < n
    decreases n, 0
  {
    if n == 0 then []
    else if !Accepted(frames, n - 1) then Filtered(cs, frames, n - 1)
    else if frames[n - 1].clear || (CompletesAt(cs, frames, n - 1) && cs[n - 1].order == -1) then []
    else Window(cs, frames, n - 1)
  }

  /** The frames behind the filter's output at an accepted frame t. */
  function Window(cs: seq<Config>, frames: seq<Frame>, t: nat): (times: seq<nat>)
    requires t < |frames| == |cs|
    ensures forall k :: 0 <= k < |times| ==> times[k] <= t
    decreases t, 1
  {
    var before := Filtered(cs, frames, t);
    if before != [] && cs[before[|before| - 1]].order != cs[t].order then [t] else before + [t]
  }

  /** The filter calls at some frames, the channel values being given. */
  function CallsAt(cs: seq<Config>, data: seq<seq<int32>>, times: seq<nat>): (calls: seq<Call>)
    requires |cs| == |data| && forall k :: 0 <= k < |times| ==> times[k] < |cs|
    ensures |calls| == |times|
    ensures forall k :: 0 <= k < |times| ==>
              calls[k] == (var c := cs[times[k]]; Call(data[times[k]], c.order, c.a, c.b, c.g))
  {
    seq(|times|, k requires 0 <= k < |times| => var c := cs[times[k]]; Call(data[times[k]], c.order, c.a, c.b, c.g))
  }

  // ---------------------------------------------------------------------------
  // One frame to the next
  // ---------------------------------------------------------------------------

  ghost predicate Linked(c: Config, s: State, f: Frame, accepted: bool, data: seq<int32>, s': State,
                         e: Option<Emission>)
  {
    if !accepted then
      && s'.calls == s.calls && s'.averageCounter == s.averageCounter && s'.lastSyncword == s.lastSyncword
      && e == None
    else
      var call, count := Call(data, c.order, c.a, c.b, c.g), (s.averageCounter + 1) % 0x1_0000_0000;
      var calls := if s.calls != [] && s.calls[|s.calls| - 1].order != c.order then [call] else s.calls + [call];
      var ends := if c.numAverages != 0 then count == c.numAverages % 0x1_0000_0000
                  else (f.syncword - s.lastSyncword) % 0x1_0000_0000 != 0;
      && s'.lastSyncword == f.syncword
      && s'.averageCounter == (if f.clear || ends then 0 else count)
      && e == (if ends && count != 0 then Some(Emission(f, calls)) else None)
      && s'.calls == (if f.clear || (e.Some? && c.order == -1) then [] else calls)
  }

  ghost predicate Chain(cs: seq<Config>, frames: seq<Frame>, data: seq<seq<int32>>, ss: seq<State>,
                        es: seq<Option<Emission>>)
  {
    && |cs| == |data| == |es| == |frames| && |ss| == |frames| + 1
    && ss[0].calls == [] && ss[0].averageCounter == 0 && ss[0].lastSyncword == 0
    && forall t :: 0 <= t < |frames| ==>
         Linked(cs[t], ss[t], frames[t], Accepted(frames, t), data[t], ss[t + 1], es[t])
  }

  lemma {:induction false} ChainSync(cs: seq<Config>, frames: seq<Frame>, data: seq<seq<int32>>, ss: seq<State>,
                                     es: seq<Option<Emission>>, n: nat)
    requires Chain(cs, frames, data, ss, es) && n <= |frames|
    ensures ss[n].lastSyncword == SyncBefore(frames, n)
  {
    if n > 0 {
      ChainSync(cs, frames, data, ss, es, n - 1);
      assert Linked(cs[n - 1], ss[n - 1], frames[n - 1], Accepted(frames, n - 1), data[n - 1], ss[n], es[n - 1]);
    }
  }

  lemma {:induction false} ChainCount(cs: seq<Config>, frames: seq<Frame>, data: seq<seq<int32>>, ss: seq<State>,
                                      es: seq<Option<Emission>>, n: nat)
    requires Chain(cs, frames, data, ss, es) && n <= |frames|
    ensures ss[n].averageCounter == Averaged(cs, frames, n)
  {
    if n > 0 {
      ChainCount(cs, frames, data, ss, es, n - 1);
      ChainSync(cs, frames, data, ss, es, n - 1);
      assert Linked(cs[n - 1], ss[n - 1], frames[n - 1], Accepted(frames, n - 1), data[n - 1], ss[n], es[n - 1]);
      CountStep(cs, frames, ss[n - 1], data[n - 1], ss[n], es[n - 1], n - 1);
    }
  }

  lemma CountStep(cs: seq<Config>, frames: seq<Frame>, s: State, data: seq<int32>, s': State, e: Option<Emission>,
                  t: nat)
    requires t < |frames| == |cs| && Linked(cs[t], s, frames[t], Accepted(frames, t), data, s', e)
    requires s.averageCounter == Averaged(cs, frames, t) && s.lastSyncword == SyncBefore(frames, t)
    ensures s'.averageCounter == Averaged(cs, frames, t + 1)
  {
    EndsIff(cs, frames, s, t);
    LinkedCount(cs[t], s, frames[t], Accepted(frames, t), data, s', e, Ends(cs, frames, t));
    AveragedStep(cs, frames, t, s.averageCounter);
  }

  lemma AveragedStep(cs: seq<Config>, frames: seq<Frame>, t: nat, count: nat)
    requires t < |frames| == |cs| && count == Averaged(cs, frames, t)
    ensures Averaged(cs, frames, t + 1) ==
            if !Accepted(frames, t) then count
            else if frames[t].clear || Ends(cs, frames, t) then 0 else (count + 1) % 0x1_0000_0000
  {}

  lemma LinkedCount(c: Config, s: State, f: Frame, accepted: bool, data: seq<int32>, s': State, e: Option<Emission>,
                    ends: bool)
    requires Linked(c, s, f, accepted, data, s', e)
    requires ends <==>
             && accepted
             && if c.numAverages != 0 then (s.averageCounter + 1) % 0x1_0000_0000 == c.numAverages % 0x1_0000_0000
                else (f.syncword - s.lastSyncword) % 0x1_0000_0000 != 0
    ensures s'.averageCounter ==
            if !accepted then s.averageCounter
            else if f.clear || ends then 0 else (s.averageCounter + 1) % 0x1_0000_0000
  {}

  /** The counters of the loop decide as the counts do. */
  lemma EndsIff(cs: seq<Config>, frames: seq<Frame>, s: State, t: nat)
    requires t < |frames| == |cs|
    requires s.averageCounter == Averaged(cs, frames, t) && s.lastSyncword == SyncBefore(frames, t)
    ensures Ends(cs, frames, t) <==>
            && Accepted(frames, t)
            && if cs[t].numAverages != 0
               then (s.averageCounter + 1) % 0x1_0000_0000 == cs[t].numAverages % 0x1_0000_0000
               else (frames[t].syncword - s.lastSyncword) % 0x1_0000_0000 != 0
  {
    SameWord(frames[t].syncword, SyncBefore(frames, t));
  }

  lemma SameWord(x: nat, y: nat)
    requires x < 0x1_0000_0000 && y < 0x1_0000_0000
    ensures (x - y) % 0x1_0000_0000 == 0 <==> x == y
  {}

  /** What is held before frame n. */
  ghost predicate Holds(cs: seq<Config>, frames: seq<Frame>, data: seq<seq<int32>>, s: State, n: nat)
    requires n <= |frames| == |cs| == |data|
  {
    s.calls == CallsAt(cs, data, Filtered(cs, frames, n))
  }

  lemma ChainEnds(cs: seq<Config>, frames: seq<Frame>, data: seq<seq<int32>>, ss: seq<State>,
                  es: seq<Option<Emission>>, t: nat)
    requires Chain(cs, frames, data, ss, es) && t < |frames|
    ensures es[t].Some? <==> CompletesAt(cs, frames, t)
  {
    ChainCount(cs, frames, data, ss, es, t);
    ChainSync(cs, frames, data, ss, es, t);
    EndsIff(cs, frames, ss[t], t);
    assert Linked(cs[t], ss[t], frames[t], Accepted(frames, t), data[t], ss[t + 1], es[t]);
  }

  lemma ChainEmits(cs: seq<Config>, frames: seq<Frame>, data: seq<seq<int32>>, ss: seq<State>,
                   es: seq<Option<Emission>>, t: nat)
    requires Chain(cs, frames, data, ss, es) && t < |frames| && Holds(cs, frames, data, ss[t], t)
    ensures Window(cs, frames, t) != []
    ensures es[t] == if CompletesAt(cs, frames, t)
                     then Some(Emission(frames[t], CallsAt(cs, data, Window(cs, frames, t)))) else None
    ensures Holds(cs, frames, data, ss[t + 1], t + 1)
  {
    ChainEnds(cs, frames, data, ss, es, t);
    WindowCalls(cs, frames, data, ss[t].calls, t);
    assert Linked(cs[t], ss[t], frames[t], Accepted(frames, t), data[t], ss[t + 1], es[t]);
    LinkedCalls(cs[t], ss[t], frames[t], Accepted(frames, t), data[t], ss[t + 1], es[t],
                CallsAt(cs, data, Window(cs, frames, t)));
  }

  lemma LinkedCalls(c: Config, s: State, f: Frame, accepted: bool, data: seq<int32>, s': State, e: Option<Emission>,
                    calls: seq<Call>)
    requires Linked(c, s, f, accepted, data, s', e)
    requires var call := Call(data, c.order, c.a, c.b, c.g);
             calls == if s.calls != [] && s.calls[|s.calls| - 1].order != c.order then [call] else s.calls + [call]
    ensures e.Some? ==> e.value == Emission(f, calls)
    ensures s'.calls == if !accepted then s.calls
                        else if f.clear || (e.Some? && c.order == -1) then [] else calls
  {}

  lemma WindowCalls(cs: seq<Config>, frames: seq<Frame>, data: seq<seq<int32>>, calls: seq<Call>, t: nat)
    requires t < |frames| == |cs| == |data| && calls == CallsAt(cs, data, Filtered(cs, frames, t))
    ensures var c := cs[t];
            var call := Call(data[t], c.order, c.a, c.b, c.g);
            CallsAt(cs, data, Window(cs, frames, t)) ==
            if calls != [] && calls[|calls| - 1].order != c.order then [call] else calls + [call]
  {}

  lemma {:induction false} ChainHolds(cs: seq<Config>, frames: seq<Frame>, data: seq<seq<int32>>, ss: seq<State>,
                                      es: seq<Option<Emission>>, n: nat)
    requires Chain(cs, frames, data, ss, es) && n <= |frames|
    ensures Holds(cs, frames, data, ss[n], n)
  {
    if n > 0 {
      ChainHolds(cs, frames, data, ss, es, n - 1);
      ChainEmits(cs, frames, data, ss, es, n - 1);
    }
  }

  // ---------------------------------------------------------------------------
  // The loop
  // ---------------------------------------------------------------------------

  /** The configuration in force at each frame. */
  function Configs(cfg: Config, frames: seq<Frame>, files: seq<Config>): (cs: seq<Config>)
    requires |frames| == |files|
    ensures |cs| == |frames|
  {
    seq(|frames|, t requires 0 <= t < |frames| => ConfigAt(cfg, frames, files, t))
  }

  /** The channel values at each frame. */
  function LoopData(cfg: Config, frames: seq<Frame>, files: seq<Config>): (data: seq<seq<int32>>)
    requires GoodConfig(cfg) && GoodFiles(files) && |frames| == |files|
    ensures |data| == |frames|
  {
    seq(|frames|, t requires 0 <= t < |frames| => DataOf(LoopAt(cfg, frames, files, t), frames[t]))
  }

  function DataOf(l: LoopState, f: Frame): (data: seq<int32>)
    requires Running(l)
    ensures |data| == SMURF_SAMPLES
  {
    InputData(l.cfg, Counted(l.s, f), f)
  }

  ghost function Inner(ls: seq<LoopState>): (ss: seq<State>)
    ensures |ss| == |ls| && forall n :: 0 <= n < |ls| ==> ss[n] == ls[n].s
  {
    seq(|ls|, n requires 0 <= n < |ls| => ls[n].s)
  }

  lemma LinkedStep(l: LoopState, f: Frame, files: Config)
    requires Running(l) && GoodConfig(files)
    ensures Linked(l.cfg, l.s, f, !Discarded(l.s, f), DataOf(l, f), LoopStep(l, f, files).0.s,
                   Completed(l.cfg, l.s, f))
  {
    SentStep(l, f, files);
    LinkedAverage(l.cfg, l.s, f);
  }

  lemma LinkedAverage(cfg: Config, s: State, f: Frame)
    requires GoodConfig(cfg) && Sound(s)
    ensures Linked(cfg, s, f, !Discarded(s, f), InputData(cfg, Counted(s, f), f), Step(cfg, s, f).0,
                   Completed(cfg, s, f))
  {
    var call := CallOf(cfg, InputData(cfg, Counted(s, f), f));
    assert s.calls == [] ==> s.calls + [call] == [call];
  }

  ghost function Emissions(cfg: Config, frames: seq<Frame>, files: seq<Config>): (es: seq<Option<Emission>>)
    requires GoodConfig(cfg) && GoodFiles(files) && |frames| == |files|
    ensures |es| == |frames|
  {
    seq(|frames|, t requires 0 <= t < |frames| => CompletedAt(cfg, frames, files, t))
  }

  lemma LinkedAt(cfg: Config, frames: seq<Frame>, files: seq<Config>, t: nat)
    requires GoodConfig(cfg) && GoodFiles(files) && t < |frames| == |files|
    ensures Linked(ConfigAt(cfg, frames, files, t), LoopAt(cfg, frames, files, t).s, frames[t], Accepted(frames, t),
                   DataOf(LoopAt(cfg, frames, files, t), frames[t]),
                   LoopStep(LoopAt(cfg, frames, files, t), frames[t], files[t]).0.s,
                   CompletedAt(cfg, frames, files, t))
  {
    LoopDiscards(cfg, frames, files, t);
    ConfigurationInForce(cfg, frames, files, t);
    LinkedStep(LoopAt(cfg, frames, files, t), frames[t], files[t]);
  }

  lemma ChainLinks(cfg: Config, frames: seq<Frame>, files: seq<Config>, t: nat)
    requires GoodConfig(cfg) && GoodFiles(files) && t < |frames| == |files|
    ensures var ls := States(cfg, frames, files);
            Linked(Configs(cfg, frames, files)[t], ls[t].s, frames[t], Accepted(frames, t),
                   LoopData(cfg, frames, files)[t], ls[t + 1].s, Emissions(cfg, frames, files)[t])
  {
    LinkedAt(cfg, frames, files, t);
    StateIs(cfg, frames, files, t);
    StatesFollow(cfg, frames, files, t);
  }

  lemma LoopChain(cfg: Config, frames: seq<Frame>, files: seq<Config>) returns (ss: seq<State>)
    requires GoodConfig(cfg) && GoodFiles(files) && |frames| == |files|
    ensures ss == Inner(States(cfg, frames, files))
    ensures Chain(Configs(cfg, frames, files), frames, LoopData(cfg, frames, files), ss, Emissions(cfg, frames, files))
  {
    ss := Inner(States(cfg, frames, files));
    StateIs(cfg, frames, files, 0);
    forall t | 0 <= t < |frames|
      ensures Linked(Configs(cfg, frames, files)[t], ss[t], frames[t], Accepted(frames, t),
                     LoopData(cfg, frames, files)[t], ss[t + 1], Emissions(cfg, frames, files)[t])
    {
      ChainLinks(cfg, frames, files, t);
    }
  }

  /**
   * The averaging law of the whole loop, from the frames and the configuration in force at each: which
   * frames complete an average, and the filter calls behind its outputs.
   */
  lemma AveragesAre(cfg: Config, frames: seq<Frame>, files: seq<Config>, t: nat)
    requires GoodConfig(cfg) && GoodFiles(files) && t < |frames| == |files|
    ensures var cs := Configs(cfg, frames, files);
            && Window(cs, frames, t) != []
            && CompletedAt(cfg, frames, files, t) ==
               if CompletesAt(cs, frames, t)
               then Some(Emission(frames[t], CallsAt(cs, LoopData(cfg, frames, files), Window(cs, frames, t))))
               else None
  {
    var cs, data, es := Configs(cfg, frames, files), LoopData(cfg, frames, files), Emissions(cfg, frames, files);
    var ss := LoopChain(cfg, frames, files);
    ChainHolds(cs, frames, data, ss, es, t);
    ChainEmits(cs, frames, data, ss, es, t);
    assert es[t] == CompletedAt(cfg, frames, files, t);
  }

  /** A packet goes out exactly when a frame completes an average and data_frames is not zero after it. */
  lemma SentWhen(cfg: Config, frames: seq<Frame>, files: seq<Config>, t: nat)
    requires GoodConfig(cfg) && GoodFiles(files) && t < |frames| == |files|
    ensures LoopPacketAt(cfg, frames, files, t).Some? <==>
            && CompletesAt(Configs(cfg, frames, files), frames, t)
            && ConfigAt(cfg, frames, files, t + 1).dataFrames != 0
  {
    SentIff(cfg, frames, files, t);
    AveragesAre(cfg, frames, files, t);
  }

  /** And what it holds: the outputs of the filter over exactly the window's calls, or the test mode's values. */
  lemma PacketOfWindow(cfg: Config, frames: seq<Frame>, files: seq<Config>, t: nat, j: nat)
    requires GoodConfig(cfg) && GoodFiles(files) && t < |frames| == |files| && j < SMURF_SAMPLES
    requires LoopPacketAt(cfg, frames, files, t).Some?
    ensures var cs := Configs(cfg, frames, files);
            var calls := CallsAt(cs, LoopData(cfg, frames, files), Window(cs, frames, t));
            && calls != [] && GoodCalls(calls, SMURF_SAMPLES, FILTER_RECORDS)
            && PacketFor(LoopPacketAt(cfg, frames, files, t).value, frames[t], calls,
                         FirstTestSync(frames, Completions(cfg, frames, files), t + 1), j)
  {
    var p, e, first := PacketParts(cfg, frames, files, t, j);
    AveragesAre(cfg, frames, files, t);
  }
}
