/** The channel values of the whole loop, whatever masks are read on the way. */
module LoopValues {
  import opened Words
  import opened Wrappers
  import opened PhaseUnwrap
  import opened SmurfPacket
  import opened Processor
  import opened FrameAccounting
  import opened Windows
  import opened LoopLaws
  import opened LoopHistory

  predicate GoodConfigs(cs: seq<Config>) {
    forall t :: 0 <= t < |cs| ==> GoodConfig(cs[t])
  }

  /** The sample before frame t of a raw channel; the first frame follows zeros, a discarded one counts. */
  function Previous(frames: seq<Frame>, t: nat, c: nat): int
    requires t < |frames| && c < SMURF_RAW_SAMPLES
  {
    if t == 0 then 0 else frames[t - 1].samples[c]
  }

  /** The turn that a step from p to d makes: down past the top, up past the bottom, or none. */
  function Turn(d: int, p: int): int {
    if d > 0x6000 && p < -0x6000 then -1 else if d < -0x6000 && p > 0x6000 then 1 else 0
  }

  /** The turn into frame t of channel j, under the mask in force there. */
  function TurnInto(cs: seq<Config>, frames: seq<Frame>, t: nat, j: nat): int
    requires t < |frames| == |cs| && j < SMURF_SAMPLES && GoodConfigs(cs)
  {
    Turn(frames[t].samples[cs[t].mask[j]], Previous(frames, t, cs[t].mask[j]))
  }

  /** The turns into accepted frames before n, since the last clear. */
  function TurnsBefore(cs: seq<Config>, frames: seq<Frame>, n: nat, j: nat): int
    requires n <= |frames| == |cs| && j < SMURF_SAMPLES && GoodConfigs(cs)
  {
    if n == 0 then 0
    else if !Accepted(frames, n - 1) then TurnsBefore(cs, frames, n - 1, j)
    else if frames[n - 1].clear then 0
    else TurnsBefore(cs, frames, n - 1, j) + TurnInto(cs, frames, n - 1, j)
  }

  // ---------------------------------------------------------------------------
  // One frame for one channel
  // ---------------------------------------------------------------------------

  ghost predicate Turned(w: int32, w': int32, value: int32, d: int, p: int, accepted: bool, clear: bool) {
    var x := Signed32(w + 0x1_0000 * Turn(d, p));
    && value == Signed32(d + x)
    && w' == if !accepted then w else if clear then 0 else x
  }

  /** Reducing a summand to 32 bits first changes nothing. */
  lemma Signed32Sum(x: int, y: int)
    ensures Signed32(Signed32(x) + y) == Signed32(x + y)
  {
    var q := (x + 0x8000_0000) / TWO_32;
    assert x == Signed32(x) + q * TWO_32;
    Signed32Unique(Signed32(x) + y, Signed32(x + y), (Signed32(x) + y + 0x8000_0000 + q * TWO_32) / TWO_32 - q);
  }

  lemma TurnedValue(w: int32, w': int32, value: int32, d: int, p: int, accepted: bool, clear: bool, turns: int)
    requires Turned(w, w', value, d, p, accepted, clear) && w == Signed32(0x1_0000 * turns)
    ensures value == Signed32(d + 0x1_0000 * (turns + Turn(d, p)))
    ensures accepted && !clear ==> w' == Signed32(0x1_0000 * (turns + Turn(d, p)))
  {
    Signed32Sum(0x1_0000 * turns, 0x1_0000 * Turn(d, p));
    Signed32Sum(0x1_0000 * (turns + Turn(d, p)), d);
  }

  ghost predicate ChannelChain(cs: seq<Config>, frames: seq<Frame>, j: nat, ws: seq<int32>, data: seq<seq<int32>>)
    requires |cs| == |frames| && j < SMURF_SAMPLES && GoodConfigs(cs)
  {
    && |ws| == |frames| + 1 && |data| == |frames| && ws[0] == 0
    && (forall t :: 0 <= t < |frames| ==> |data[t]| == SMURF_SAMPLES)
    && forall t :: 0 <= t < |frames| ==>
         Turned(ws[t], ws[t + 1], data[t][j], frames[t].samples[cs[t].mask[j]], Previous(frames, t, cs[t].mask[j]),
                Accepted(frames, t), frames[t].clear)
  }

  lemma {:induction false} ChainWraps(cs: seq<Config>, frames: seq<Frame>, j: nat, ws: seq<int32>,
                                      data: seq<seq<int32>>, n: nat)
    requires |cs| == |frames| && j < SMURF_SAMPLES && GoodConfigs(cs)
    requires ChannelChain(cs, frames, j, ws, data) && n <= |frames|
    ensures ws[n] == Signed32(0x1_0000 * TurnsBefore(cs, frames, n, j))
  {
    if n > 0 {
      ChainWraps(cs, frames, j, ws, data, n - 1);
      ChainTurns(cs, frames, j, ws, data, n - 1);
    }
  }

  lemma ChainTurns(cs: seq<Config>, frames: seq<Frame>, j: nat, ws: seq<int32>, data: seq<seq<int32>>, t: nat)
    requires |cs| == |frames| && j < SMURF_SAMPLES && GoodConfigs(cs)
    requires ChannelChain(cs, frames, j, ws, data) && t < |frames|
    requires ws[t] == Signed32(0x1_0000 * TurnsBefore(cs, frames, t, j))
    ensures data[t][j] == Signed32(frames[t].samples[cs[t].mask[j]]
                                   + 0x1_0000 * (TurnsBefore(cs, frames, t, j) + TurnInto(cs, frames, t, j)))
    ensures ws[t + 1] == Signed32(0x1_0000 * TurnsBefore(cs, frames, t + 1, j))
  {
    var d, p := frames[t].samples[cs[t].mask[j]], Previous(frames, t, cs[t].mask[j]);
    TurnedValue(ws[t], ws[t + 1], data[t][j], d, p, Accepted(frames, t), frames[t].clear,
                TurnsBefore(cs, frames, t, j));
  }

  // ---------------------------------------------------------------------------
  // The loop
  // ---------------------------------------------------------------------------

  lemma TurnedStep(cfg: Config, s: State, f: Frame, j: nat)
    requires GoodConfig(cfg) && Sound(s) && j < SMURF_SAMPLES
    ensures Turned(s.wraps[j], StateAfter(cfg, s, f).wraps[j], InputData(cfg, Counted(s, f), f)[j],
                   f.samples[cfg.mask[j]], s.last[cfg.mask[j]], !Discarded(s, f), f.clear)
  {
    StepLinks(cfg, s, f);
  }

  lemma LoopLast(cfg: Config, frames: seq<Frame>, files: seq<Config>, t: nat, c: nat)
    requires GoodConfig(cfg) && GoodFiles(files) && t < |frames| == |files| && c < SMURF_RAW_SAMPLES
    ensures LoopAt(cfg, frames, files, t).s.last[c] == Previous(frames, t, c)
  {
    if t > 0 {
      SentStep(LoopAt(cfg, frames, files, t - 1), frames[t - 1], files[t - 1]);
    }
  }

  lemma ConfigsGood(cfg: Config, frames: seq<Frame>, files: seq<Config>)
    requires GoodConfig(cfg) && GoodFiles(files) && |frames| == |files|
    ensures GoodConfigs(Configs(cfg, frames, files))
  {}

  lemma TurnedAt(cfg: Config, frames: seq<Frame>, files: seq<Config>, t: nat, j: nat)
    requires GoodConfig(cfg) && GoodFiles(files) && t < |frames| == |files| && j < SMURF_SAMPLES
    ensures var l, c := LoopAt(cfg, frames, files, t), ConfigAt(cfg, frames, files, t).mask[j];
            Turned(l.s.wraps[j], LoopStep(l, frames[t], files[t]).0.s.wraps[j], DataOf(l, frames[t])[j],
                   frames[t].samples[c], Previous(frames, t, c), Accepted(frames, t), frames[t].clear)
  {
    var l, c := LoopAt(cfg, frames, files, t), ConfigAt(cfg, frames, files, t).mask[j];
    ConfigurationInForce(cfg, frames, files, t);
    LoopDiscards(cfg, frames, files, t);
    LoopLast(cfg, frames, files, t, c);
    SentStep(l, frames[t], files[t]);
    TurnedStep(l.cfg, l.s, frames[t], j);
  }

  ghost function WrapsOf(ls: seq<LoopState>, j: nat): (ws: seq<int32>)
    requires j < SMURF_SAMPLES && forall n :: 0 <= n < |ls| ==> |ls[n].s.wraps| == SMURF_SAMPLES
    ensures |ws| == |ls|
  {
    seq(|ls|, n requires 0 <= n < |ls| => ls[n].s.wraps[j])
  }

  lemma StatesRun(cfg: Config, frames: seq<Frame>, files: seq<Config>)
    requires GoodConfig(cfg) && GoodFiles(files) && |frames| == |files|
    ensures forall n :: 0 <= n <= |frames| ==> |States(cfg, frames, files)[n].s.wraps| == SMURF_SAMPLES
  {
    forall n | 0 <= n <= |frames| ensures |States(cfg, frames, files)[n].s.wraps| == SMURF_SAMPLES {
      StateIs(cfg, frames, files, n);
    }
  }

  lemma ChannelLinks(cfg: Config, frames: seq<Frame>, files: seq<Config>, t: nat, j: nat)
    requires GoodConfig(cfg) && GoodFiles(files) && t < |frames| == |files| && j < SMURF_SAMPLES
    ensures var ls, c := States(cfg, frames, files), ConfigAt(cfg, frames, files, t).mask[j];
            && |ls[t].s.wraps| == |ls[t + 1].s.wraps| == SMURF_SAMPLES
            && Turned(ls[t].s.wraps[j], ls[t + 1].s.wraps[j], LoopData(cfg, frames, files)[t][j],
                      frames[t].samples[c], Previous(frames, t, c), Accepted(frames, t), frames[t].clear)
  {
    TurnedAt(cfg, frames, files, t, j);
    StateIs(cfg, frames, files, t);
    StatesFollow(cfg, frames, files, t);
  }

  lemma LoopChannel(cfg: Config, frames: seq<Frame>, files: seq<Config>, j: nat)
    returns (cs: seq<Config>, ws: seq<int32>, data: seq<seq<int32>>)
    requires GoodConfig(cfg) && GoodFiles(files) && |frames| == |files| && j < SMURF_SAMPLES
    ensures cs == Configs(cfg, frames, files) && data == LoopData(cfg, frames, files)
    ensures GoodConfigs(cs) && ChannelChain(cs, frames, j, ws, data)
  {
    cs, data := Configs(cfg, frames, files), LoopData(cfg, frames, files);
    ConfigsGood(cfg, frames, files);
    StatesRun(cfg, frames, files);
    ws := WrapsOf(States(cfg, frames, files), j);
    StateIs(cfg, frames, files, 0);
    forall t | 0 <= t < |frames|
      ensures Turned(ws[t], ws[t + 1], data[t][j], frames[t].samples[cs[t].mask[j]],
                     Previous(frames, t, cs[t].mask[j]), Accepted(frames, t), frames[t].clear)
    {
      ChannelLinks(cfg, frames, files, t, j);
    }
  }

  /**
   * The value law of the whole loop: at every frame the value of a channel is its sample, under the
   * mask in force, and 2^16 for each turn into an accepted frame since the last clear, in 32 bits.
   */
  lemma ValuesAre(cfg: Config, frames: seq<Frame>, files: seq<Config>, t: nat, j: nat)
    returns (cs: seq<Config>, data: seq<seq<int32>>)
    requires GoodConfig(cfg) && GoodFiles(files) && t < |frames| == |files| && j < SMURF_SAMPLES
    ensures cs == Configs(cfg, frames, files) && data == LoopData(cfg, frames, files)
    ensures GoodConfigs(cs) && |data[t]| == SMURF_SAMPLES
    ensures data[t][j] == Signed32(frames[t].samples[cs[t].mask[j]]
                                   + 0x1_0000 * (TurnsBefore(cs, frames, t, j) + TurnInto(cs, frames, t, j)))
  {
    var ws;
    cs, ws, data := LoopChannel(cfg, frames, files, j);
    ChainWraps(cs, frames, j, ws, data, t);
    ChainTurns(cs, frames, j, ws, data, t);
  }
}
