/** Received, lost and out-of-order frames over whole runs. */
module FrameAccounting {
  import opened Words
  import opened Processor

  // Over the first n frames of a run: how far the numbers fall at out-of-order frames, how many
  // such frames there are, and how many neighbours carry the same number.

  function Drops(frames: seq<Frame>, n: nat): nat
    requires n <= |frames|
  {
    if n < 2 then 0
    else
      var (p, f) := (frames[n - 2].number, frames[n - 1].number);
      Drops(frames, n - 1) + (if f < p then p - f else 0)
  }

  function OutOfOrder(frames: seq<Frame>, n: nat): nat
    requires n <= |frames|
  {
    if n < 2 then 0
    else OutOfOrder(frames, n - 1) + (if frames[n - 1].number < frames[n - 2].number then 1 else 0)
  }

  function Repeats(frames: seq<Frame>, n: nat): nat
    requires n <= |frames|
  {
    if n < 2 then 0
    else Repeats(frames, n - 1) + (if frames[n - 1].number == frames[n - 2].number then 1 else 0)
  }

  predicate NoRepeats(frames: seq<Frame>, n: nat)
    requires n <= |frames|
  {
    forall t :: 0 < t < n ==> frames[t].number != frames[t - 1].number
  }

  /**
   * The counting law of every run: each repeated number is taken for 2^32 - 1 lost frames, and each
   * step back for a gap to be made up again.
   */
  lemma {:induction false} CountingLaw(cfg: Config, frames: seq<Frame>, n: nat)
    requires GoodConfig(cfg) && 0 < n <= |frames|
    ensures var s := Run(cfg, frames, n);
            && s.received + s.lost == 1 + frames[n - 1].number - frames[0].number
                                      + Drops(frames, n) + TWO_32 * Repeats(frames, n)
            && s.received + s.outOfOrder == n
            && s.outOfOrder == OutOfOrder(frames, n)
            && s.frameNumber == frames[n - 1].number && !s.firstFrame
  {
    StepCounts(cfg, Run(cfg, frames, n - 1), frames[n - 1]);
    if n > 1 {
      CountingLaw(cfg, frames, n - 1);
      Gap(frames[n - 2], frames[n - 1]);
    }
  }

  lemma Gap(p: Frame, f: Frame)
    ensures f.number > p.number ==> (f.number - p.number - 1) % TWO_32 == f.number - p.number - 1
    ensures f.number == p.number ==> (f.number - p.number - 1) % TWO_32 == TWO_32 - 1
  {}

  lemma StepCounts(cfg: Config, s: State, f: Frame)
    requires GoodConfig(cfg) && Sound(s)
    ensures var s' := Step(cfg, s, f).0;
            && s'.frameNumber == f.number && !s'.firstFrame
            && s'.outOfOrder == s.outOfOrder + (if Discarded(s, f) then 1 else 0)
            && s'.received == s.received + (if Discarded(s, f) then 0 else 1)
            && s'.lost == if s.firstFrame || Discarded(s, f) then s.lost
                          else s.lost + (f.number - s.frameNumber - 1) % TWO_32
  {}

  /**
   * Received plus lost frames make up the whole span of frame numbers, drops included, exactly
   * when no two neighbours carry the same number.
   */
  lemma AccountingExact(cfg: Config, frames: seq<Frame>, n: nat)
    requires GoodConfig(cfg) && 0 < n <= |frames|
    ensures var s := Run(cfg, frames, n);
            s.received + s.lost == 1 + frames[n - 1].number - frames[0].number + Drops(frames, n)
            <==> NoRepeats(frames, n)
  {
    CountingLaw(cfg, frames, n);
    RepeatsCount(frames, n);
  }

  lemma {:induction false} RepeatsCount(frames: seq<Frame>, n: nat)
    requires n <= |frames|
    ensures Repeats(frames, n) == 0 <==> NoRepeats(frames, n)
  {
    if n >= 2 {
      RepeatsCount(frames, n - 1);
    }
  }

  predicate Increasing(frames: seq<Frame>, n: nat)
    requires n <= |frames|
  {
    forall t :: 0 < t < n ==> frames[t - 1].number < frames[t].number
  }

  /** With increasing numbers nothing is discarded and every number is received or counted lost. */
  lemma IncreasingRun(cfg: Config, frames: seq<Frame>, n: nat)
    requires GoodConfig(cfg) && 0 < n <= |frames| && Increasing(frames, n)
    ensures var s := Run(cfg, frames, n);
            && s.received == n && s.outOfOrder == 0
            && s.received + s.lost == frames[n - 1].number - frames[0].number + 1
  {
    CountingLaw(cfg, frames, n);
    NoStepBack(frames, n);
  }

  lemma {:induction false} NoStepBack(frames: seq<Frame>, n: nat)
    requires n <= |frames| && Increasing(frames, n)
    ensures Drops(frames, n) == 0 && OutOfOrder(frames, n) == 0 && Repeats(frames, n) == 0
  {
    if n >= 2 {
      NoStepBack(frames, n - 1);
    }
  }

  // ---------------------------------------------------------------------------
  // The loop with configuration re-reads
  // ---------------------------------------------------------------------------

  predicate SameCounters(s: State, t: State) {
    && s.received == t.received && s.lost == t.lost && s.outOfOrder == t.outOfOrder
    && s.frameNumber == t.frameNumber && s.firstFrame == t.firstFrame
  }

  /** Re-reads of the configuration do not touch the counters. */
  lemma {:induction false} CountersIgnoreConfig(cfg: Config, frames: seq<Frame>, files: seq<Config>, n: nat)
    requires GoodConfig(cfg) && GoodFiles(files) && n <= |frames| == |files|
    ensures SameCounters(LoopAt(cfg, frames, files, n).s, Run(cfg, frames, n))
  {
    if n > 0 {
      CountersIgnoreConfig(cfg, frames, files, n - 1);
      CountersStep(LoopAt(cfg, frames, files, n - 1), cfg, Run(cfg, frames, n - 1), frames[n - 1], files[n - 1]);
    }
  }

  lemma CountersStep(l: LoopState, cfg: Config, s: State, f: Frame, files: Config)
    requires Running(l) && GoodConfig(cfg) && GoodConfig(files) && Sound(s) && SameCounters(l.s, s)
    ensures SameCounters(LoopStep(l, f, files).0.s, Step(cfg, s, f).0)
  {
    StepCounts(l.cfg, l.s, f);
    StepCounts(cfg, s, f);
  }

  /** So the counting law and its exact case hold for the whole loop, whatever the configuration files hold. */
  lemma LoopCountingLaw(cfg: Config, frames: seq<Frame>, files: seq<Config>, n: nat)
    requires GoodConfig(cfg) && GoodFiles(files) && 0 < n <= |frames| == |files|
    ensures var s := LoopAt(cfg, frames, files, n).s;
            var span := 1 + frames[n - 1].number - frames[0].number + Drops(frames, n);
            && s.received + s.lost == span + TWO_32 * Repeats(frames, n)
            && (s.received + s.lost == span <==> NoRepeats(frames, n))
            && s.received + s.outOfOrder == n && s.outOfOrder == OutOfOrder(frames, n)
  {
    CountersIgnoreConfig(cfg, frames, files, n);
    CountingLaw(cfg, frames, n);
    AccountingExact(cfg, frames, n);
  }
}
