/** Phase unwrapping in the frame loop (src/smurf_processor.cpp, runThread). */
module PhaseUnwrap {
  import opened Words

  const SMURF_RAW_SAMPLES := 4096
  const UPPER_UNWRAP := 0x6000
  const LOWER_UNWRAP := -0x6000

  type Samples = s: seq<int16> | |s| == SMURF_RAW_SAMPLES witness seq(SMURF_RAW_SAMPLES, _ => 0)

  /** Every entry read_mask stores is below 4096. */
  predicate GoodMask(mask: seq<nat>) {
    forall j :: 0 <= j < |mask| ==> mask[j] < SMURF_RAW_SAMPLES
  }

  /** What one frame adds to a wrap counter, from this sample d and the previous one p. */
  function WrapStep(d: int16, p: int16): int {
    if d > UPPER_UNWRAP && p < LOWER_UNWRAP then -TWO_16
    else if d < LOWER_UNWRAP && p > UPPER_UNWRAP then TWO_16
    else 0
  }

  function NextWrap(wrap: int32, d: int16, p: int16): int32 {
    var w: int := wrap;
    Signed32(w + WrapStep(d, p))
  }

  /** (avgdata_t) d + wrap, in 32 bits. */
  function Unwrapped(d: int16, wrap: int32): int32 {
    var x: int := d;
    Signed32(x + wrap)
  }

  function NextWraps(wraps: seq<int32>, d: Samples, p: Samples, mask: seq<nat>): (r: seq<int32>)
    requires |wraps| == |mask| && GoodMask(mask)
    ensures |r| == |mask|
  {
    seq(|mask|, j requires 0 <= j < |mask| => NextWrap(wraps[j], d[mask[j]], p[mask[j]]))
  }

  function Inputs(wraps: seq<int32>, d: Samples, mask: seq<nat>): (r: seq<int32>)
    requires |wraps| == |mask| && GoodMask(mask)
    ensures |r| == |mask|
  {
    seq(|mask|, j requires 0 <= j < |mask| => Unwrapped(d[mask[j]], wraps[j]))
  }

  /** The unwrap loop, in place over the two per-channel arrays. */
  method UnwrapFrame(d: Samples, p: Samples, mask: seq<nat>, wrapCounter: array<int32>, inputData: array<int32>)
    requires GoodMask(mask) && wrapCounter.Length == inputData.Length == |mask|
    requires wrapCounter != inputData
    modifies wrapCounter, inputData
    ensures wrapCounter[..] == NextWraps(old(wrapCounter[..]), d, p, mask)
    ensures inputData[..] == Inputs(wrapCounter[..], d, mask)
  {
    ghost var before := wrapCounter[..];
    for j := 0 to |mask|
      invariant forall k :: 0 <= k < j ==> wrapCounter[k] == NextWrap(before[k], d[mask[k]], p[mask[k]])
      invariant forall k :: 0 <= k < j ==> inputData[k] == Unwrapped(d[mask[k]], wrapCounter[k])
      invariant forall k :: j <= k < |mask| ==> wrapCounter[k] == before[k]
    {
      var dctr := mask[j];
      wrapCounter[j] := UpdateCounter(wrapCounter[j], d[dctr], p[dctr]);
      inputData[j] := Unwrapped(d[dctr], wrapCounter[j]);
    }
    assert wrapCounter[..] == NextWraps(before, d, p, mask);
    assert inputData[..] == Inputs(wrapCounter[..], d, mask);
  }

  /** The two branches of the unwrap rule; without a wrap the counter is left alone. */
  function UpdateCounter(wrap: int32, d: int16, p: int16): (r: int32)
    ensures r == NextWrap(wrap, d, p)
  {
    var w: int := wrap;
    if d > UPPER_UNWRAP && p < LOWER_UNWRAP then Signed32(w - 0x1_0000)
    else if d < LOWER_UNWRAP && p > UPPER_UNWRAP then Signed32(w + 0x1_0000)
    else wrap
  }

  // ---------------------------------------------------------------------------
  // Arithmetic of wrapped integers
  // ---------------------------------------------------------------------------

  /** Whole turns of 2^16 in a true signal value; the sample delivered is what remains. */
  function Turns(x: int): int {
    (x + 0x8000) / TWO_16
  }

  lemma SampleAndTurns(x: int)
    ensures x == Signed16(x) + TWO_16 * Turns(x)
  {}

  lemma Signed32Absorbs(x: int, y: int)
    ensures Signed32(Signed32(x) + y) == Signed32(x + y)
  {
    var z := Signed32(x) + y;
    var k := (x + 0x8000_0000) / TWO_32;
    assert x + y == z + k * TWO_32;
    var m := (z + 0x8000_0000) / TWO_32;
    assert z == Signed32(z) + m * TWO_32;
    Signed32Unique(x + y, Signed32(z), k + m);
  }

  lemma Signed32Multiple(k: int)
    ensures Signed32(TWO_16 * k) % TWO_16 == 0
  {
    var q := (TWO_16 * k + 0x8000_0000) / TWO_32;
    assert Signed32(TWO_16 * k) == TWO_16 * (k - TWO_16 * q);
  }

  // ---------------------------------------------------------------------------
  // What unwrapping guarantees
  // ---------------------------------------------------------------------------

  /** For any samples: a wrap counter that is a multiple of 2^16 stays one, and the value is congruent to the sample. */
  lemma CongruentStep(d: int16, p: int16, wrap: int32)
    requires wrap % TWO_16 == 0
    ensures NextWrap(wrap, d, p) % TWO_16 == 0
    ensures Signed16(Unwrapped(d, NextWrap(wrap, d, p))) == d
  {
    var w: int := wrap;
    var k := w / TWO_16 + WrapStep(d, p) / TWO_16;
    assert w + WrapStep(d, p) == TWO_16 * k;
    Signed32Multiple(k);
    CongruentValue(d, NextWrap(wrap, d, p) as int / TWO_16);
  }

  lemma CongruentValue(d: int16, k: int)
    ensures Signed16(Signed32(d as int + TWO_16 * k)) == d
  {
    var x := d as int + TWO_16 * k;
    var q := (x + 0x8000_0000) / TWO_32;
    assert Signed32(x) == d as int + TWO_16 * (k - TWO_16 * q);
  }

  ghost predicate StepsWithin(bound: int) {
    forall x: int, y: int :: x - y <= bound && y - x <= bound ==>
      WrapStep(Signed16(y), Signed16(x)) == TWO_16 * (Turns(y) - Turns(x))
  }

  /** The wrap counter follows the true number of turns for all steps up to a bound iff it is at most 0x1FFF. */
  lemma UnwrapBoundIsTight(bound: nat)
    ensures StepsWithin(bound) <==> bound <= 0x1FFF
  {
    if bound <= 0x1FFF {
      forall x: int, y: int | x - y <= bound && y - x <= bound
        ensures WrapStep(Signed16(y), Signed16(x)) == TWO_16 * (Turns(y) - Turns(x))
      {
        SmallStep(x, y);
      }
    } else {
      assert Signed16(0x8000) == -0x8000 && Signed16(0x6000) == 0x6000;
      assert Turns(0x8000) == 1 && Turns(0x6000) == 0;
      assert WrapStep(Signed16(0x8000), Signed16(0x6000)) == 0;
    }
  }

  lemma SmallStep(x: int, y: int)
    requires -0x1FFF <= y - x <= 0x1FFF
    ensures WrapStep(Signed16(y), Signed16(x)) == TWO_16 * (Turns(y) - Turns(x))
  {
    SampleAndTurns(x);
    SampleAndTurns(y);
    var k := Turns(y) - Turns(x);
    assert Signed16(y) - Signed16(x) == y - x - TWO_16 * k;
    assert -1 <= k <= 1;
  }

  /**
   * One frame for one channel.  If the counter stands for the turns made since `anchor`, it does so
   * after the frame too, and the unwrapped value is the true one less 2^16 times the anchor.
   */
  lemma AnchoredStep(x: int, y: int, anchor: int, wrap: int)
    requires -0x1FFF <= y - x <= 0x1FFF
    requires wrap == Signed32(TWO_16 * (Turns(x) - anchor))
    ensures Signed32(wrap + WrapStep(Signed16(y), Signed16(x))) == Signed32(TWO_16 * (Turns(y) - anchor))
    ensures Signed32(Signed16(y) + Signed32(TWO_16 * (Turns(y) - anchor))) == Signed32(y - TWO_16 * anchor)
  {
    SmallStep(x, y);
    Signed32Absorbs(TWO_16 * (Turns(x) - anchor), WrapStep(Signed16(y), Signed16(x)));
    SampleAndTurns(y);
    Signed32Absorbs(TWO_16 * (Turns(y) - anchor), Signed16(y));
  }
}
