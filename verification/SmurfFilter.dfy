/** The digital filter (SmurfFilter in src/smurf_processor.cpp), over exact reals. */
module DigitalFilter {
  import opened Words

  const FLAT_AVERAGE := -1

  /** One call of filter(): the channel inputs and the coefficients passed with them. */
  datatype Call = Call(data: seq<int32>, order: int, a: seq<real>, b: seq<real>, g: real)

  /**
   * What the code needs of its arguments: enough records and coefficients, a nonzero divisor, and
   * for taps a ring size the wrapped index is right for (see RingIndexNeedsDivisor).
   */
  predicate GoodCall(c: Call, samples: nat, records: nat) {
    && |c.data| == samples
    && records > 0 && c.order < records
    && (c.order >= 1 ==> TWO_32 % records == 0)
    && (c.order != FLAT_AVERAGE ==> |c.a| > Taps(c) && |c.b| > Taps(c) && c.a[0] != 0.0)
  }

  predicate GoodCalls(calls: seq<Call>, samples: nat, records: nat) {
    forall k :: 0 <= k < |calls| ==> GoodCall(calls[k], samples, records)
  }

  /** How often the inner loop runs: an order below one runs it not at all. */
  function Taps(c: Call): nat {
    if c.order < 0 then 0 else c.order
  }

  // ---------------------------------------------------------------------------
  // Casts
  // ---------------------------------------------------------------------------

  /** Truncation toward zero. */
  function Truncate(x: real): int {
    if x >= 0.0 then x.Floor else -((-x).Floor)
  }

  /** C++ division of signed integers. */
  function TruncatedQuotient(s: int, n: int): int
    requires n > 0
  {
    if s >= 0 then s / n else -((-s) / n)
  }

  const INT32_INDEFINITE: int32 := -0x8000_0000

  /**
   * (avgdata_t) x.  Outside int32 the C++ conversion is undefined; the value written here is what
   * x86 produces.  Block averages never get there (FlatOutputIsMean).
   */
  function Cast(x: real): int32 {
    if FitsInt32(Truncate(x)) then Truncate(x) else INT32_INDEFINITE
  }

  /** The running sum divided by a 32-bit count; a count that wrapped to zero divides by zero. */
  function Mean(sum: real, count: nat): int32 {
    if count == 0 then INT32_INDEFINITE else Cast(sum / count as real)
  }

  function Amplified(y: real, g: real): int32 {
    Cast(y * g)
  }

  function TapTerm(b: real, x: real, a: real, y: real): real {
    b * x - a * y
  }

  // ---------------------------------------------------------------------------
  // Reference: the calls since the last clear determine every output
  // ---------------------------------------------------------------------------

  /** The calls that count after one more: another order starts over. */
  function Push(calls: seq<Call>, c: Call): seq<Call> {
    if Order(calls) == c.order then calls + [c] else [c]
  }

  function Order(calls: seq<Call>): int {
    if calls == [] then FLAT_AVERAGE else calls[|calls| - 1].order
  }

  ghost predicate Uniform(calls: seq<Call>) {
    forall k :: 0 <= k < |calls| ==> calls[k].order == Order(calls)
  }

  /** Sum of channel n over the calls. */
  function Sum(calls: seq<Call>, n: nat): int
    requires forall k :: 0 <= k < |calls| ==> n < |calls[k].data|
  {
    if calls == [] then 0
    else
      var last := |calls| - 1;
      Sum(calls[..last], n) + calls[last].data[n]
  }

  /** Input of channel n at time t, zero outside the history. */
  function X(calls: seq<Call>, t: int, n: nat): real {
    if 0 <= t < |calls| && n < |calls[t].data| then calls[t].data[n] as real else 0.0
  }

  /**
   * The textbook recursion
   *   a(0) y(t) = b(0) x(t) + sum over r = 1 .. order of b(r) x(t-r) - a(r) y(t-r)
   * with the coefficients of call t, and zeros before the history.
   */
  function Y(calls: seq<Call>, t: int, n: nat): real
    decreases if t < 0 then 0 else t + 1, 1, 0
  {
    if 0 <= t < |calls| && |calls[t].a| > 0 && calls[t].a[0] != 0.0
    then Partial(calls, t, n, Taps(calls[t])) / calls[t].a[0]
    else 0.0
  }

  /** The right-hand side up to tap r. */
  function Partial(calls: seq<Call>, t: int, n: nat, r: nat): real
    requires 0 <= t < |calls|
    decreases t + 1, 0, r
  {
    var c := calls[t];
    if r == 0 then Coefficient(c.b, 0) * X(calls, t, n)
    else
      Partial(calls, t, n, r - 1)
      + TapTerm(Coefficient(c.b, r), X(calls, t - r, n), Coefficient(c.a, r), Y(calls, t - r, n))
  }

  function Coefficient(s: seq<real>, r: nat): real {
    if r < |s| then s[r] else 0.0
  }

  /** What channel n of the output holds after the last of the calls. */
  function Output(calls: seq<Call>, n: nat): int32
    requires calls != [] && forall k :: 0 <= k < |calls| ==> n < |calls[k].data|
  {
    var last := calls[|calls| - 1];
    if last.order == FLAT_AVERAGE then
      Mean(Sum(calls, n) as real, |calls| % TWO_32)
    else Amplified(Y(calls, |calls| - 1, n), last.g)
  }

  function Outputs(calls: seq<Call>, samples: nat): (r: seq<int32>)
    requires calls != [] && forall k :: 0 <= k < |calls| ==> |calls[k].data| == samples
    ensures |r| == samples
  {
    seq(samples, n requires 0 <= n < samples => Output(calls, n))
  }

  // ---------------------------------------------------------------------------
  // The wrapped ring index
  // ---------------------------------------------------------------------------

  /** (bn - r) % records with an int difference converted to 32-bit unsigned first. */
  function RingIndex(bn: nat, r: nat, records: nat): nat
    requires records > 0
  {
    (bn - r) % TWO_32 % records
  }

  /** The slot written r calls before slot bn. */
  function SlotBack(bn: nat, r: nat, records: nat): nat
    requires bn < records && r < records
  {
    if r <= bn then bn - r else bn + records - r
  }

  ghost predicate RingIndexRight(records: nat)
    requires records > 0
  {
    forall bn: nat, r: nat :: bn < records && r < records ==> RingIndex(bn, r, records) == SlotBack(bn, r, records)
  }

  /** The mixed signed/unsigned index finds the right slot for every pair iff the ring size divides 2^32. */
  lemma RingIndexNeedsDivisor(records: nat)
    requires 0 < records < TWO_32
    ensures RingIndexRight(records) <==> TWO_32 % records == 0
  {
    if TWO_32 % records == 0 {
      forall bn: nat, r: nat | bn < records && r < records
        ensures RingIndex(bn, r, records) == SlotBack(bn, r, records)
      {
        RingIndexWraps(bn, r, records);
      }
    } else {
      assert records > 1;
      assert RingIndex(0, 1, records) == (TWO_32 - 1) % records;
      assert SlotBack(0, 1, records) == records - 1;
      if (TWO_32 - 1) % records == records - 1 {
        ModUnique(TWO_32, (TWO_32 - 1) / records + 1, 0, records);
        assert false;
      }
    }
  }

  lemma RingIndexWraps(bn: nat, r: nat, records: nat)
    requires 0 < records < TWO_32 && TWO_32 % records == 0 && bn < records && r < records
    ensures RingIndex(bn, r, records) == SlotBack(bn, r, records)
  {
    if r > bn {
      var q := TWO_32 / records;
      assert TWO_32 == q * records;
      ModUnique(bn - r, -1, TWO_32 + bn - r, TWO_32);
      assert TWO_32 + bn - r == (q - 1) * records + (records + bn - r);
      ModUnique(TWO_32 + bn - r, q - 1, records + bn - r, records);
    } else {
      ModUnique(bn - r, 0, bn - r, TWO_32);
      ModUnique(bn - r, 0, bn - r, records);
    }
  }

  // ---------------------------------------------------------------------------
  // The history only grows at its end
  // ---------------------------------------------------------------------------

  lemma {:induction false} YOfPrefix(calls: seq<Call>, more: seq<Call>, t: int, n: nat)
    requires t < |calls|
    ensures X(calls + more, t, n) == X(calls, t, n)
    ensures Y(calls + more, t, n) == Y(calls, t, n)
    decreases if t < 0 then 0 else t + 1, 1, 0
  {
    if t >= 0 {
      PartialOfPrefix(calls, more, t, n, Taps(calls[t]));
    }
  }

  lemma {:induction false} PartialOfPrefix(calls: seq<Call>, more: seq<Call>, t: int, n: nat, r: nat)
    requires 0 <= t < |calls|
    ensures Partial(calls + more, t, n, r) == Partial(calls, t, n, r)
    decreases t + 1, 0, r
  {
    if r > 0 {
      PartialOfPrefix(calls, more, t, n, r - 1);
      YOfPrefix(calls, more, t - r, n);
    }
  }

  lemma SumStep(calls: seq<Call>, c: Call, n: nat)
    requires forall k :: 0 <= k < |calls| ==> n < |calls[k].data|
    requires n < |c.data|
    ensures Sum(calls + [c], n) as real == Sum(calls, n) as real + c.data[n] as real
  {
    assert (calls + [c])[..|calls|] == calls;
  }

  /** Where the ring keeps what lies r calls back, before and after one more call. */
  lemma HistoryStep(calls: seq<Call>, c: Call, bn: nat, records: nat, r: nat, n: nat)
    requires bn < records && 1 <= r < records
    ensures SlotBack((bn + 1) % records, r, records) == SlotBack(bn, r - 1, records)
    ensures X(calls + [c], |calls| - r, n) == X(calls, |calls| - 1 - (r - 1), n)
    ensures Y(calls + [c], |calls| - r, n) == Y(calls, |calls| - 1 - (r - 1), n)
  {
    SlotStep(bn, r, records);
    YOfPrefix(calls, [c], |calls| - r, n);
  }

  // ---------------------------------------------------------------------------
  // The class
  // ---------------------------------------------------------------------------

  class SmurfFilter {
    const samples: nat
    const records: nat
    const xd: array2<real>
    const yd: array2<real>
    const output: array<int32>
    var bn: nat
    var samplesSinceClear: nat
    var orderN: int
    ghost var calls: seq<Call>

    ghost predicate Shaped() {
      && records < TWO_32
      && xd.Length0 == yd.Length0 == records && xd.Length1 == yd.Length1 == samples
      && output.Length == samples
      && xd != yd
    }

    ghost predicate Valid()
      reads this, xd, yd
    {
      && Shaped()
      && GoodCalls(calls, samples, records) && Uniform(calls)
      && orderN == Order(calls)
      && samplesSinceClear == |calls| % TWO_32
      && (orderN == FLAT_AVERAGE ==> bn == 0 && HoldsSum())
      && (orderN != FLAT_AVERAGE ==> records > 0 && bn == |calls| % records && HoldsHistory())
    }

    /** Flat average: row 0 of yd is the running sum, everything else is zero. */
    ghost predicate HoldsSum()
      requires Shaped() && GoodCalls(calls, samples, records)
      reads this, yd, xd
    {
      && (records > 0 ==> forall n :: 0 <= n < samples ==> yd[0, n] == Sum(calls, n) as real)
      && (forall r, n :: 1 <= r < records && 0 <= n < samples ==> yd[r, n] == 0.0)
      && (forall r, n :: 0 <= r < records && 0 <= n < samples ==> xd[r, n] == 0.0)
    }

    /** Otherwise the ring holds the last inputs and outputs of every channel, newest at bn. */
    ghost predicate HoldsHistory()
      requires Shaped() && bn < records
      reads this, yd, xd
    {
      InputsHeld(calls, bn, 0) && OutputsHeld(calls, bn, 0)
    }

    /** With `newest` the slot of the last call, inputs `from` or more calls back are where SlotBack finds them. */
    ghost predicate InputsHeld(calls: seq<Call>, newest: nat, from: nat)
      requires Shaped() && newest < records
      reads xd
    {
      forall r: nat, n: nat :: from <= r < records && n < samples ==>
        xd[SlotBack(newest, r, records), n] == X(calls, |calls| - 1 - r, n)
    }

    ghost predicate OutputsHeld(calls: seq<Call>, newest: nat, from: nat)
      requires Shaped() && newest < records
      reads yd
    {
      forall r: nat, n: nat :: from <= r < records && n < samples ==>
        yd[SlotBack(newest, r, records), n] == Y(calls, |calls| - 1 - r, n)
    }

    /** One more call moves every entry one step back without touching it. */
    lemma HistoryShifts(calls: seq<Call>, newest: nat, c: Call)
      requires Shaped() && newest < records
      requires InputsHeld(calls, newest, 0) && OutputsHeld(calls, newest, 0)
      ensures InputsHeld(calls + [c], (newest + 1) % records, 1)
      ensures OutputsHeld(calls + [c], (newest + 1) % records, 1)
    {
      var next := (newest + 1) % records;
      forall r: nat, k: nat | 1 <= r < records && k < samples
        ensures xd[SlotBack(next, r, records), k] == X(calls + [c], |calls| - r, k)
        ensures yd[SlotBack(next, r, records), k] == Y(calls + [c], |calls| - r, k)
      {
        HistoryStep(calls, c, newest, records, r, k);
        assert xd[SlotBack(newest, r - 1, records), k] == X(calls, |calls| - 1 - (r - 1), k);
        assert yd[SlotBack(newest, r - 1, records), k] == Y(calls, |calls| - 1 - (r - 1), k);
      }
    }

    constructor (numSamples: nat, numRecords: nat)
      requires numRecords < TWO_32
      ensures Valid() && calls == []
      ensures samples == numSamples && records == numRecords
      ensures fresh(xd) && fresh(yd) && fresh(output)
    {
      records := numRecords;
      samples := numSamples;
      xd := new real[numRecords, numSamples]((i, j) => 0.0);
      yd := new real[numRecords, numSamples]((i, j) => 0.0);
      output := new int32[numSamples](_ => 0);
      bn := 0;
      samplesSinceClear := 0;
      orderN := FLAT_AVERAGE;
      calls := [];
    }

    method ClearFilter()
      requires Shaped()
      modifies this, xd, yd
      ensures Valid() && calls == []
    {
      forall r, n | 0 <= r < records && 0 <= n < samples {
        xd[r, n] := 0.0;
      }
      forall r, n | 0 <= r < records && 0 <= n < samples {
        yd[r, n] := 0.0;
      }
      samplesSinceClear := 0;
      orderN := FLAT_AVERAGE;
      bn := 0;
      calls := [];
    }

    method EndRun()
      requires Valid()
      modifies this, xd, yd
      ensures Valid()
      ensures calls == if Order(old(calls)) == FLAT_AVERAGE then [] else old(calls)
    {
      if orderN == FLAT_AVERAGE {
        ClearFilter();
      }
    }

    /** One call of filter(): the output is that of the reference on the calls since the last clear. */
    method Filter(c: Call)
      requires Valid() && GoodCall(c, samples, records)
      modifies this, xd, yd, output
      ensures Valid()
      ensures calls == Push(old(calls), c)
      ensures output[..] == Outputs(calls, samples)
    {
      if orderN != c.order {
        ClearFilter();
      }
      if c.order == FLAT_AVERAGE {
        FlatAverage(c);
      } else {
        Recursive(c);
      }
      assert forall n :: 0 <= n < samples ==> output[..][n] == Outputs(calls, samples)[n];
    }

    method FlatAverage(c: Call)
      requires Valid() && orderN == FLAT_AVERAGE == c.order && GoodCall(c, samples, records)
      modifies this, yd, output
      ensures Valid() && calls == old(calls) + [c]
      ensures forall n :: 0 <= n < samples ==> output[n] == Output(calls, n)
    {
      NextResidue(|calls|, TWO_32);
      orderN := c.order;
      samplesSinceClear := (samplesSinceClear + 1) % TWO_32;
      ghost var before := calls;
      calls := calls + [c];
      for n := 0 to samples
        modifies yd, output
        invariant forall k :: 0 <= k < n ==> yd[0, k] == Sum(calls, k) as real
        invariant forall k :: 0 <= k < n ==> output[k] == Output(calls, k)
        invariant forall k :: n <= k < samples ==> yd[0, k] == Sum(before, k) as real
        invariant forall r, k :: 1 <= r < records && 0 <= k < samples ==> yd[r, k] == 0.0
      {
        SumStep(before, c, n);
        yd[bn, n] := yd[bn, n] + c.data[n] as real;
        output[n] := Mean(yd[bn, n], samplesSinceClear);
      }
    }

    method Recursive(c: Call)
      requires Shaped() && GoodCalls(calls, samples, records) && GoodCall(c, samples, records)
      requires c.order != FLAT_AVERAGE && (calls == [] || (Uniform(calls) && Order(calls) == c.order))
      requires samplesSinceClear == |calls| % TWO_32 && bn == |calls| % records && HoldsHistory()
      modifies this, xd, yd, output
      ensures Valid() && calls == old(calls) + [c]
      ensures forall n :: 0 <= n < samples ==> output[n] == Output(calls, n)
    {
      Advance(c);
      StoreInputs(c);
      for n: nat := 0 to samples
        modifies yd, output
        invariant InputsHeld(calls, bn, 0) && OutputsHeld(calls, bn, 1)
        invariant forall k: nat :: k < n ==> yd[bn, k] == Y(calls, |calls| - 1, k)
        invariant forall k: nat :: k < n ==> output[k] == Output(calls, k)
      {
        Tap(c, n);
        output[n] := Amplified(yd[bn, n], c.g);
      }
      NewestSlot(bn, records);
    }

    /** Moves to the next ring slot; what lies one or more calls back is in place. */
    method Advance(c: Call)
      requires Shaped() && GoodCalls(calls, samples, records) && GoodCall(c, samples, records)
      requires c.order != FLAT_AVERAGE && (calls == [] || (Uniform(calls) && Order(calls) == c.order))
      requires samplesSinceClear == |calls| % TWO_32 && bn == |calls| % records && HoldsHistory()
      modifies this
      ensures calls == old(calls) + [c] && GoodCalls(calls, samples, records) && Uniform(calls)
      ensures orderN == c.order && samplesSinceClear == |calls| % TWO_32 && bn == |calls| % records
      ensures InputsHeld(calls, bn, 1) && OutputsHeld(calls, bn, 1)
    {
      HistoryShifts(calls, bn, c);
      NextResidue(|calls|, records);
      NextResidue(|calls|, TWO_32);
      orderN := c.order;
      samplesSinceClear := (samplesSinceClear + 1) % TWO_32;
      calls := calls + [c];
      bn := (bn + 1) % records;
    }

    /** Stores the inputs of this call and zeroes its outputs. */
    method StoreInputs(c: Call)
      requires Shaped() && bn < records && GoodCall(c, samples, records)
      requires calls != [] && c == calls[|calls| - 1]
      requires InputsHeld(calls, bn, 1) && OutputsHeld(calls, bn, 1)
      modifies xd, yd
      ensures InputsHeld(calls, bn, 0) && OutputsHeld(calls, bn, 1)
    {
      forall n | 0 <= n < samples {
        xd[bn, n] := c.data[n] as real;
      }
      forall n | 0 <= n < samples {
        yd[bn, n] := 0.0;
      }
      NewestSlot(bn, records);
    }

    /** The inner loop over taps for one channel. */
    method Tap(c: Call, n: nat)
      requires Shaped() && bn < records && n < samples
      requires calls != [] && c == calls[|calls| - 1] && GoodCall(c, samples, records) && c.order != FLAT_AVERAGE
      requires InputsHeld(calls, bn, 0) && OutputsHeld(calls, bn, 1)
      modifies yd
      ensures yd[bn, n] == Y(calls, |calls| - 1, n)
      ensures OutputsHeld(calls, bn, 1)
      ensures forall r, k :: 0 <= r < records && 0 <= k < samples && !(r == bn && k == n) ==> yd[r, k] == old(yd[r, k])
    {
      ghost var t := |calls| - 1;
      assert xd[SlotBack(bn, 0, records), n] == X(calls, t - 0, n);
      yd[bn, n] := c.b[0] * xd[bn, n];
      var r := 1;
      while r <= c.order
        invariant 1 <= r <= Taps(c) + 1
        invariant yd[bn, n] == Partial(calls, t, n, r - 1)
        invariant forall i, k :: 0 <= i < records && 0 <= k < samples && !(i == bn && k == n) ==>
                    yd[i, k] == old(yd[i, k])
      {
        RingIndexWraps(bn, r, records);
        var nx := RingIndex(bn, r, records);
        assert nx == SlotBack(bn, r, records) != bn;
        assert yd[nx, n] == Y(calls, t - r, n);
        yd[bn, n] := yd[bn, n] + TapTerm(c.b[r], xd[nx, n], c.a[r], yd[nx, n]);
        r := r + 1;
      }
      yd[bn, n] := yd[bn, n] / c.a[0];
    }
  }

  lemma NewestSlot(bn: nat, records: nat)
    requires bn < records
    ensures SlotBack(bn, 0, records) == bn
    ensures forall r: nat :: 1 <= r < records ==> SlotBack(bn, r, records) != bn
  {}

  lemma SlotStep(bn: nat, r: nat, records: nat)
    requires bn < records && 1 <= r < records
    ensures SlotBack((bn + 1) % records, r, records) == SlotBack(bn, r - 1, records)
  {
    if bn + 1 == records {
      ModUnique(bn + 1, 1, 0, records);
    } else {
      ModUnique(bn + 1, 0, bn + 1, records);
    }
  }
}
