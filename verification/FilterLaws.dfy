/** What the filter's outputs mean: exact means, linearity, and separate channels. */
module FilterLaws {
  import opened Words
  import opened DigitalFilter

  // ---------------------------------------------------------------------------
  // Flat average
  // ---------------------------------------------------------------------------

  predicate FlatCalls(calls: seq<Call>, n: nat) {
    forall k :: 0 <= k < |calls| ==> calls[k].order == FLAT_AVERAGE && n < |calls[k].data|
  }

  lemma FloorOfQuotient(s: nat, n: nat, x: real)
    requires n > 0 && x == s as real / n as real
    ensures x.Floor == s / n
  {
    var q, r := s / n, s % n;
    assert s == q * n + r;
    assert x * n as real == s as real;
    assert s as real == q as real * n as real + r as real;
    Between(x, q as real, n as real, r as real);
  }

  lemma Between(x: real, q: real, n: real, r: real)
    requires n > 0.0 && x * n == q * n + r && 0.0 <= r < n
    ensures q <= x < q + 1.0
  {
    LessTimes(x, q, n);
    LessTimes(q + 1.0, x, n);
    assert (q + 1.0) * n == q * n + n;
  }

  /** Multiplying by a positive number keeps the order, so the order of the products shows that of the factors. */
  lemma LessTimes(x: real, y: real, n: real)
    requires n > 0.0
    ensures x < y ==> x * n < y * n
    ensures x <= y ==> x * n <= y * n
  {}

  /** Dividing the running sum and casting is integer division toward zero. */
  lemma TruncateIsQuotient(s: int, n: nat)
    requires n > 0
    ensures Truncate(s as real / n as real) == TruncatedQuotient(s, n)
  {
    var x := s as real / n as real;
    if s >= 0 {
      FloorOfQuotient(s, n, x);
      SignOfQuotient(s, n);
    } else {
      SignOfQuotient(-s, n);
      assert -x == (-s) as real / n as real;
      FloorOfQuotient(-s, n, -x);
    }
  }

  lemma SignOfQuotient(s: nat, n: nat)
    requires n > 0
    ensures s as real / n as real >= 0.0
    ensures s > 0 ==> s as real / n as real > 0.0
  {}

  lemma {:induction false} SumBounds(calls: seq<Call>, n: nat, lo: int, hi: int)
    requires FlatCalls(calls, n)
    requires forall k :: 0 <= k < |calls| ==> lo <= calls[k].data[n] <= hi
    ensures lo * |calls| <= Sum(calls, n) <= hi * |calls|
  {
    if calls != [] {
      var last := |calls| - 1;
      SumBounds(calls[..last], n, lo, hi);
      assert lo * |calls| == lo * last + lo && hi * |calls| == hi * last + hi;
    }
  }

  lemma QuotientBounds(s: int, n: nat, lo: int, hi: int)
    requires n > 0 && lo * n <= s <= hi * n
    ensures lo <= TruncatedQuotient(s, n) <= hi
  {
    if s >= 0 {
      QuotientWithin(s, n, lo, hi);
    } else {
      assert -hi * n <= -s <= -lo * n;
      QuotientWithin(-s, n, -hi, -lo);
    }
  }

  lemma QuotientWithin(s: nat, n: nat, lo: int, hi: int)
    requires n > 0 && lo * n <= s <= hi * n
    ensures lo <= s / n <= hi
  {
    var q, r := s / n, s % n;
    assert s == q * n + r;
    MultipleIsLarge(lo - q, n);
    MultipleIsLarge(q - hi, n);
    assert (lo - q) * n == lo * n - q * n && (q - hi) * n == q * n - hi * n;
  }

  /**
   * The flat output is the exact mean of the inputs since the last clear, truncated toward zero.
   * It lies between any bounds of those inputs, so the cast to int32 never overflows.
   */
  lemma FlatOutputIsMean(calls: seq<Call>, n: nat, lo: int, hi: int)
    requires FlatCalls(calls, n) && 0 < |calls| < TWO_32
    requires forall k :: 0 <= k < |calls| ==> lo <= calls[k].data[n] <= hi
    ensures Output(calls, n) == TruncatedQuotient(Sum(calls, n), |calls|)
    ensures lo <= Output(calls, n) <= hi
  {
    var s := Sum(calls, n);
    SumBounds(calls, n, lo, hi);
    QuotientBounds(s, |calls|, lo, hi);
    SumBounds(calls, n, -0x8000_0000, 0x7fff_ffff);
    QuotientBounds(s, |calls|, -0x8000_0000, 0x7fff_ffff);
    MeanIsQuotient(s, |calls|);
  }

  lemma MeanIsQuotient(s: int, n: nat)
    requires 0 < n < TWO_32 && FitsInt32(TruncatedQuotient(s, n))
    ensures Mean(s as real, n % TWO_32) == TruncatedQuotient(s, n)
  {
    TruncateIsQuotient(s, n);
    assert n % TWO_32 == n;
  }

  /** A window of up to 2^22 calls keeps the running sum within 2^53, where a double is exact. */
  lemma FlatSumFitsDouble(calls: seq<Call>, n: nat)
    requires FlatCalls(calls, n) && |calls| <= 0x40_0000
    ensures -0x20_0000_0000_0000 <= Sum(calls, n) <= 0x20_0000_0000_0000
  {
    SumBounds(calls, n, -0x8000_0000, 0x7fff_ffff);
    MultipleIsLarge(0x40_0000 - |calls|, 0x8000_0000);
    assert 0x7fff_ffff * |calls| <= 0x8000_0000 * |calls|;
  }

  /**
   * Rounding the quotient does not change the truncated mean: any y within relative error 2^-53 of
   * sum / n, and equal to it when that is an integer, truncates to the same int32, for sums of
   * fewer than 2^22 int32 values.
   */
  lemma RoundedQuotientTruncatesRight(s: int, n: nat, y: real)
    requires 0 < n < 0x40_0000 && -0x8000_0000 * n <= s <= 0x8000_0000 * n
    requires var q := s as real / n as real;
             var slack := (if q >= 0.0 then q else -q) / 0x20_0000_0000_0000 as real;
             q - slack <= y <= q + slack
    requires s % n == 0 ==> y == s as real / n as real
    ensures Truncate(y) == TruncatedQuotient(s, n)
  {
    TruncateIsQuotient(s, n);
    if s % n != 0 {
      if s >= 0 {
        RoundedUp(s, n, y);
      } else {
        NegatedRemainder(s, n);
        assert (-s) as real / n as real == -(s as real / n as real);
        SignOfQuotient(-s, n);
        RoundedUp(-s, n, -y);
      }
    }
  }

  lemma NegatedRemainder(s: int, n: nat)
    requires n > 0 && s % n != 0
    ensures (-s) % n != 0
  {
    if (-s) % n == 0 {
      ModUnique(s, -((-s) / n), 0, n);
      assert false;
    }
  }

  /** The gap from s / n to the integers around it is at least 1 / n, more than the rounding can cross. */
  lemma RoundedUp(s: nat, n: nat, y: real)
    requires 0 < n < 0x40_0000 && s <= 0x8000_0000 * n && s % n != 0
    requires var q := s as real / n as real; var slack := q / 0x20_0000_0000_0000 as real;
             q - slack <= y <= q + slack
    ensures y > 0.0 && y.Floor == s / n
  {
    var q := s as real / n as real;
    var k, r := s / n, s % n;
    assert s == k * n + r;
    var N := n as real;
    assert q * N == s as real == k as real * N + r as real;
    var slack := q / 0x20_0000_0000_0000 as real;
    QuotientAtMost(q, N, s as real, 0x8000_0000 as real);
    assert slack <= 1.0 / 0x40_0000 as real;
    SmallTimes(slack, N);
    var e := y - q;
    assert y * N == k as real * N + r as real + e * N by {
      assert y * N == q * N + e * N;
    }
    ErrorTimes(e, slack, N);
    assert 0.0 < r as real + e * N < N;
    Between(y, k as real, N, r as real + e * N);
    LessTimes(0.0, k as real + 1.0, N);
    LessTimes(y, 0.0, N);
    assert k as real * N >= 0.0;
  }

  lemma QuotientAtMost(q: real, n: real, s: real, m: real)
    requires n > 0.0 && q * n == s && s <= m * n
    ensures q <= m
  {
    LessTimes(m, q, n);
  }

  lemma SmallTimes(slack: real, n: real)
    requires slack <= 1.0 / 0x40_0000 as real && 0.0 < n < 0x40_0000 as real
    ensures slack * n < 1.0
  {
    LessTimes(slack, 1.0 / 0x40_0000 as real, n);
  }

  lemma ErrorTimes(e: real, slack: real, n: real)
    requires n > 0.0 && -slack <= e <= slack && slack * n < 1.0
    ensures -1.0 < e * n < 1.0
  {
    var p, m := slack * n, (-slack) * n;
    assert m == -p;
    LessTimes(e, slack, n);
    LessTimes(-slack, e, n);
    assert m <= e * n <= p;
  }

  /** n is x without its fraction: the nearest integer on the side of zero. */
  ghost predicate TowardZero(x: real, n: int) {
    if x >= 0.0 then n as real <= x < n as real + 1.0 else n as real - 1.0 < x <= n as real
  }

  /** The integer quotient drops the fraction. */
  lemma QuotientTowardZero(s: int, n: nat)
    requires n > 0
    ensures if s >= 0 then TruncatedQuotient(s, n) * n <= s < TruncatedQuotient(s, n) * n + n
            else TruncatedQuotient(s, n) * n - n < s <= TruncatedQuotient(s, n) * n
  {
    var m := if s >= 0 then s else -s;
    assert m == m / n * n + m % n;
    assert (-(m / n)) * n == -(m / n * n);
  }

  /** What the recursive filter puts out is the gain times y without its fraction, whenever that is an int32. */
  lemma AmplifiedTowardZero(y: real, g: real)
    requires -0x8000_0001 as real < y * g < 0x8000_0000 as real
    ensures TowardZero(y * g, Amplified(y, g))
  {
    var x := y * g;
    assert x.Floor as real <= x < x.Floor as real + 1.0;
    assert (-x).Floor as real <= -x < (-x).Floor as real + 1.0;
  }

  // ---------------------------------------------------------------------------
  // The difference equation
  // ---------------------------------------------------------------------------

  /** b(0) x(t) + .. + b(r) x(t - r), with the coefficients of call t and zeros before the first call. */
  function Forward(calls: seq<Call>, t: nat, n: nat, r: nat): real
    requires t < |calls| && r < |calls[t].b|
    requires forall k :: 0 <= k < |calls| ==> n < |calls[k].data|
  {
    (if r == 0 then 0.0 else Forward(calls, t, n, r - 1))
    + (if r <= t then calls[t].b[r] * calls[t - r].data[n] as real else 0.0)
  }

  /** a(1) y(t - 1) + .. + a(r) y(t - r). */
  function Feedback(calls: seq<Call>, t: nat, n: nat, r: nat): real
    requires t < |calls| && r < |calls[t].a|
  {
    if r == 0 then 0.0
    else Feedback(calls, t, n, r - 1) + (if r <= t then calls[t].a[r] * Y(calls, t - r, n) else 0.0)
  }

  /**
   * The textbook equation, a(0) y(t) + a(1) y(t-1) + .. + a(order) y(t-order) =
   * b(0) x(t) + .. + b(order) x(t-order), for every call of every history.
   */
  lemma DifferenceEquation(calls: seq<Call>, t: nat, n: nat, samples: nat, records: nat)
    requires GoodCalls(calls, samples, records) && t < |calls| && n < samples
    requires calls[t].order != FLAT_AVERAGE
    ensures var c := calls[t];
            var order := if c.order < 0 then 0 else c.order;
            && order < |c.a| && order < |c.b|
            && c.a[0] * Y(calls, t, n) + Feedback(calls, t, n, order) == Forward(calls, t, n, order)
  {
    var c := calls[t];
    PartialIsDifference(calls, t, n, samples, records, Taps(c));
    TimesQuotient(c.a[0], Partial(calls, t, n, Taps(c)));
  }

  lemma {:induction false} PartialIsDifference(calls: seq<Call>, t: nat, n: nat, samples: nat, records: nat, r: nat)
    requires GoodCalls(calls, samples, records) && t < |calls| && n < samples
    requires r < |calls[t].a| && r < |calls[t].b|
    ensures Partial(calls, t, n, r) == Forward(calls, t, n, r) - Feedback(calls, t, n, r)
  {
    if r > 0 {
      PartialIsDifference(calls, t, n, samples, records, r - 1);
      TapIs(calls, t, n, r);
    }
  }

  lemma TapIs(calls: seq<Call>, t: nat, n: nat, r: nat)
    requires 0 < r && t < |calls| && r < |calls[t].a| && r < |calls[t].b|
    requires forall k :: 0 <= k < |calls| ==> n < |calls[k].data|
    ensures TapTerm(calls[t].b[r], X(calls, t - r, n), calls[t].a[r], Y(calls, t - r, n)) ==
            if r <= t then calls[t].b[r] * calls[t - r].data[n] as real - calls[t].a[r] * Y(calls, t - r, n) else 0.0
  {}

  lemma TimesQuotient(a: real, p: real)
    requires a != 0.0
    ensures a * (p / a) == p
  {}

  // ---------------------------------------------------------------------------
  // Channels are separate
  // ---------------------------------------------------------------------------

  /** Same calls except for the data of channels other than n. */
  ghost predicate AgreeOn(c1: seq<Call>, c2: seq<Call>, n: nat) {
    && |c1| == |c2|
    && forall k :: 0 <= k < |c1| ==>
      && c1[k].order == c2[k].order && c1[k].a == c2[k].a && c1[k].b == c2[k].b && c1[k].g == c2[k].g
      && n < |c1[k].data| && n < |c2[k].data| && c1[k].data[n] == c2[k].data[n]
  }

  /** An output depends on its own channel's inputs only. */
  lemma ChannelsIndependent(c1: seq<Call>, c2: seq<Call>, n: nat)
    requires c1 != [] && AgreeOn(c1, c2, n)
    ensures Output(c1, n) == Output(c2, n)
  {
    SameSum(c1, c2, n);
    SameY(c1, c2, n, |c1| - 1);
  }

  lemma {:induction false} SameSum(c1: seq<Call>, c2: seq<Call>, n: nat)
    requires AgreeOn(c1, c2, n)
    ensures Sum(c1, n) == Sum(c2, n)
  {
    if c1 != [] {
      SameSum(c1[..|c1| - 1], c2[..|c1| - 1], n);
    }
  }

  lemma {:induction false} SameY(c1: seq<Call>, c2: seq<Call>, n: nat, t: int)
    requires AgreeOn(c1, c2, n)
    ensures X(c1, t, n) == X(c2, t, n) && Y(c1, t, n) == Y(c2, t, n)
    decreases if t < 0 then 0 else t + 1, 1, 0
  {
    if 0 <= t < |c1| {
      SamePartial(c1, c2, n, t, Taps(c1[t]));
    }
  }

  lemma {:induction false} SamePartial(c1: seq<Call>, c2: seq<Call>, n: nat, t: int, r: nat)
    requires AgreeOn(c1, c2, n) && 0 <= t < |c1|
    ensures Partial(c1, t, n, r) == Partial(c2, t, n, r)
    decreases t + 1, 0, r
  {
    if r > 0 {
      SamePartial(c1, c2, n, t, r - 1);
      SameY(c1, c2, n, t - r);
    }
  }

  // ---------------------------------------------------------------------------
  // Superposition
  // ---------------------------------------------------------------------------

  /** Call by call the same coefficients, and on channel n the input of c is u * (input of c1) + v * (input of c2). */
  ghost predicate Combines(c: seq<Call>, c1: seq<Call>, c2: seq<Call>, u: real, v: real, n: nat) {
    && |c| == |c1| == |c2|
    && forall k :: 0 <= k < |c| ==>
      && c[k].order == c1[k].order == c2[k].order
      && c[k].a == c1[k].a == c2[k].a && c[k].b == c1[k].b == c2[k].b
      && n < |c[k].data| && n < |c1[k].data| && n < |c2[k].data|
      && c[k].data[n] as real == Combine(u, v, c1[k].data[n] as real, c2[k].data[n] as real)
  }

  function Combine(u: real, v: real, p: real, q: real): real {
    u * p + v * q
  }

  /** Before truncation the recursive filter is linear: the response to a combination is the combined response. */
  lemma {:induction false} Superposition(c: seq<Call>, c1: seq<Call>, c2: seq<Call>, u: real, v: real, n: nat, t: int)
    requires Combines(c, c1, c2, u, v, n)
    ensures X(c, t, n) == Combine(u, v, X(c1, t, n), X(c2, t, n))
    ensures Y(c, t, n) == Combine(u, v, Y(c1, t, n), Y(c2, t, n))
    decreases if t < 0 then 0 else t + 1, 1, 0
  {
    if 0 <= t < |c| {
      SuperpositionPartial(c, c1, c2, u, v, n, t, Taps(c[t]));
      if |c[t].a| > 0 && c[t].a[0] != 0.0 {
        var taps := Taps(c[t]);
        DivideCombination(Partial(c1, t, n, taps), Partial(c2, t, n, taps), u, v, c[t].a[0]);
      }
    }
  }

  lemma {:induction false} SuperpositionPartial(c: seq<Call>, c1: seq<Call>, c2: seq<Call>, u: real, v: real, n: nat,
                                                t: int, r: nat)
    requires Combines(c, c1, c2, u, v, n) && 0 <= t < |c|
    ensures Partial(c, t, n, r) == Combine(u, v, Partial(c1, t, n, r), Partial(c2, t, n, r))
    decreases t + 1, 0, r
  {
    var b, a := Coefficient(c[t].b, r), Coefficient(c[t].a, r);
    if r == 0 {
      MoveScalar(b, X(c1, t, n), X(c2, t, n), u, v);
    } else {
      SuperpositionPartial(c, c1, c2, u, v, n, t, r - 1);
      Superposition(c, c1, c2, u, v, n, t - r);
      CombineTap(b, X(c1, t - r, n), X(c2, t - r, n), a, Y(c1, t - r, n), Y(c2, t - r, n), u, v);
      CombineSum(Partial(c1, t, n, r - 1), TapTerm(b, X(c1, t - r, n), a, Y(c1, t - r, n)),
                 Partial(c2, t, n, r - 1), TapTerm(b, X(c2, t - r, n), a, Y(c2, t - r, n)), u, v);
    }
  }

  /** The running sum of the flat average is linear too. */
  lemma {:induction false} SumSuperposition(c: seq<Call>, c1: seq<Call>, c2: seq<Call>, u: real, v: real, n: nat)
    requires Combines(c, c1, c2, u, v, n)
    ensures Sum(c, n) as real == Combine(u, v, Sum(c1, n) as real, Sum(c2, n) as real)
  {
    if c != [] {
      var last := |c| - 1;
      SumSuperposition(c[..last], c1[..last], c2[..last], u, v, n);
      CombineSum(Sum(c1[..last], n) as real, c1[last].data[n] as real,
                 Sum(c2[..last], n) as real, c2[last].data[n] as real, u, v);
    }
  }

  lemma CombineTap(b: real, x1: real, x2: real, a: real, y1: real, y2: real, u: real, v: real)
    ensures TapTerm(b, Combine(u, v, x1, x2), a, Combine(u, v, y1, y2)) ==
            Combine(u, v, TapTerm(b, x1, a, y1), TapTerm(b, x2, a, y2))
  {
    MoveScalar(b, x1, x2, u, v);
    MoveScalar(a, y1, y2, u, v);
    CombineDifference(b * x1, a * y1, b * x2, a * y2, u, v);
  }

  lemma MoveScalar(b: real, x1: real, x2: real, u: real, v: real)
    ensures b * Combine(u, v, x1, x2) == Combine(u, v, b * x1, b * x2)
  {
    assert b * (u * x1 + v * x2) == b * (u * x1) + b * (v * x2);
    assert b * (u * x1) == u * (b * x1) && b * (v * x2) == v * (b * x2);
  }

  lemma CombineSum(p1: real, q1: real, p2: real, q2: real, u: real, v: real)
    ensures Combine(u, v, p1 + q1, p2 + q2) == Combine(u, v, p1, p2) + Combine(u, v, q1, q2)
  {}

  lemma CombineDifference(p1: real, q1: real, p2: real, q2: real, u: real, v: real)
    ensures Combine(u, v, p1 - q1, p2 - q2) == Combine(u, v, p1, p2) - Combine(u, v, q1, q2)
  {}

  lemma DivideCombination(p1: real, p2: real, u: real, v: real, a: real)
    requires a != 0.0
    ensures Combine(u, v, p1, p2) / a == Combine(u, v, p1 / a, p2 / a)
  {
    MoveScalar(a, p1 / a, p2 / a, u, v);
    assert a * (p1 / a) == p1 && a * (p2 / a) == p2;
    Cancel(Combine(u, v, p1 / a, p2 / a), a, Combine(u, v, p1, p2));
  }

  lemma Cancel(z: real, a: real, p: real)
    requires a != 0.0 && a * z == p
    ensures p / a == z
  {}
}
