/** Fixed-width integers and little-endian memory, as the C++ code uses them. */
module Words {

  type byte = x: int | 0 <= x < 0x100
  type int32 = x: int | FitsInt32(x)
  type int16 = x: int | -0x8000 <= x < 0x8000

  const TWO_16 := 0x1_0000
  const TWO_32 := 0x1_0000_0000

  predicate FitsInt32(x: int) {
    -0x8000_0000 <= x < 0x8000_0000
  }

  // Two's complement readings of the low 16, 20 and 32 bits of an integer.

  function Signed16(x: int): int16 {
    (x + 0x8000) % TWO_16 - 0x8000
  }

  function Signed20(x: int): int {
    (x + 0x8_0000) % 0x10_0000 - 0x8_0000
  }

  function Signed32(x: int): int32 {
    (x + 0x8000_0000) % TWO_32 - 0x8000_0000
  }

  /** Signed32 is the one int32 congruent to x modulo 2^32, so it leaves an int32 alone. */
  lemma Signed32Unique(x: int, y: int, k: int)
    requires FitsInt32(y) && x == y + k * TWO_32
    ensures Signed32(x) == y
  {
    assert (x + 0x8000_0000) == (y + 0x8000_0000) + k * TWO_32;
    ModUnique(x + 0x8000_0000, k, y + 0x8000_0000, TWO_32);
  }

  lemma ModUnique(x: int, q: int, r: int, m: int)
    requires 0 <= r < m && x == q * m + r
    ensures x % m == r && x / m == q
  {
    assert (x / m - q) * m == r - x % m;
    MultipleIsLarge(x / m - q, m);
  }

  lemma MultipleIsLarge(d: int, m: int)
    requires m > 0
    ensures d >= 1 ==> d * m >= m
    ensures d <= -1 ==> d * m <= -m
  {}

  lemma NextResidue(t: nat, m: nat)
    requires m > 0
    ensures (t % m + 1) % m == (t + 1) % m
  {
    var q, r := t / m, t % m;
    if r + 1 < m {
      ModUnique(t + 1, q, r + 1, m);
      ModUnique(r + 1, 0, r + 1, m);
    } else {
      assert t + 1 == (q + 1) * m;
      ModUnique(t + 1, q + 1, 0, m);
      ModUnique(r + 1, 1, 0, m);
    }
  }

  // ---------------------------------------------------------------------------
  // Little-endian words in a byte sequence
  // ---------------------------------------------------------------------------

  /** 256^n: one more than the largest n-byte word. */
  function Span(n: nat): (p: nat)
    ensures p > 0
  {
    if n == 0 then 1 else 256 * Span(n - 1)
  }

  /** The n-byte word that starts at b[off]. */
  function Load(b: seq<byte>, off: nat, n: nat): (v: nat)
    requires off + n <= |b|
    ensures v < Span(n)
    decreases n
  {
    if n == 0 then 0 else b[off] + 256 * Load(b, off + 1, n - 1)
  }

  /** The low n bytes of v, least significant first. */
  function ToBytes(v: nat, n: nat): (s: seq<byte>)
    ensures |s| == n
  {
    if n == 0 then [] else [v % 256] + ToBytes(v / 256, n - 1)
  }

  /** b with src copied over it at off: what memcpy(b + off, src, |src|) leaves. */
  function Overlay(b: seq<byte>, off: nat, src: seq<byte>): (r: seq<byte>)
    requires off + |src| <= |b|
    ensures |r| == |b|
    ensures forall k :: 0 <= k < |b| ==> r[k] == if off <= k < off + |src| then src[k - off] else b[k]
  {
    b[..off] + src + b[off + |src|..]
  }

  /** b with the n-byte word at off set to the low n bytes of v. */
  function Store(b: seq<byte>, off: nat, n: nat, v: nat): (r: seq<byte>)
    requires off + n <= |b|
    ensures |r| == |b|
  {
    Overlay(b, off, ToBytes(v, n))
  }

  /** A word depends on its own bytes only. */
  lemma {:induction false} LoadSameBytes(b: seq<byte>, c: seq<byte>, off: nat, at: nat, n: nat)
    requires off + n <= |b| && at + n <= |c|
    requires b[off..off + n] == c[at..at + n]
    ensures Load(b, off, n) == Load(c, at, n)
    decreases n
  {
    if n > 0 {
      assert b[off] == b[off..off + n][0] == c[at];
      assert b[off + 1..off + n] == b[off..off + n][1..] == c[at + 1..at + n];
      LoadSameBytes(b, c, off + 1, at + 1, n - 1);
    }
  }

  /** ... and determines them. */
  lemma {:induction false} LoadInjective(b: seq<byte>, c: seq<byte>, off: nat, n: nat)
    requires off + n <= |b| && off + n <= |c|
    requires Load(b, off, n) == Load(c, off, n)
    ensures b[off..off + n] == c[off..off + n]
    decreases n
  {
    if n > 0 {
      SameDigits(b[off], Load(b, off + 1, n - 1), c[off], Load(c, off + 1, n - 1));
      LoadInjective(b, c, off + 1, n - 1);
      assert b[off..off + n] == [b[off]] + b[off + 1..off + n];
      assert c[off..off + n] == [c[off]] + c[off + 1..off + n];
    }
  }

  lemma SameDigits(x: nat, y: nat, x': nat, y': nat)
    requires x < 256 && x' < 256 && x + 256 * y == x' + 256 * y'
    ensures x == x' && y == y'
  {}

  /** A word is the one number whose bytes are those loaded. */
  lemma {:induction false} BytesOfLoad(b: seq<byte>, off: nat, n: nat)
    requires off + n <= |b|
    ensures ToBytes(Load(b, off, n), n) == b[off..off + n]
    decreases n
  {
    if n > 0 {
      var v, high := Load(b, off, n), Load(b, off + 1, n - 1);
      SameDigits(v % 256, v / 256, b[off], high);
      BytesOfLoad(b, off + 1, n - 1);
      assert b[off..off + n] == [b[off]] + b[off + 1..off + n];
    }
  }

  lemma {:induction false} LoadOfBytes(b: seq<byte>, off: nat, n: nat, v: nat)
    requires off + n <= |b|
    requires b[off..off + n] == ToBytes(v, n)
    ensures Load(b, off, n) == v % Span(n)
    decreases n
  {
    if n > 0 {
      assert b[off] == b[off..off + n][0] == v % 256;
      assert b[off + 1..off + n] == b[off..off + n][1..] == ToBytes(v / 256, n - 1);
      LoadOfBytes(b, off + 1, n - 1, v / 256);
      SplitMod(v, Span(n - 1));
    }
  }

  lemma SplitMod(v: nat, s: nat)
    requires s > 0
    ensures v % (256 * s) == v % 256 + 256 * (v / 256 % s)
  {
    var h := v / 256;
    assert h == h / s * s + h % s;
    assert v == (h / s) * (256 * s) + (256 * (h % s) + v % 256);
    ModUnique(v, h / s, 256 * (h % s) + v % 256, 256 * s);
  }

  /** A stored word reads back, reduced to its width. */
  lemma LoadStoreSame(b: seq<byte>, off: nat, n: nat, v: nat)
    requires off + n <= |b|
    ensures Load(Store(b, off, n, v), off, n) == v % Span(n)
  {
    assert Store(b, off, n, v)[off..off + n] == ToBytes(v, n);
    LoadOfBytes(Store(b, off, n, v), off, n, v);
  }

  /** Copying over other bytes leaves a word alone. */
  lemma LoadOverlayOther(b: seq<byte>, off: nat, src: seq<byte>, at: nat, m: nat)
    requires off + |src| <= |b| && at + m <= |b|
    requires at + m <= off || off + |src| <= at
    ensures Load(Overlay(b, off, src), at, m) == Load(b, at, m)
  {
    LoadSameBytes(Overlay(b, off, src), b, at, at, m);
  }

  /** A longer word is its low part plus its high part shifted. */
  lemma {:induction false} LoadSplit(b: seq<byte>, off: nat, n: nat, m: nat)
    requires off + n + m <= |b|
    ensures Load(b, off, n + m) == Load(b, off, n) + Span(n) * Load(b, off + n, m)
    decreases n
  {
    if n > 0 {
      LoadSplit(b, off + 1, n - 1, m);
      Reassociate(Span(n - 1), Load(b, off + n, m));
      assert off + 1 + (n - 1) == off + n;
    }
  }

  lemma Reassociate(s: int, x: int)
    ensures 256 * (s * x) == 256 * s * x
  {}

  lemma SpanValues()
    ensures Span(1) == 0x100 && Span(2) == 0x1_0000 && Span(4) == TWO_32
    ensures Span(5) == 0x100_0000_0000 && Span(8) == 0x1_0000_0000_0000_0000
  {
    assert Span(3) == 256 * Span(2);
    assert Span(6) == 256 * Span(5);
    assert Span(7) == 256 * Span(6);
  }
}
