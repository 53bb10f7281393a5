/** Sixteen signed 20-bit TES bias words packed in 40 bytes (src/tes_bias_array.cpp). */
module TesBias {
  import opened Words
  import opened Wrappers

  const TES_BIAS_COUNT := 16
  const TES_BIAS_BUFFER_SIZE := TES_BIAS_COUNT * 20 / 8

  type Packed = b: seq<byte> | |b| == TES_BIAS_BUFFER_SIZE witness seq(40, _ => 0)

  // ---------------------------------------------------------------------------
  // Reference layout: the 40 bytes are 80 nibbles, and word i is nibbles 5i .. 5i+4
  // ---------------------------------------------------------------------------

  function Nibble(b: Packed, k: nat): (x: nat)
    requires k < 80
    ensures x < 16
  {
    if k % 2 == 0 then b[k / 2] % 16 else b[k / 2] / 16
  }

  function Word(b: Packed, i: nat): (w: nat)
    requires i < TES_BIAS_COUNT
    ensures w < 0x10_0000
  {
    var k := 5 * i;
    Nibble(b, k) + 0x10 * Nibble(b, k + 1) + 0x100 * Nibble(b, k + 2)
    + 0x1000 * Nibble(b, k + 3) + 0x1_0000 * Nibble(b, k + 4)
  }

  // ---------------------------------------------------------------------------
  // What the code computes: masks and shifts written as division and remainder
  // ---------------------------------------------------------------------------

  /** Byte k of a 32-bit word, as the union of a word and four bytes exposes it. */
  function ByteOf(word: nat, k: nat): byte {
    if k == 0 then word % 0x100 else ByteOf(word / 0x100, k - 1)
  }

  /** (keep & 0xf0) | (v & 0x0f) */
  function MergeLow(keep: byte, v: byte): byte {
    keep / 16 * 16 + v % 16
  }

  /** (keep & 0x0f) | (v & 0xf0) */
  function MergeHigh(keep: byte, v: byte): byte {
    keep % 16 + v / 16 * 16
  }

  /** The 40 bytes after setWord(i, value); an index past the array throws. */
  function SetWord(b: Packed, i: nat, value: int): (r: Result<Packed>) {
    if i >= TES_BIAS_COUNT then OutOfRange
    else
      var p := 5 * (i / 2);
      if i % 2 == 0 then
        var v := value % TWO_32;
        Ok(b[p := ByteOf(v, 0)][p + 1 := ByteOf(v, 1)][p + 2 := MergeLow(b[p + 2], ByteOf(v, 2))])
      else
        var v := value * 16 % TWO_32;
        Ok(b[p + 2 := MergeHigh(b[p + 2], ByteOf(v, 0))][p + 3 := ByteOf(v, 1)][p + 4 := ByteOf(v, 2)])
  }

  /**
   * The value getWord(i) returns: a 32-bit load at the word, shifted and cut to a signed 20-bit
   * field.  For i = 15 the load reaches one byte past the 40; that byte is the argument `beyond`.
   */
  function GetWord(b: Packed, beyond: byte, i: nat): (r: Result<int>) {
    if i >= TES_BIAS_COUNT then OutOfRange
    else if i % 2 == 0 then Ok(Signed20(Load(b + [beyond], 5 * (i / 2), 4)))
    else Ok(Signed20(Load(b + [beyond], 5 * (i / 2) + 2, 4) / 16))
  }

  // ---------------------------------------------------------------------------
  // The packed array is a map of sixteen words
  // ---------------------------------------------------------------------------

  /** Word i in terms of the five bytes of its block. */
  lemma WordOfBlock(b: Packed, i: nat)
    requires i < TES_BIAS_COUNT
    ensures var p := 5 * (i / 2);
            Word(b, i) == if i % 2 == 0 then Word4(b[p], b[p + 1], b[p + 2] % 16, 0)
                          else b[p + 2] / 16 + Word4(b[p + 3], b[p + 4], 0, 0) * 16
  {
    if i % 2 == 0 {
      EvenNibbles(b, i / 2);
    } else {
      OddNibbles(b, i / 2);
    }
  }

  lemma EvenNibbles(b: Packed, q: nat)
    requires q < 8
    ensures Word(b, 2 * q) == Word4(b[5 * q], b[5 * q + 1], b[5 * q + 2] % 16, 0)
  {
    NibblesAreHalves(b, 5 * q);
    NibblesAreHalves(b, 5 * q + 1);
    NibblesAreHalves(b, 5 * q + 2);
    assert 5 * (2 * q) == 2 * (5 * q);
  }

  lemma OddNibbles(b: Packed, q: nat)
    requires q < 8
    ensures Word(b, 2 * q + 1) == b[5 * q + 2] / 16 + Word4(b[5 * q + 3], b[5 * q + 4], 0, 0) * 16
  {
    OddWordAt(b, 2 * q + 1, 5 * q + 2);
  }

  lemma OddWordAt(b: Packed, i: nat, p: nat)
    requires i < TES_BIAS_COUNT && 5 * i == 2 * p + 1
    ensures Word(b, i) == b[p] / 16 + Word4(b[p + 1], b[p + 2], 0, 0) * 16
  {
    NibblesAreHalves(b, p);
    NibblesAreHalves(b, p + 1);
    NibblesAreHalves(b, p + 2);
    assert 5 * i + 1 == 2 * (p + 1) && 5 * i + 3 == 2 * (p + 2);
  }

  lemma NibblesAreHalves(b: Packed, p: nat)
    requires p < TES_BIAS_BUFFER_SIZE
    ensures Nibble(b, 2 * p) == b[p] % 16 && Nibble(b, 2 * p + 1) == b[p] / 16
    ensures Nibble(b, 2 * p) + 16 * Nibble(b, 2 * p + 1) == b[p]
  {}

  /** getWord decodes exactly the five nibbles of word i, whatever lies past the array. */
  lemma GetWordDecodes(b: Packed, beyond: byte, i: nat)
    requires i < TES_BIAS_COUNT
    ensures GetWord(b, beyond, i) == Ok(Signed20(Word(b, i)))
  {
    WordOfBlock(b, i);
    if i % 2 == 0 {
      DecodeEven(b + [beyond], 5 * (i / 2));
    } else {
      DecodeOdd(b + [beyond], 5 * (i / 2) + 2);
    }
  }

  lemma DecodeEven(m: seq<byte>, p: nat)
    requires p + 4 <= |m|
    ensures Signed20(Load(m, p, 4)) == Signed20(Word4(m[p], m[p + 1], m[p + 2] % 16, 0))
  {
    Load4(m, p);
    EvenWord(m[p], m[p + 1], m[p + 2], m[p + 3]);
  }

  lemma DecodeOdd(m: seq<byte>, p: nat)
    requires p + 4 <= |m|
    ensures Signed20(Load(m, p, 4) / 16) == Signed20(m[p] / 16 + Word4(m[p + 1], m[p + 2], 0, 0) * 16)
  {
    Load4(m, p);
    OddWord(m[p], m[p + 1], m[p + 2], m[p + 3]);
  }

  function Word4(b0: int, b1: int, b2: int, b3: int): int {
    b0 + 0x100 * b1 + 0x1_0000 * b2 + 0x100_0000 * b3
  }

  lemma Load4(m: seq<byte>, p: nat)
    requires p + 4 <= |m|
    ensures Load(m, p, 4) == Word4(m[p], m[p + 1], m[p + 2], m[p + 3])
  {
    assert Load(m, p + 3, 1) == m[p + 3];
    assert Load(m, p + 2, 2) == Word4(m[p + 2], m[p + 3], 0, 0);
    assert Load(m, p + 1, 3) == Word4(m[p + 1], m[p + 2], m[p + 3], 0);
  }

  lemma EvenWord(b0: nat, b1: nat, b2: nat, b3: nat)
    requires b0 < 256 && b1 < 256 && b2 < 256 && b3 < 256
    ensures Signed20(Word4(b0, b1, b2, b3)) == Signed20(Word4(b0, b1, b2 % 16, 0))
  {
    var w, k := Word4(b0, b1, b2 % 16, 0), b2 / 16 + 16 * b3;
    assert b2 == 16 * (b2 / 16) + b2 % 16;
    SameSigned20(Word4(b0, b1, b2, b3), w, k);
  }

  lemma OddWord(b2: nat, b3: nat, b4: nat, b5: nat)
    requires b2 < 256 && b3 < 256 && b4 < 256 && b5 < 256
    ensures Signed20(Word4(b2, b3, b4, b5) / 16) == Signed20(b2 / 16 + Word4(b3, b4, 0, 0) * 16)
  {
    assert Word4(b2, b3, b4, b5) / 16 == b2 / 16 + Word4(b3, b4, b5, 0) * 16;
    SameSigned20(Word4(b2, b3, b4, b5) / 16, b2 / 16 + Word4(b3, b4, 0, 0) * 16, b5);
  }

  lemma SameSigned20(x: int, w: int, k: int)
    requires x == w + 0x10_0000 * k
    ensures Signed20(x) == Signed20(w)
  {
    Signed20Periodic(w, k);
  }

  lemma Signed20Periodic(w: int, k: int)
    ensures Signed20(w + 0x10_0000 * k) == Signed20(w)
  {}

  /** setWord changes its own word, to the low 20 bits of the value, and no other. */
  lemma SetWordIsMapUpdate(b: Packed, i: nat, value: int, j: nat)
    requires i < TES_BIAS_COUNT && j < TES_BIAS_COUNT
    ensures SetWord(b, i, value).Ok?
    ensures Word(SetWord(b, i, value).value, j) == if j == i then value % 0x10_0000 else Word(b, j)
  {
    if j == i {
      OwnWord(b, i, value);
    } else if j / 2 == i / 2 {
      NeighbourWord(b, i, value, j);
    } else {
      OtherBlock(b, i, value, j);
    }
  }

  lemma OwnWord(b: Packed, i: nat, value: int)
    requires i < TES_BIAS_COUNT
    ensures Word(SetWord(b, i, value).value, i) == value % 0x10_0000
  {
    var c := SetWord(b, i, value).value;
    var p := 5 * (i / 2);
    WordOfBlock(c, i);
    LowBits(value);
    if i % 2 == 0 {
      assert c[p] == ByteOf(value % TWO_32, 0);
      EvenValue(b[p + 2], value % TWO_32);
    } else {
      OddValue(b[p + 2], value * 16 % TWO_32, value % 0x1000_0000);
    }
  }

  lemma NeighbourWord(b: Packed, i: nat, value: int, j: nat)
    requires i < TES_BIAS_COUNT && j < TES_BIAS_COUNT
    requires j != i && j / 2 == i / 2
    ensures Word(SetWord(b, i, value).value, j) == Word(b, j)
  {
    WordOfBlock(b, j);
    WordOfBlock(SetWord(b, i, value).value, j);
    MergeKeeps(b[5 * (i / 2) + 2], ByteOf(value % TWO_32, 2));
    MergeKeeps(b[5 * (i / 2) + 2], ByteOf(value * 16 % TWO_32, 0));
  }

  lemma OtherBlock(b: Packed, i: nat, value: int, j: nat)
    requires i < TES_BIAS_COUNT && j < TES_BIAS_COUNT
    requires j / 2 != i / 2
    ensures Word(SetWord(b, i, value).value, j) == Word(b, j)
  {
    var c := SetWord(b, i, value).value;
    SetWordStaysInBlock(b, i, value, j / 2);
    SameBlockSameWord(b, c, j);
  }

  lemma SetWordStaysInBlock(b: Packed, i: nat, value: int, block: nat)
    requires i < TES_BIAS_COUNT && block < 8 && block != i / 2
    ensures SetWord(b, i, value).value[5 * block..5 * block + 5] == b[5 * block..5 * block + 5]
  {
    assert 5 * block + 5 <= 5 * (i / 2) || 5 * (i / 2) + 5 <= 5 * block;
  }

  lemma SameBlockSameWord(b: Packed, c: Packed, j: nat)
    requires j < TES_BIAS_COUNT
    requires var p := 5 * (j / 2); c[p..p + 5] == b[p..p + 5]
    ensures Word(c, j) == Word(b, j)
  {
    var p := 5 * (j / 2);
    WordOfBlock(b, j);
    WordOfBlock(c, j);
    var x, y := b[p..p + 5], c[p..p + 5];
    assert b[p] == x[0] && b[p + 1] == x[1] && b[p + 2] == x[2] && b[p + 3] == x[3] && b[p + 4] == x[4];
    assert c[p] == y[0] && c[p + 1] == y[1] && c[p + 2] == y[2] && c[p + 3] == y[3] && c[p + 4] == y[4];
  }

  /** Each way setWord splits a value into bytes keeps exactly its low 20 bits. */
  lemma EvenValue(keep: byte, v: nat)
    ensures Word4(ByteOf(v, 0), ByteOf(v, 1), MergeLow(keep, ByteOf(v, 2)) % 16, 0) == v % 0x10_0000
  {
    MergeKeeps(keep, ByteOf(v, 2));
    ThreeBytes(v);
    CutAt20(ByteOf(v, 0), ByteOf(v, 1), ByteOf(v, 2), v / 0x100 / 0x100 / 0x100);
  }

  lemma OddValue(keep: byte, v: nat, w: nat)
    requires v == 16 * w
    ensures MergeHigh(keep, ByteOf(v, 0)) / 16 + Word4(ByteOf(v, 1), ByteOf(v, 2), 0, 0) * 16 == w % 0x10_0000
  {
    MergeKeeps(keep, ByteOf(v, 0));
    ThreeBytes(v);
    CutAt24(ByteOf(v, 0), ByteOf(v, 1), ByteOf(v, 2), v / 0x100 / 0x100 / 0x100, w);
  }

  lemma LowBits(value: int)
    ensures value % TWO_32 % 0x10_0000 == value % 0x10_0000
    ensures value * 16 % TWO_32 == 16 * (value % 0x1000_0000)
    ensures value % 0x1000_0000 % 0x10_0000 == value % 0x10_0000
  {
    ResidueOfResidue(value, 0x1000);
    ResidueOfResidue(value, 0x100);
    ModUnique(value * 16, value / 0x1000_0000, 16 * (value % 0x1000_0000), TWO_32);
  }

  /** Reducing modulo a multiple of 2^20 first does not change the residue modulo 2^20. */
  lemma ResidueOfResidue(value: int, m: nat)
    requires m > 0
    ensures value % (m * 0x10_0000) % 0x10_0000 == value % 0x10_0000
  {
    var n := m * 0x10_0000;
    var r := value % n;
    var q := value / n;
    assert value == q * n + r;
    assert q * n == (q * m) * 0x10_0000;
    ModUnique(value, q * m + r / 0x10_0000, r % 0x10_0000, 0x10_0000);
  }

  lemma ThreeBytes(v: nat)
    ensures v == Word4(ByteOf(v, 0), ByteOf(v, 1), ByteOf(v, 2), v / 0x100 / 0x100 / 0x100)
  {
    var v1 := v / 0x100;
    var v2 := v1 / 0x100;
    assert ByteOf(v, 1) == v1 % 0x100 && ByteOf(v, 2) == ByteOf(v1, 1) == v2 % 0x100;
  }

  lemma CutAt20(b0: byte, b1: byte, b2: byte, b3: nat)
    ensures Word4(b0, b1, b2 % 16, 0) == Word4(b0, b1, b2, b3) % 0x10_0000
  {
    ModUnique(Word4(b0, b1, b2, b3), b2 / 16 + 16 * b3, Word4(b0, b1, b2 % 16, 0), 0x10_0000);
  }

  lemma CutAt24(b0: byte, b1: byte, b2: byte, b3: nat, w: nat)
    requires Word4(b0, b1, b2, b3) == 16 * w
    ensures b0 / 16 + Word4(b1, b2, 0, 0) * 16 == w % 0x10_0000
  {
    ModUnique(w, b3, b0 / 16 + Word4(b1, b2, 0, 0) * 16, 0x10_0000);
  }

  /** A merge takes one nibble from each side. */
  lemma MergeKeeps(keep: byte, v: byte)
    ensures MergeLow(keep, v) / 16 == keep / 16 && MergeLow(keep, v) % 16 == v % 16
    ensures MergeHigh(keep, v) % 16 == keep % 16 && MergeHigh(keep, v) / 16 == v / 16
  {}

  /** setWord then getWord: the value itself when it fits in 20 bits, else its sign-extended low bits. */
  lemma GetAfterSet(b: Packed, i: nat, value: int, beyond: byte)
    requires i < TES_BIAS_COUNT
    ensures var r := SetWord(b, i, value);
            r.Ok? && GetWord(r.value, beyond, i) == Ok(Signed20(value))
  {
    SetWordIsMapUpdate(b, i, value, i);
    GetWordDecodes(SetWord(b, i, value).value, beyond, i);
    Signed20Periodic(value % 0x10_0000, value / 0x10_0000);
  }

  /** The sixteen words leave no byte undetermined. */
  lemma WordsDetermineBytes(b: Packed, c: Packed)
    requires forall i: nat :: i < TES_BIAS_COUNT ==> Word(b, i) == Word(c, i)
    ensures b == c
  {
    forall p: nat | p < TES_BIAS_BUFFER_SIZE ensures b[p] == c[p] {
      SameNibble(b, c, 2 * p);
      SameNibble(b, c, 2 * p + 1);
      assert b[p] == Nibble(b, 2 * p) + 16 * Nibble(b, 2 * p + 1);
      assert c[p] == Nibble(c, 2 * p) + 16 * Nibble(c, 2 * p + 1);
    }
  }

  lemma SameNibble(b: Packed, c: Packed, k: nat)
    requires k < 80
    requires forall i: nat :: i < TES_BIAS_COUNT ==> Word(b, i) == Word(c, i)
    ensures Nibble(b, k) == Nibble(c, k)
  {
    var i := k / 5;
    assert Word(b, i) == Word(c, i);
    NibblesOfWord(b, i);
    NibblesOfWord(c, i);
    assert k == 5 * i || k == 5 * i + 1 || k == 5 * i + 2 || k == 5 * i + 3 || k == 5 * i + 4;
  }

  function Digit(w: nat, d: nat): nat {
    if d == 0 then w % 16 else Digit(w / 16, d - 1)
  }

  lemma NibblesOfWord(b: Packed, i: nat)
    requires i < TES_BIAS_COUNT
    ensures var w, k := Word(b, i), 5 * i;
            Digit(w, 0) == Nibble(b, k) && Digit(w, 1) == Nibble(b, k + 1) && Digit(w, 2) == Nibble(b, k + 2)
            && Digit(w, 3) == Nibble(b, k + 3) && Digit(w, 4) == Nibble(b, k + 4)
  {
    var k := 5 * i;
    FiveDigits(Nibble(b, k), Nibble(b, k + 1), Nibble(b, k + 2), Nibble(b, k + 3), Nibble(b, k + 4));
  }

  lemma FiveDigits(a: nat, b: nat, c: nat, d: nat, e: nat)
    requires a < 16 && b < 16 && c < 16 && d < 16 && e < 16
    ensures var w := a + 0x10 * b + 0x100 * c + 0x1000 * d + 0x1_0000 * e;
            Digit(w, 0) == a && Digit(w, 1) == b && Digit(w, 2) == c && Digit(w, 3) == d && Digit(w, 4) == e
  {
    var w4 := e;
    var w3 := d + 16 * w4;
    var w2 := c + 16 * w3;
    var w1 := b + 16 * w2;
    var w := a + 16 * w1;
    assert w == a + 0x10 * b + 0x100 * c + 0x1000 * d + 0x1_0000 * e;
    assert w / 16 == w1 && w1 / 16 == w2 && w2 / 16 == w3 && w3 / 16 == w4;
    assert Digit(w, 4) == Digit(w1, 3) == Digit(w2, 2) == Digit(w3, 1) == Digit(w4, 0);
    assert Digit(w, 3) == Digit(w1, 2) == Digit(w2, 1) == Digit(w3, 0);
    assert Digit(w, 2) == Digit(w1, 1) == Digit(w2, 0);
  }

  // ---------------------------------------------------------------------------
  // The class: a window of 40 bytes somewhere inside a larger buffer
  // ---------------------------------------------------------------------------

  class TesBiasArray {
    var pData: array<byte>
    var base: nat

    ghost predicate Valid()
      reads this
    {
      base + TES_BIAS_BUFFER_SIZE <= pData.Length
    }

    ghost function Window(): Packed
      requires Valid()
      reads this, pData
    {
      pData[base..base + TES_BIAS_BUFFER_SIZE]
    }

    constructor (p: array<byte>, at: nat)
      requires at + TES_BIAS_BUFFER_SIZE <= p.Length
      ensures Valid() && pData == p && base == at
    {
      pData := p;
      base := at;
    }

    /** Writes word i in place; the bytes outside the window keep their values. */
    method StoreWord(i: nat, value: int) returns (ok: bool)
      requires Valid()
      modifies pData
      ensures ok <==> i < TES_BIAS_COUNT
      ensures Ok(Window()) == if ok then SetWord(old(Window()), i, value) else Ok(old(Window()))
      ensures pData[..base] == old(pData[..base])
      ensures pData[base + TES_BIAS_BUFFER_SIZE..] == old(pData[base + TES_BIAS_BUFFER_SIZE..])
    {
      if i >= TES_BIAS_COUNT {
        return false;
      }
      var p := 5 * (i / 2);
      var keep := pData[base + p + 2];
      assert keep == Window()[p + 2];
      if i % 2 == 0 {
        var v := value % TWO_32;
        Put3(p, ByteOf(v, 0), ByteOf(v, 1), MergeLow(keep, ByteOf(v, 2)));
      } else {
        var v := value * 16 % TWO_32;
        Put3(p + 2, MergeHigh(keep, ByteOf(v, 0)), ByteOf(v, 1), ByteOf(v, 2));
      }
      return true;
    }

    /** Three bytes stored through an advancing pointer. */
    method Put3(p: nat, x: byte, y: byte, z: byte)
      requires Valid() && p + 3 <= TES_BIAS_BUFFER_SIZE
      modifies pData
      ensures Window() == old(Window())[p := x][p + 1 := y][p + 2 := z]
      ensures pData[..base] == old(pData[..base])
      ensures pData[base + TES_BIAS_BUFFER_SIZE..] == old(pData[base + TES_BIAS_BUFFER_SIZE..])
    {
      pData[base + p] := x;
      pData[base + p + 1] := y;
      pData[base + p + 2] := z;
    }

    /** Reads word i; `beyond` stands for the byte after the buffer when the window ends it. */
    method FetchWord(i: nat, beyond: byte) returns (r: Result<int>)
      requires Valid()
      ensures r == if i < TES_BIAS_COUNT then Ok(Signed20(Word(Window(), i))) else OutOfRange
    {
      if i >= TES_BIAS_COUNT {
        return OutOfRange;
      }
      if i % 2 == 0 {
        var word := Load32(5 * (i / 2), beyond);
        r := Ok(Signed20(word));
      } else {
        var word := Load32(5 * (i / 2) + 2, beyond);
        r := Ok(Signed20(word / 16));
      }
      assert r == GetWord(Window(), NextByte(beyond), i);
      GetWordDecodes(Window(), NextByte(beyond), i);
    }

    /** The byte a load of word 15 touches after the window. */
    ghost function NextByte(beyond: byte): byte
      requires Valid()
      reads this, pData
    {
      if base + TES_BIAS_BUFFER_SIZE < pData.Length then pData[base + TES_BIAS_BUFFER_SIZE] else beyond
    }

    method Load32(p: nat, beyond: byte) returns (word: nat)
      requires Valid() && p + 3 <= TES_BIAS_BUFFER_SIZE
      ensures word == Load(Window() + [NextByte(beyond)], p, 4)
    {
      var last := if base + p + 3 < pData.Length then pData[base + p + 3] else beyond;
      Load4(Window() + [NextByte(beyond)], p);
      return Word4(pData[base + p], pData[base + p + 1], pData[base + p + 2], last);
    }
  }
}
