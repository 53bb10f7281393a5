/** The 128-byte packet header and its two decoders (src/smurf_packet.cpp, include/smurf_packet.h). */
module SmurfPacket {
  import opened Words
  import opened Wrappers
  import opened TesBias

  const HEADER_LENGTH := 128
  const TES_DAC_OFFSET := 8

  type Header = h: seq<byte> | |h| == HEADER_LENGTH witness seq(128, _ => 0)

  /** What travels through the buffer and into the files. */
  datatype Packet = Packet(header: Header, payload: seq<int>)

  // ---------------------------------------------------------------------------
  // The word fields of ISmurfPacket
  // ---------------------------------------------------------------------------

  datatype Field =
    | Version | CrateID | SlotNumber | TimingConfiguration | NumberChannels
    | UnixTime | FluxRampIncrement | FluxRampOffset
    | Counter0 | Counter1 | Counter2 | AveragingResetBits | FrameCounter | TESRelaySetting
    | ExternalTimeClock | ControlField | TestParameters
    | NumberRows | NumberRowsReported | RowLength | DataRate

  function Offset(f: Field): nat {
    match f
    case Version => 0
    case CrateID => 1
    case SlotNumber => 2
    case TimingConfiguration => 3
    case NumberChannels => 4
    case UnixTime => 48
    case FluxRampIncrement => 56
    case FluxRampOffset => 60
    case Counter0 => 64
    case Counter1 => 68
    case Counter2 => 72
    case AveragingResetBits => 80
    case FrameCounter => 84
    case TESRelaySetting => 88
    case ExternalTimeClock => 96
    case ControlField => 104
    case TestParameters => 105
    case NumberRows => 112
    case NumberRowsReported => 114
    case RowLength => 120
    case DataRate => 122
  }

  function Width(f: Field): nat {
    match f
    case Version | CrateID | SlotNumber | TimingConfiguration | ControlField | TestParameters => 1
    case NumberRows | NumberRowsReported | RowLength | DataRate => 2
    case UnixTime | Counter2 | ExternalTimeClock => 8
    case _ => 4
  }

  /** No two word fields share a byte, and none touches the TES bias block. */
  lemma FieldsDisjoint(f: Field, g: Field)
    ensures Offset(f) + Width(f) <= HEADER_LENGTH
    ensures Offset(f) + Width(f) <= TES_DAC_OFFSET || TES_DAC_OFFSET + TES_BIAS_BUFFER_SIZE <= Offset(f)
    ensures f != g ==> Offset(f) + Width(f) <= Offset(g) || Offset(g) + Width(g) <= Offset(f)
  {}

  function GetField(h: Header, f: Field): (v: nat)
    ensures v < Span(Width(f))
  {
    FieldsDisjoint(f, f);
    Load(h, Offset(f), Width(f))
  }

  function SetField(h: Header, f: Field, v: nat): Header {
    FieldsDisjoint(f, f);
    Store(h, Offset(f), Width(f), v)
  }

  function TesBlock(h: Header): Packed {
    h[TES_DAC_OFFSET..TES_DAC_OFFSET + TES_BIAS_BUFFER_SIZE]
  }

  function PutTesBlock(h: Header, tes: Packed): Header {
    Overlay(h, TES_DAC_OFFSET, tes)
  }

  // ---------------------------------------------------------------------------
  // Control bits
  // ---------------------------------------------------------------------------

  /** byte & (1 << k) */
  predicate Bit(x: nat, k: nat) {
    if k == 0 then x % 2 == 1 else Bit(x / 2, k - 1)
  }

  /** byte | (1 << k), or byte & ~(1 << k) */
  function WithBit(x: nat, k: nat, on: bool): nat {
    if k == 0 then x / 2 * 2 + (if on then 1 else 0) else x % 2 + 2 * WithBit(x / 2, k - 1, on)
  }

  function GetWordBit(x: byte, k: nat): Result<bool> {
    if k >= 8 then OutOfRange else Ok(Bit(x, k))
  }

  function SetWordBit(x: byte, k: nat, on: bool): Result<byte> {
    if k >= 8 then OutOfRange else
      WithBitStaysByte(x, k, on, 8);
      Ok(WithBit(x, k, on))
  }

  function Power2(n: nat): (p: nat)
    ensures p > 0
  {
    if n == 0 then 1 else 2 * Power2(n - 1)
  }

  lemma {:induction false} WithBitStaysByte(x: nat, k: nat, on: bool, n: nat)
    requires k < n && x < Power2(n)
    ensures WithBit(x, k, on) < Power2(n)
    ensures n == 8 ==> Power2(n) == 256
  {
    assert n == 8 ==> Power2(n) == 256 by {
      assert Power2(4) == 16;
      assert Power2(6) == 4 * Power2(4);
    }
    if k > 0 {
      WithBitStaysByte(x / 2, k - 1, on, n - 1);
    }
  }

  lemma {:induction false} WithBitIsBitUpdate(x: nat, k: nat, on: bool, j: nat)
    ensures Bit(WithBit(x, k, on), j) == if j == k then on else Bit(x, j)
  {
    var y := WithBit(x, k, on);
    if k == 0 {
      assert y / 2 == x / 2 && (y % 2 == 1) == on;
    } else {
      assert y / 2 == WithBit(x / 2, k - 1, on) && y % 2 == x % 2;
      if j > 0 {
        WithBitIsBitUpdate(x / 2, k - 1, on, j - 1);
      }
    }
  }

  lemma WithBitKeepsHighNibble(x: nat, k: nat, on: bool)
    requires k < 4
    ensures WithBit(x, k, on) / 16 == x / 16
  {
    HalveHigh(x, k, on, 4);
    assert Shift(x, 4) == x / 16 && Shift(WithBit(x, k, on), 4) == WithBit(x, k, on) / 16 by {
      ShiftFour(x);
      ShiftFour(WithBit(x, k, on));
    }
  }

  function Shift(x: nat, n: nat): nat {
    if n == 0 then x else Shift(x / 2, n - 1)
  }

  lemma ShiftFour(x: nat)
    ensures Shift(x, 4) == x / 16
  {
    var y := x / 2 / 2 / 2;
    assert Shift(x, 4) == Shift(x / 2, 3) == Shift(x / 2 / 2, 2) == Shift(y, 1);
    assert Shift(y, 1) == Shift(y / 2, 0) == y / 2;
    assert y / 2 == x / 16;
  }

  lemma {:induction false} HalveHigh(x: nat, k: nat, on: bool, n: nat)
    requires k < n
    ensures Shift(WithBit(x, k, on), n) == Shift(x, n)
  {
    if k > 0 {
      HalveHigh(x / 2, k - 1, on, n - 1);
    }
  }

  // ---------------------------------------------------------------------------
  // Every setter and getter of ISmurfPacket
  // ---------------------------------------------------------------------------

  datatype Setter =
    | SetWordField(f: Field, v: nat)
    | SetControlBit(bit: nat, on: bool)
    | SetTestMode(mode: byte)
    | SetTes(index: nat, value: int)

  datatype Getter =
    | WordField(f: Field)
    | ControlBit(bit: nat)
    | TestMode
    | Tes(index: nat)

  /** The arguments the class passes: the four named control bits, and a TES index in range. */
  predicate Legal(s: Setter) {
    match s
    case SetControlBit(k, _) => k < 4
    case SetTes(i, _) => i < TES_BIAS_COUNT
    case _ => true
  }

  predicate LegalGet(g: Getter) {
    match g
    case ControlBit(k) => k < 4
    case Tes(i) => i < TES_BIAS_COUNT
    case _ => true
  }

  function Apply(h: Header, s: Setter): Header
    requires Legal(s)
  {
    match s
    case SetWordField(f, v) => SetField(h, f, v)
    case SetControlBit(k, on) =>
      SetField(h, ControlField, SetWordBit(ControlByte(h), k, on).value)
    case SetTestMode(mode) =>
      SetField(h, ControlField, WithTestMode(ControlByte(h), mode))
    case SetTes(i, value) =>
      PutTesBlock(h, SetWord(TesBlock(h), i, value).value)
  }

  /** (u8 & 0x0f) | ((mode << 4) & 0xf0) */
  function WithTestMode(u8: byte, mode: byte): byte {
    u8 % 16 + mode % 16 * 16
  }

  function ControlByte(h: Header): byte {
    SpanValues();
    GetField(h, ControlField)
  }

  function BoolToInt(on: bool): int {
    if on then 1 else 0
  }

  function Read(h: Header, g: Getter): int
    requires LegalGet(g)
  {
    match g
    case WordField(f) => GetField(h, f)
    case ControlBit(k) => BoolToInt(GetWordBit(ControlByte(h), k).value)
    case TestMode => ControlByte(h) / 16 % 16
    case Tes(i) => GetWord(TesBlock(h), h[TES_DAC_OFFSET + TES_BIAS_BUFFER_SIZE], i).value
  }

  /** The getter that reads what a setter writes, and the value it must then read. */
  function Target(s: Setter): Getter {
    match s
    case SetWordField(f, _) => WordField(f)
    case SetControlBit(k, _) => ControlBit(k)
    case SetTestMode(_) => TestMode
    case SetTes(i, _) => Tes(i)
  }

  function Written(s: Setter): int {
    match s
    case SetWordField(f, v) => v % Span(Width(f))
    case SetControlBit(_, on) => BoolToInt(on)
    case SetTestMode(mode) => mode % 16
    case SetTes(_, value) => Signed20(value)
  }

  /** A getter that shares bits with a setter without being its own: the control byte as a whole. */
  predicate Overlaps(s: Setter, g: Getter) {
    match s
    case SetWordField(f, _) => f == ControlField && (g.ControlBit? || g.TestMode?)
    case SetControlBit(_, _) => g == WordField(ControlField)
    case SetTestMode(_) => g == WordField(ControlField)
    case SetTes(_, _) => false
  }

  lemma SetFieldLaw(h: Header, f: Field, v: nat, g: Field)
    ensures GetField(SetField(h, f, v), g) == if g == f then v % Span(Width(f)) else GetField(h, g)
    ensures TesBlock(SetField(h, f, v)) == TesBlock(h)
  {
    FieldsDisjoint(f, g);
    FieldsDisjoint(g, f);
    StoreLaw(h, Offset(f), Width(f), v, Offset(g), Width(g));
  }

  lemma StoreLaw(h: Header, off: nat, width: nat, v: nat, at: nat, m: nat)
    requires off + width <= HEADER_LENGTH && at + m <= HEADER_LENGTH
    requires off + width <= TES_DAC_OFFSET || TES_DAC_OFFSET + TES_BIAS_BUFFER_SIZE <= off
    ensures Load(Store(h, off, width, v), off, width) == v % Span(width)
    ensures at + m <= off || off + width <= at ==> Load(Store(h, off, width, v), at, m) == Load(h, at, m)
    ensures TesBlock(Store(h, off, width, v)) == TesBlock(h)
  {
    LoadStoreSame(h, off, width, v);
    if at + m <= off || off + width <= at {
      LoadOverlayOther(h, off, ToBytes(v, width), at, m);
    }
  }

  lemma PutTesLaw(h: Header, tes: Packed, g: Field)
    ensures GetField(PutTesBlock(h, tes), g) == GetField(h, g)
    ensures TesBlock(PutTesBlock(h, tes)) == tes
  {
    FieldsDisjoint(g, g);
    LoadOverlayOther(h, TES_DAC_OFFSET, tes, Offset(g), Width(g));
  }

  /** get-after-set returns the value reduced to the field, for every setter and every header. */
  lemma GetAfterSetLaw(h: Header, s: Setter)
    requires Legal(s)
    ensures Read(Apply(h, s), Target(s)) == Written(s)
  {
    match s
    case SetWordField(f, v) => SetFieldLaw(h, f, v, f);
    case SetControlBit(k, on) => ControlBitAfterSet(h, k, on);
    case SetTestMode(mode) => TestModeAfterSet(h, mode);
    case SetTes(i, value) => TesAfterSet(h, i, value);
  }

  lemma ControlBitAfterSet(h: Header, k: nat, on: bool)
    requires k < 4
    ensures Read(Apply(h, SetControlBit(k, on)), ControlBit(k)) == BoolToInt(on)
  {
    ControlByteAfterSet(h, SetWordBit(ControlByte(h), k, on).value);
    WithBitIsBitUpdate(ControlByte(h), k, on, k);
  }

  lemma TestModeAfterSet(h: Header, mode: byte)
    ensures Read(Apply(h, SetTestMode(mode)), TestMode) == mode % 16
  {
    ControlByteAfterSet(h, WithTestMode(ControlByte(h), mode));
    HighNibble(ControlByte(h) % 16, mode % 16);
  }

  lemma HighNibble(lo: nat, hi: nat)
    requires lo < 16 && hi < 16
    ensures (lo + hi * 16) / 16 % 16 == hi
  {}

  lemma TesAfterSet(h: Header, i: nat, value: int)
    requires i < TES_BIAS_COUNT
    ensures Read(Apply(h, SetTes(i, value)), Tes(i)) == Signed20(value)
  {
    var h' := Apply(h, SetTes(i, value));
    PutTesLaw(h, SetWord(TesBlock(h), i, value).value, Version);
    TesBias.GetAfterSet(TesBlock(h), i, value, h'[TES_DAC_OFFSET + TES_BIAS_BUFFER_SIZE]);
  }

  /** ... and every other getter reads what it read before. */
  lemma SetLeavesOthers(h: Header, s: Setter, g: Getter)
    requires Legal(s) && LegalGet(g)
    requires g != Target(s) && !Overlaps(s, g)
    ensures Read(Apply(h, s), g) == Read(h, g)
  {
    match s
    case SetWordField(f, v) => ReadAfterSetField(h, f, v, g);
    case SetControlBit(k, on) => ControlBitLeavesOthers(h, k, on, g);
    case SetTestMode(mode) => TestModeLeavesOthers(h, mode, g);
    case SetTes(i, value) => TesLeavesOthers(h, i, value, g);
  }

  lemma ControlBitLeavesOthers(h: Header, k: nat, on: bool, g: Getter)
    requires k < 4 && LegalGet(g) && g != ControlBit(k) && g != WordField(ControlField)
    ensures Read(Apply(h, SetControlBit(k, on)), g) == Read(h, g)
  {
    var x := ControlByte(h);
    var y: byte := SetWordBit(x, k, on).value;
    if g.ControlBit? {
      ControlByteAfterSet(h, y);
      WithBitIsBitUpdate(x, k, on, g.bit);
    } else if g.TestMode? {
      ControlByteAfterSet(h, y);
      WithBitKeepsHighNibble(x, k, on);
    } else {
      ReadAfterSetField(h, ControlField, y, g);
    }
  }

  lemma TestModeLeavesOthers(h: Header, mode: byte, g: Getter)
    requires LegalGet(g) && g != TestMode && g != WordField(ControlField)
    ensures Read(Apply(h, SetTestMode(mode)), g) == Read(h, g)
  {
    if g.ControlBit? {
      TestModeKeepsBits(h, mode, g.bit);
    } else {
      ReadAfterSetField(h, ControlField, WithTestMode(ControlByte(h), mode), g);
    }
  }

  lemma TestModeKeepsBits(h: Header, mode: byte, k: nat)
    requires k < 4
    ensures Read(Apply(h, SetTestMode(mode)), ControlBit(k)) == Read(h, ControlBit(k))
  {
    ControlByteAfterSet(h, WithTestMode(ControlByte(h), mode));
    LowNibbleBits(ControlByte(h), mode % 16, k);
  }

  lemma ControlByteAfterSet(h: Header, y: byte)
    ensures ControlByte(SetField(h, ControlField, y)) == y
  {
    SetFieldLaw(h, ControlField, y, ControlField);
    SpanValues();
  }

  lemma TesLeavesOthers(h: Header, i: nat, value: int, g: Getter)
    requires i < TES_BIAS_COUNT && LegalGet(g) && g != Tes(i)
    ensures Read(Apply(h, SetTes(i, value)), g) == Read(h, g)
  {
    var tes := SetWord(TesBlock(h), i, value).value;
    match g
    case WordField(f) => PutTesLaw(h, tes, f);
    case Tes(j) =>
      PutTesLaw(h, tes, Version);
      TesReading(h, j);
      TesReading(PutTesBlock(h, tes), j);
      SetWordIsMapUpdate(TesBlock(h), i, value, j);
    case _ => PutTesLaw(h, tes, ControlField);
  }

  lemma TesReading(h: Header, i: nat)
    requires i < TES_BIAS_COUNT
    ensures Read(h, Tes(i)) == Signed20(Word(TesBlock(h), i))
  {
    GetWordDecodes(TesBlock(h), h[TES_DAC_OFFSET + TES_BIAS_BUFFER_SIZE], i);
  }

  lemma ReadAfterSetField(h: Header, f: Field, v: nat, g: Getter)
    requires LegalGet(g) && g != WordField(f)
    requires f == ControlField ==> g.WordField? || g.Tes?
    ensures Read(SetField(h, f, v), g) == Read(h, g)
  {
    match g
    case WordField(e) => SetFieldLaw(h, f, v, e);
    case Tes(i) =>
      SetFieldLaw(h, f, v, f);
      TesReading(h, i);
      TesReading(SetField(h, f, v), i);
    case _ => SetFieldLaw(h, f, v, ControlField);
  }

  lemma LowNibbleBits(x: nat, m: nat, j: nat)
    requires j < 4
    ensures Bit(x % 16 + m * 16, j) == Bit(x, j)
  {
    BitAbove(x / 16, x % 16, j);
    BitAbove(m, x % 16, j);
  }

  lemma BitAbove(q: nat, r: nat, j: nat)
    requires j < 4
    ensures Bit(16 * q + r, j) == Bit(r, j)
  {
    var x := 16 * q + r;
    assert x / 2 == 8 * q + r / 2 && x / 2 / 2 == 4 * q + r / 2 / 2 && x / 2 / 2 / 2 == 2 * q + r / 2 / 2 / 2;
    match j
    case 0 =>
    case 1 => assert Bit(x, 1) == Bit(x / 2, 0) && Bit(r, 1) == Bit(r / 2, 0);
    case 2 => assert Bit(x, 2) == Bit(x / 2, 1) == Bit(x / 2 / 2, 0) && Bit(r, 2) == Bit(r / 2, 1) == Bit(r / 2 / 2, 0);
    case _ =>
      assert Bit(x, 3) == Bit(x / 2, 2) == Bit(x / 2 / 2, 1) == Bit(x / 2 / 2 / 2, 0);
      assert Bit(r, 3) == Bit(r / 2, 2) == Bit(r / 2 / 2, 1) == Bit(r / 2 / 2 / 2, 0);
  }

  // ---------------------------------------------------------------------------
  // SmurfHeader, the second decoder of the same bytes
  // ---------------------------------------------------------------------------

  type Junk = j: seq<byte> | |j| == 8 witness seq(8, _ => 0)

  /**
   * pull_bit_field: `width` bytes are copied into an uninitialised 64-bit variable, here `junk`,
   * and the result is masked to the width.
   */
  function PullBitField(h: Header, junk: Junk, off: nat, width: nat): nat
    requires width < 8 && off + width <= HEADER_LENGTH
  {
    Load(Overlay(junk, 0, h[off..off + width]), 0, 8) % Span(width)
  }

  /** The mask removes every byte that was not copied. */
  lemma PullBitFieldIgnoresJunk(h: Header, junk: Junk, off: nat, width: nat)
    requires width < 8 && off + width <= HEADER_LENGTH
    ensures PullBitField(h, junk, off, width) == Load(h, off, width)
  {
    var x: Junk := Overlay(junk, 0, h[off..off + width]);
    assert x[0..width] == h[off..off + width];
    LoadSameBytes(x, h, 0, off, width);
    MaskedLoad(x, width, 8 - width);
  }

  lemma MaskedLoad(x: seq<byte>, width: nat, rest: nat)
    requires width + rest == |x|
    ensures Load(x, 0, width + rest) % Span(width) == Load(x, 0, width)
  {
    var lo, span, hi := Load(x, 0, width), Span(width), Load(x, width, rest);
    assert Load(x, 0, width + rest) == lo + span * hi by {
      LoadSplit(x, 0, width, rest);
    }
    LowPart(lo, span, hi);
  }

  lemma LowPart(lo: nat, span: nat, hi: nat)
    requires lo < span
    ensures (lo + span * hi) % span == lo
  {
    ModUnique(lo + span * hi, hi, lo, span);
  }

  /** The getters that pull one field. */
  datatype Pulled =
    | GetVersion | GetNumChannels | Get1HzCounter | GetExtCounter | GetFrameCounter | GetTestParameter
    | GetNumRows | GetNumRowsReported | GetRowLen | GetDataRate

  function PullOffset(g: Pulled): nat {
    match g
    case GetVersion => 0
    case GetNumChannels => 4
    case Get1HzCounter => 64
    case GetExtCounter => 68
    case GetFrameCounter => 84
    case GetTestParameter => 105
    case GetNumRows => 112
    case GetNumRowsReported => 114
    case GetRowLen => 120
    case GetDataRate => 122
  }

  function PullWidth(g: Pulled): nat {
    match g
    case GetVersion | GetTestParameter => 1
    case GetNumRows | GetNumRowsReported | GetRowLen | GetDataRate => 2
    case _ => 4
  }

  /** What the four row and rate getters return for a zero. */
  function Default(g: Pulled): nat {
    match g
    case GetNumRows | GetNumRowsReported => 33
    case GetRowLen => 60
    case GetDataRate => 140
    case _ => 0
  }

  function HeaderGet(h: Header, junk: Junk, g: Pulled): nat {
    var x := PullBitField(h, junk, PullOffset(g), PullWidth(g));
    if x != 0 then x else Default(g)
  }

  /** The field of ISmurfPacket that a getter names. */
  function FieldOf(g: Pulled): Field {
    match g
    case GetVersion => Version
    case GetNumChannels => NumberChannels
    case Get1HzCounter => Counter0
    case GetExtCounter => Counter1
    case GetFrameCounter => FrameCounter
    case GetTestParameter => TestParameters
    case GetNumRows => NumberRows
    case GetNumRowsReported => NumberRowsReported
    case GetRowLen => RowLength
    case GetDataRate => DataRate
  }

  function HeaderSyncword(h: Header, junk: Junk): nat {
    PullBitField(h, junk, 96, 5) % TWO_32
  }

  function HeaderEpicsNanoseconds(h: Header, junk: Junk): nat {
    PullBitField(h, junk, 72, 4) % TWO_32
  }

  function HeaderEpicsSeconds(h: Header, junk: Junk): nat {
    PullBitField(h, junk, 76, 4) % TWO_32
  }

  /** The control flags come from a 16-bit pull that covers the test parameters too. */
  predicate HeaderControlBit(h: Header, junk: Junk, k: nat) {
    Bit(PullBitField(h, junk, 104, 2), k)
  }

  function HeaderTestMode(h: Header, junk: Junk): nat {
    PullBitField(h, junk, 104, 2) / 16 % 16
  }

  /**
   * The two decoders read the same value out of every header, but for the row and rate fields, where
   * they agree exactly when the field is not zero.
   */
  lemma GettersAgree(h: Header, junk: Junk, g: Pulled)
    ensures HeaderGet(h, junk, g) == Read(h, WordField(FieldOf(g))) <==>
            Default(g) == 0 || Read(h, WordField(FieldOf(g))) != 0
  {
    PullAgrees(h, junk, PullOffset(g), PullWidth(g), FieldOf(g));
  }

  /** One field, wherever it is. */
  lemma PullAgrees(h: Header, junk: Junk, off: nat, width: nat, f: Field)
    requires off == Offset(f) && width == Width(f) < 8
    ensures off + width <= HEADER_LENGTH
    ensures PullBitField(h, junk, off, width) == Read(h, WordField(f))
  {
    FieldsDisjoint(f, f);
    PullBitFieldIgnoresJunk(h, junk, off, width);
  }

  /** They read the same clocks ... */
  lemma ClocksAgree(h: Header, junk: Junk)
    ensures HeaderSyncword(h, junk) == Read(h, WordField(ExternalTimeClock)) % TWO_32
    ensures HeaderEpicsNanoseconds(h, junk) + TWO_32 * HeaderEpicsSeconds(h, junk) == Read(h, WordField(Counter2))
  {
    SyncwordAgrees(h, junk);
    TimestampAgrees(h, junk);
  }

  /** ... and the same control bits and test mode. */
  lemma ControlsAgree(h: Header, junk: Junk)
    ensures forall k: nat :: k < 4 ==> BoolToInt(HeaderControlBit(h, junk, k)) == Read(h, ControlBit(k))
    ensures HeaderTestMode(h, junk) == Read(h, TestMode)
  {
    forall k: nat | k < 4 ensures BoolToInt(HeaderControlBit(h, junk, k)) == Read(h, ControlBit(k)) {
      ControlBitAgrees(h, junk, k);
    }
    TestModeAgrees(h, junk);
  }

  lemma SyncwordAgrees(h: Header, junk: Junk)
    ensures HeaderSyncword(h, junk) == Read(h, WordField(ExternalTimeClock)) % TWO_32
  {
    PullBitFieldIgnoresJunk(h, junk, 96, 5);
    LowWord(h, 96, 4, 1);
    LowWord(h, 96, 4, 4);
  }

  /** A word of four or more bytes reduced to 32 bits is its first four bytes. */
  lemma LowWord(h: Header, off: nat, n: nat, m: nat)
    requires n == 4 && off + n + m <= HEADER_LENGTH
    ensures Load(h, off, n) < TWO_32
    ensures Load(h, off, n + m) == Load(h, off, n) + TWO_32 * Load(h, off + n, m)
    ensures Load(h, off, n + m) % TWO_32 == Load(h, off, n)
  {
    SpanValues();
    LoadSplit(h, off, n, m);
    LowPart(Load(h, off, n), TWO_32, Load(h, off + n, m));
  }

  lemma TimestampAgrees(h: Header, junk: Junk)
    ensures HeaderEpicsNanoseconds(h, junk) + TWO_32 * HeaderEpicsSeconds(h, junk) == Read(h, WordField(Counter2))
  {
    WordPair(h, junk, Offset(Counter2), 4);
  }

  /** Two words pulled one after the other are the double word. */
  lemma WordPair(h: Header, junk: Junk, off: nat, n: nat)
    requires n == 4 && off + n + n <= HEADER_LENGTH
    ensures PullBitField(h, junk, off, n) % TWO_32 + TWO_32 * (PullBitField(h, junk, off + n, n) % TWO_32) ==
            Load(h, off, n + n)
  {
    PullBitFieldIgnoresJunk(h, junk, off, n);
    PullBitFieldIgnoresJunk(h, junk, off + n, n);
    LowWord(h, off, n, n);
    LowWord(h, off + n, n, 0);
    PairUp(PullBitField(h, junk, off, n), PullBitField(h, junk, off + n, n), Load(h, off, n + n));
  }

  lemma PairUp(low: nat, high: nat, d: nat)
    requires low < TWO_32 && high < TWO_32 && d == low + TWO_32 * high
    ensures low % TWO_32 + TWO_32 * (high % TWO_32) == d
  {}

  lemma TestModeAgrees(h: Header, junk: Junk)
    ensures HeaderTestMode(h, junk) == Read(h, TestMode)
  {
    ControlPull(h, junk);
    NibbleOfWord(ControlByte(h), Load(h, 105, 1));
  }

  lemma NibbleOfWord(x: nat, hi: nat)
    requires x < 256
    ensures (x + 0x100 * hi) / 16 % 16 == x / 16 % 16
  {
    assert (x + 0x100 * hi) / 16 == x / 16 + 16 * hi;
    LowPart(x / 16, 16, hi);
    LowPart(x / 16, 16, 0);
  }

  lemma ControlBitAgrees(h: Header, junk: Junk, k: nat)
    requires k < 4
    ensures BoolToInt(HeaderControlBit(h, junk, k)) == Read(h, ControlBit(k))
  {
    ControlPull(h, junk);
    BitAbove(16 * Load(h, 105, 1), ControlByte(h), k);
  }

  lemma ControlPull(h: Header, junk: Junk)
    ensures PullBitField(h, junk, 104, 2) == ControlByte(h) + 0x100 * Load(h, 105, 1)
  {
    SpanValues();
    PullBitFieldIgnoresJunk(h, junk, 104, 2);
    LoadSplit(h, 104, 1, 1);
  }

  // ---------------------------------------------------------------------------
  // Where everything is
  // ---------------------------------------------------------------------------

  lemma {:induction false} BitIsDigit(x: nat, k: nat)
    ensures Bit(x, k) <==> x / Power2(k) % 2 == 1
  {
    if k > 0 {
      BitIsDigit(x / 2, k - 1);
      HalfThenRest(x, Power2(k - 1));
    }
  }

  lemma HalfThenRest(x: nat, m: nat)
    requires m > 0
    ensures x / 2 / m == x / (2 * m)
  {
    var q, r := x / 2 / m, x / 2 % m;
    assert x / 2 == q * m + r;
    assert x == q * (2 * m) + (2 * r + x % 2);
    ModUnique(x, q, 2 * r + x % 2, 2 * m);
  }

  /** The control byte is byte 104, with its flags in the lowest four bits and the test mode in the highest four. */
  lemma ControlByteIs(h: Header)
    ensures ControlByte(h) == h[104]
    ensures Bit(ControlByte(h), 0) <==> h[104] % 2 == 1
    ensures Bit(ControlByte(h), 1) <==> h[104] / 2 % 2 == 1
    ensures Bit(ControlByte(h), 2) <==> h[104] / 4 % 2 == 1
    ensures Bit(ControlByte(h), 3) <==> h[104] / 8 % 2 == 1
    ensures ControlByte(h) / 16 % 16 == h[104] / 16
  {
    assert Load(h, 105, 0) == 0;
    BitsOfByte(h[104]);
  }

  /** getDisableFileWriteBit */
  predicate FileWritingOff(h: Header) {
    Bit(ControlByte(h), 2)
  }

  /** The file-writing flag is bit 2 of byte 104. */
  lemma FileFlagIs(h: Header)
    ensures FileWritingOff(h) <==> h[104] / 4 % 2 == 1
  {
    ControlByteIs(h);
  }

  lemma BitsOfByte(x: byte)
    ensures Bit(x, 0) <==> x % 2 == 1
    ensures Bit(x, 1) <==> x / 2 % 2 == 1
    ensures Bit(x, 2) <==> x / 4 % 2 == 1
    ensures Bit(x, 3) <==> x / 8 % 2 == 1
  {
    BitIsDigit(x, 1);
    BitIsDigit(x, 2);
    BitIsDigit(x, 3);
    assert Power2(0) == 1 && Power2(1) == 2 && Power2(2) == 4 && Power2(3) == 8;
  }

  /** The value of a field as the bytes for two places in the header. */
  function FieldBytes(h: Header, f: Field, from: nat, to: nat): (r: seq<byte>)
    requires from <= to
    ensures |r| == to - from
  {
    ToBytes(GetField(h, f), to - from)
  }

  lemma PieceIsField(h: Header, f: Field, from: nat, to: nat)
    requires from == Offset(f) && to == from + Width(f)
    ensures from <= to <= HEADER_LENGTH && FieldBytes(h, f, from, to) == h[from..to]
  {
    FieldsDisjoint(f, f);
    BytesOfLoad(h, from, Width(f));
  }

  // The header in six pieces: its fields in order with their places in bytes.  Bytes 92 to 95, 106 to 111, 116 to 119
  // and 124 to 127 belong to no field.

  function IdentityBytes(h: Header): seq<byte> {
    FieldBytes(h, Version, 0, 1) + FieldBytes(h, CrateID, 1, 2) + FieldBytes(h, SlotNumber, 2, 3)
    + FieldBytes(h, TimingConfiguration, 3, 4) + FieldBytes(h, NumberChannels, 4, 8)
  }

  function SettingBytes(h: Header): seq<byte> {
    TesBlock(h) + FieldBytes(h, UnixTime, 48, 56) + FieldBytes(h, FluxRampIncrement, 56, 60)
    + FieldBytes(h, FluxRampOffset, 60, 64)
  }

  function CounterBytes(h: Header): seq<byte> {
    FieldBytes(h, Counter0, 64, 68) + FieldBytes(h, Counter1, 68, 72) + FieldBytes(h, Counter2, 72, 80)
  }

  function FrameBytes(h: Header): seq<byte> {
    FieldBytes(h, AveragingResetBits, 80, 84) + FieldBytes(h, FrameCounter, 84, 88)
    + FieldBytes(h, TESRelaySetting, 88, 92) + h[92..96]
  }

  function ControlBytes(h: Header): seq<byte> {
    FieldBytes(h, ExternalTimeClock, 96, 104) + FieldBytes(h, ControlField, 104, 105)
    + FieldBytes(h, TestParameters, 105, 106) + h[106..112]
  }

  function ReadoutBytes(h: Header): seq<byte> {
    FieldBytes(h, NumberRows, 112, 114) + FieldBytes(h, NumberRowsReported, 114, 116) + h[116..120]
    + FieldBytes(h, RowLength, 120, 122) + FieldBytes(h, DataRate, 122, 124) + h[124..128]
  }

  /** Every header is its fields laid end to end, each least significant byte first. */
  lemma HeaderIsItsFields(h: Header)
    ensures h == IdentityBytes(h) + SettingBytes(h) + CounterBytes(h) + FrameBytes(h) + ControlBytes(h)
                 + ReadoutBytes(h)
  {
    IdentityBytesAre(h);
    SettingBytesAre(h);
    CounterBytesAre(h);
    FrameBytesAre(h);
    ControlBytesAre(h);
    ReadoutBytesAre(h);
    SixPieces(h, IdentityBytes(h), SettingBytes(h), CounterBytes(h), FrameBytes(h), ControlBytes(h), ReadoutBytes(h));
  }

  lemma SixPieces(h: Header, a: seq<byte>, b: seq<byte>, c: seq<byte>, d: seq<byte>, e: seq<byte>, f: seq<byte>)
    requires a == h[0..8] && b == h[8..64] && c == h[64..80] && d == h[80..96] && e == h[96..112] && f == h[112..128]
    ensures h == a + b + c + d + e + f
  {}

  lemma IdentityBytesAre(h: Header)
    ensures IdentityBytes(h) == h[0..8]
  {
    PieceIsField(h, Version, 0, 1);
    PieceIsField(h, CrateID, 1, 2);
    PieceIsField(h, SlotNumber, 2, 3);
    PieceIsField(h, TimingConfiguration, 3, 4);
    PieceIsField(h, NumberChannels, 4, 8);
    assert h[0..1] + h[1..2] + h[2..3] + h[3..4] + h[4..8] == h[0..8];
  }

  lemma SettingBytesAre(h: Header)
    ensures SettingBytes(h) == h[8..64]
  {
    PieceIsField(h, UnixTime, 48, 56);
    PieceIsField(h, FluxRampIncrement, 56, 60);
    PieceIsField(h, FluxRampOffset, 60, 64);
    assert h[8..48] + h[48..56] + h[56..60] + h[60..64] == h[8..64];
  }

  lemma CounterBytesAre(h: Header)
    ensures CounterBytes(h) == h[64..80]
  {
    PieceIsField(h, Counter0, 64, 68);
    PieceIsField(h, Counter1, 68, 72);
    PieceIsField(h, Counter2, 72, 80);
    assert h[64..68] + h[68..72] + h[72..80] == h[64..80];
  }

  lemma FrameBytesAre(h: Header)
    ensures FrameBytes(h) == h[80..96]
  {
    PieceIsField(h, AveragingResetBits, 80, 84);
    PieceIsField(h, FrameCounter, 84, 88);
    PieceIsField(h, TESRelaySetting, 88, 92);
    assert h[80..84] + h[84..88] + h[88..92] + h[92..96] == h[80..96];
  }

  lemma ControlBytesAre(h: Header)
    ensures ControlBytes(h) == h[96..112]
  {
    PieceIsField(h, ExternalTimeClock, 96, 104);
    PieceIsField(h, ControlField, 104, 105);
    PieceIsField(h, TestParameters, 105, 106);
    assert h[96..104] + h[104..105] + h[105..106] + h[106..112] == h[96..112];
  }

  lemma ReadoutBytesAre(h: Header)
    ensures ReadoutBytes(h) == h[112..128]
  {
    PieceIsField(h, NumberRows, 112, 114);
    PieceIsField(h, NumberRowsReported, 114, 116);
    PieceIsField(h, RowLength, 120, 122);
    PieceIsField(h, DataRate, 122, 124);
    assert h[112..114] + h[114..116] + h[116..120] + h[120..122] + h[122..124] + h[124..128] == h[112..128];
  }

  // ---------------------------------------------------------------------------
  // What runThread writes into a header before it is sent
  // ---------------------------------------------------------------------------

  const SMURF_SAMPLES := 528

  function StampedHeader(h: Header, tes: Packed, unixTime: nat): Header {
    SetField(SetField(PutTesBlock(h, tes), UnixTime, unixTime), NumberChannels, SMURF_SAMPLES)
  }

  /** The stamp sets the unix time and the channel count, and changes no other word field. */
  lemma StampLaw(h: Header, tes: Packed, unixTime: nat, f: Field)
    requires unixTime < Span(8)
    ensures GetField(StampedHeader(h, tes, unixTime), f) ==
            match f
            case UnixTime => unixTime
            case NumberChannels => SMURF_SAMPLES
            case _ => GetField(h, f)
  {
    var h1 := PutTesBlock(h, tes);
    PutTesLaw(h, tes, f);
    SetFieldLaw(h1, UnixTime, unixTime, f);
    SetFieldLaw(SetField(h1, UnixTime, unixTime), NumberChannels, SMURF_SAMPLES, f);
    StampedValuesFit(unixTime);
  }

  lemma StampedValuesFit(unixTime: nat)
    requires unixTime < Span(8)
    ensures unixTime % Span(Width(UnixTime)) == unixTime
    ensures SMURF_SAMPLES % Span(Width(NumberChannels)) == SMURF_SAMPLES
  {
    SpanValues();
    LowPart(unixTime, Span(8), 0);
    LowPart(SMURF_SAMPLES, Span(4), 0);
  }

  /** It puts in the TES bias block ... */
  lemma StampKeepsTes(h: Header, tes: Packed, unixTime: nat)
    ensures TesBlock(StampedHeader(h, tes, unixTime)) == tes
  {
    var h1 := PutTesBlock(h, tes);
    PutTesLaw(h, tes, Version);
    SetFieldLaw(h1, UnixTime, unixTime, Version);
    SetFieldLaw(SetField(h1, UnixTime, unixTime), NumberChannels, SMURF_SAMPLES, Version);
  }

  /** ... and leaves the control field as it came. */
  lemma StampKeepsControl(h: Header, tes: Packed, unixTime: nat)
    ensures ControlByte(StampedHeader(h, tes, unixTime)) == ControlByte(h)
  {
    var h1 := PutTesBlock(h, tes);
    PutTesLaw(h, tes, ControlField);
    SetFieldLaw(h1, UnixTime, unixTime, ControlField);
    SetFieldLaw(SetField(h1, UnixTime, unixTime), NumberChannels, SMURF_SAMPLES, ControlField);
  }

  // ---------------------------------------------------------------------------
  // The class
  // ---------------------------------------------------------------------------

  class ISmurfPacket {
    const headerBuffer: array<byte>
    const payloadBuffer: array<int>

    ghost predicate Valid() {
      headerBuffer.Length == HEADER_LENGTH && payloadBuffer.Length == SMURF_SAMPLES
    }

    ghost function Contents(): Packet
      requires Valid()
      reads headerBuffer, payloadBuffer
    {
      Packet(headerBuffer[..], payloadBuffer[..])
    }

    constructor ()
      ensures Valid() && fresh(headerBuffer) && fresh(payloadBuffer)
    {
      headerBuffer := new byte[HEADER_LENGTH](_ => 0);
      payloadBuffer := new int[SMURF_SAMPLES](_ => 0);
    }

    method CopyHeader(h: Header)
      requires Valid()
      modifies headerBuffer
      ensures Contents() == old(Contents()).(header := h)
    {
      forall k | 0 <= k < HEADER_LENGTH {
        headerBuffer[k] := h[k];
      }
      assert headerBuffer[..] == h;
    }

    method CopyData(d: seq<int>)
      requires Valid() && |d| == SMURF_SAMPLES
      modifies payloadBuffer
      ensures Contents() == old(Contents()).(payload := d)
    {
      forall k | 0 <= k < SMURF_SAMPLES {
        payloadBuffer[k] := d[k];
      }
      assert payloadBuffer[..] == d;
    }

    method SetHeaderWord(f: Field, v: nat)
      requires Valid()
      modifies headerBuffer
      ensures Contents() == old(Contents()).(header := SetField(old(Contents()).header, f, v))
    {
      FieldsDisjoint(f, f);
      var word := ToBytes(v, Width(f));
      forall k | 0 <= k < Width(f) {
        headerBuffer[Offset(f) + k] := word[k];
      }
      assert headerBuffer[..] == SetField(old(headerBuffer[..]), f, v);
    }

    /** The word whose little-endian bytes are those of the field. */
    method GetHeaderWord(f: Field) returns (v: nat)
      requires Valid()
      ensures v < Span(Width(f)) && Offset(f) + Width(f) <= HEADER_LENGTH
      ensures headerBuffer[Offset(f)..Offset(f) + Width(f)] == ToBytes(v, Width(f))
      ensures v == Read(Contents().header, WordField(f))
    {
      FieldsDisjoint(f, f);
      BytesOfLoad(headerBuffer[..], Offset(f), Width(f));
      return Load(headerBuffer[..], Offset(f), Width(f));
    }

    method StoreControlBit(k: nat, on: bool)
      requires Valid() && k < 4
      modifies headerBuffer
      ensures Contents() == old(Contents()).(header := Apply(old(Contents()).header, SetControlBit(k, on)))
    {
      var u8 := ControlByte(headerBuffer[..]);
      SetHeaderWord(ControlField, SetWordBit(u8, k, on).value);
    }

    method StoreTestMode(mode: byte)
      requires Valid()
      modifies headerBuffer
      ensures Contents() == old(Contents()).(header := Apply(old(Contents()).header, SetTestMode(mode)))
    {
      var u8 := ControlByte(headerBuffer[..]);
      SetHeaderWord(ControlField, WithTestMode(u8, mode));
    }

    method StoreTESBias(i: nat, value: int) returns (ok: bool)
      requires Valid()
      modifies headerBuffer
      ensures ok <==> i < TES_BIAS_COUNT
      ensures Contents() == if ok then old(Contents()).(header := Apply(old(Contents()).header, SetTes(i, value)))
                            else old(Contents())
    {
      ghost var before := headerBuffer[..];
      var tba := new TesBiasArray(headerBuffer, TES_DAC_OFFSET);
      ok := tba.StoreWord(i, value);
      StoredInBlock(before, headerBuffer[..], i, value, ok);
    }
  }

  /** A word stored in the TES block, with the bytes around the block as they were. */
  lemma StoredInBlock(h: Header, h': Header, i: nat, value: int, ok: bool)
    requires h'[..TES_DAC_OFFSET] == h[..TES_DAC_OFFSET]
    requires h'[TES_DAC_OFFSET + TES_BIAS_BUFFER_SIZE..] == h[TES_DAC_OFFSET + TES_BIAS_BUFFER_SIZE..]
    requires ok <==> i < TES_BIAS_COUNT
    requires Ok(TesBlock(h')) == if ok then SetWord(TesBlock(h), i, value) else Ok(TesBlock(h))
    ensures h' == if ok then Apply(h, SetTes(i, value)) else h
  {
    SameAround(h, h', TesBlock(h'));
    SameAround(h, h, TesBlock(h));
  }

  lemma SameAround(h: Header, h': Header, tes: Packed)
    requires h'[..TES_DAC_OFFSET] == h[..TES_DAC_OFFSET]
    requires h'[TES_DAC_OFFSET + TES_BIAS_BUFFER_SIZE..] == h[TES_DAC_OFFSET + TES_BIAS_BUFFER_SIZE..]
    requires TesBlock(h') == tes
    ensures h' == PutTesBlock(h, tes)
  {
    forall k | 0 <= k < HEADER_LENGTH ensures h'[k] == PutTesBlock(h, tes)[k] {
      if k < TES_DAC_OFFSET {
        assert h'[..TES_DAC_OFFSET][k] == h[..TES_DAC_OFFSET][k];
      } else if k < TES_DAC_OFFSET + TES_BIAS_BUFFER_SIZE {
        assert h'[k] == TesBlock(h')[k - TES_DAC_OFFSET];
      } else {
        var m := TES_DAC_OFFSET + TES_BIAS_BUFFER_SIZE;
        assert h'[m..][k - m] == h[m..][k - m];
      }
    }
  }
}
