/** LocalServer.send_test_bias: register differences feed the packed TES bias array. */
module BiasServer {
  import opened Words
  import opened Wrappers
  import opened TesBias

  const REGISTERS := 32

  /** The server's TesBiasValue list and the processor's 40-byte tesBias array. */
  datatype State = State(values: seq<int>, tes: Packed)

  predicate WellFormed(s: State) {
    |s.values| == REGISTERS
  }

  function Initial(): (s: State)
    ensures WellFormed(s)
  {
    State(seq(REGISTERS, _ => 0), seq(TES_BIAS_BUFFER_SIZE, _ => 0))
  }

  /** A listener call for register TesBiasDacDataRegCh[channel]. */
  datatype Event = Event(channel: nat, value: int)

  function Difference(values: seq<int>, i: nat): int
    requires |values| == REGISTERS && i < TES_BIAS_COUNT
  {
    values[2 * i + 1] - values[2 * i]
  }

  /**
   * The list slot a channel writes.  Channel 0 gives index -1, which a Python list takes as its
   * last element.
   */
  function Slot(channel: nat): nat
    requires channel <= REGISTERS
  {
    if channel == 0 then REGISTERS - 1 else channel - 1
  }

  /**
   * Whether setTesBias(index, difference) reaches the array: an index of -1 or a difference that
   * is not an int32 is refused when the arguments are converted, after the list was updated.
   */
  predicate Accepted(s: State, e: Event)
    requires WellFormed(s)
  {
    1 <= e.channel <= REGISTERS
    && FitsInt32(Difference(s.values[Slot(e.channel) := e.value], Slot(e.channel) / 2))
  }

  function Step(s: State, e: Event): (s': State)
    requires WellFormed(s)
    ensures WellFormed(s')
  {
    if e.channel > REGISTERS then s
    else
      var values := s.values[Slot(e.channel) := e.value];
      var i := Slot(e.channel) / 2;
      State(values, if Accepted(s, e) then SetWord(s.tes, i, Difference(values, i)).value else s.tes)
  }

  function Run(s: State, events: seq<Event>): (s': State)
    requires WellFormed(s)
    ensures WellFormed(s')
    decreases |events|
  {
    if events == [] then s else Step(Run(s, events[..|events| - 1]), events[|events| - 1])
  }

  ghost predicate InSync(s: State)
    requires WellFormed(s)
  {
    forall i: nat :: i < TES_BIAS_COUNT ==> Follows(s, i)
  }

  /** Word i is the difference of registers 2i and 2i + 1, modulo 2^20. */
  predicate Follows(s: State, i: nat)
    requires WellFormed(s) && i < TES_BIAS_COUNT
  {
    Word(s.tes, i) == Difference(s.values, i) % 0x10_0000
  }

  /**
   * One event keeps every word equal to its register difference exactly when it is ignored, or
   * reaches the array, or moves the difference by a multiple of 2^20.
   */
  lemma StepKeepsSync(s: State, e: Event)
    requires WellFormed(s) && InSync(s)
    ensures InSync(Step(s, e)) <==>
            || e.channel > REGISTERS
            || Accepted(s, e)
            || (var i := Slot(e.channel) / 2;
                (Difference(Step(s, e).values, i) - Difference(s.values, i)) % 0x10_0000 == 0)
  {
    if e.channel <= REGISTERS {
      var i := Slot(e.channel) / 2;
      var s' := Step(s, e);
      forall j: nat | j < TES_BIAS_COUNT && j != i
        ensures Follows(s', j)
      {
        OtherWordsStay(s, e, j);
      }
      OwnWordFollows(s, e);
      assert InSync(s') <==> Follows(s', i);
    }
  }

  lemma OtherWordsStay(s: State, e: Event, j: nat)
    requires WellFormed(s) && InSync(s)
    requires e.channel <= REGISTERS && j < TES_BIAS_COUNT && j != Slot(e.channel) / 2
    ensures Follows(Step(s, e), j)
  {
    var i := Slot(e.channel) / 2;
    assert Follows(s, j);
    SetWordIsMapUpdate(s.tes, i, Difference(Step(s, e).values, i), j);
  }

  lemma OwnWordFollows(s: State, e: Event)
    requires WellFormed(s) && InSync(s) && e.channel <= REGISTERS
    ensures var s' := Step(s, e);
            var i := Slot(e.channel) / 2;
            Follows(s', i) <==>
            Accepted(s, e) || (Difference(s'.values, i) - Difference(s.values, i)) % 0x10_0000 == 0
  {
    var i := Slot(e.channel) / 2;
    var d := Difference(Step(s, e).values, i);
    assert Follows(s, i);
    if Accepted(s, e) {
      SetWordIsMapUpdate(s.tes, i, d, i);
    } else {
      SameResidue(d, Difference(s.values, i));
    }
  }

  lemma SameResidue(x: int, y: int)
    ensures x % 0x10_0000 == y % 0x10_0000 <==> (x - y) % 0x10_0000 == 0
  {}

  // ---------------------------------------------------------------------------
  // The array from the events alone
  // ---------------------------------------------------------------------------

  /** The value last given for a channel, zero if none was; channel 0 sets the last register too. */
  function LastValue(events: seq<Event>, channel: nat): int
    requires 1 <= channel <= 32
  {
    if events == [] then 0
    else
      var front, e := events[..|events| - 1], events[|events| - 1];
      if e.channel == channel || (e.channel == 0 && channel == 32) then e.value else LastValue(front, channel)
  }

  /** What channels 2i + 2 and 2i + 1 were last set to, the first less the second. */
  function PairValue(events: seq<Event>, i: nat): int
    requires i < TES_BIAS_COUNT
  {
    LastValue(events, 2 * i + 2) - LastValue(events, 2 * i + 1)
  }

  /** The pair value at the last event of channels 2i + 1 and 2i + 2 at which it was an int32. */
  function LastSent(events: seq<Event>, i: nat): int
    requires i < TES_BIAS_COUNT
  {
    if events == [] then 0
    else
      var front, e := events[..|events| - 1], events[|events| - 1];
      if (e.channel == 2 * i + 1 || e.channel == 2 * i + 2) && -0x8000_0000 <= PairValue(events, i) < 0x8000_0000
      then PairValue(events, i)
      else LastSent(front, i)
  }

  /** No call on channel 0, and none with a pair value past int32. */
  predicate NoneRefused(events: seq<Event>) {
    events != [] ==>
      var front, e := events[..|events| - 1], events[|events| - 1];
      && NoneRefused(front)
      && e.channel != 0
      && (e.channel <= 32 ==> -0x8000_0000 <= PairValue(events, (e.channel - 1) / 2) < 0x8000_0000)
  }

  lemma {:induction false} ValuesAreLast(events: seq<Event>, k: nat)
    requires k < REGISTERS
    ensures Run(Initial(), events).values[k] == LastValue(events, k + 1)
  {
    if events != [] {
      ValuesAreLast(events[..|events| - 1], k);
    }
  }

  lemma DifferenceIsPair(events: seq<Event>, i: nat)
    requires i < TES_BIAS_COUNT
    ensures Difference(Run(Initial(), events).values, i) == PairValue(events, i)
  {
    ValuesAreLast(events, 2 * i);
    ValuesAreLast(events, 2 * i + 1);
  }

  /** The all-zero start is in sync. */
  lemma InitiallyInSync()
    ensures InSync(Initial())
  {
    forall i: nat | i < TES_BIAS_COUNT ensures Follows(Initial(), i) {
      ZerosFollow(Initial(), i);
    }
  }

  lemma ZerosFollow(s: State, i: nat)
    requires WellFormed(s) && i < TES_BIAS_COUNT && (forall k :: 0 <= k < REGISTERS ==> s.values[k] == 0)
    requires forall k :: 0 <= k < TES_BIAS_BUFFER_SIZE ==> s.tes[k] == 0
    ensures Follows(s, i)
  {
    var w := Word(s.tes, i);
    ZeroWord(s.tes, i);
    assert w == 0 && Difference(s.values, i) == 0;
  }

  lemma ZeroWord(b: Packed, i: nat)
    requires i < TES_BIAS_COUNT && forall k :: 0 <= k < TES_BIAS_BUFFER_SIZE ==> b[k] == 0
    ensures Word(b, i) == 0
  {
    WordOfBlock(b, i);
  }

  /** For every sequence of events, refused ones and all: word i is the pair value last sent for it. */
  lemma {:induction false} WordIsLastSent(events: seq<Event>, i: nat)
    requires i < TES_BIAS_COUNT
    ensures Word(Run(Initial(), events).tes, i) == LastSent(events, i) % 0x10_0000
  {
    if events == [] {
      ZeroWord(Initial().tes, i);
    } else {
      var front, e := events[..|events| - 1], events[|events| - 1];
      WordIsLastSent(front, i);
      EventSetsWord(Run(Initial(), front), e, i);
      DifferenceIsPair(events, i);
      SendsIff(events, i);
    }
  }

  lemma SendsIff(events: seq<Event>, i: nat)
    requires events != [] && i < TES_BIAS_COUNT
    ensures var front, e := events[..|events| - 1], events[|events| - 1];
            Sends(Run(Initial(), front), e, i) <==>
            (e.channel == 2 * i + 1 || e.channel == 2 * i + 2) && FitsInt32(PairValue(events, i))
  {
    DifferenceIsPair(events, i);
  }

  /** Whether an event in state s reaches word i of the array. */
  predicate Sends(s: State, e: Event, i: nat)
    requires WellFormed(s)
  {
    Accepted(s, e) && Slot(e.channel) / 2 == i
  }

  lemma EventSetsWord(s: State, e: Event, i: nat)
    requires WellFormed(s) && i < TES_BIAS_COUNT
    ensures Word(Step(s, e).tes, i) ==
            if Sends(s, e, i) then Difference(Step(s, e).values, i) % 0x10_0000 else Word(s.tes, i)
  {
    if e.channel <= REGISTERS && Accepted(s, e) {
      var k := Slot(e.channel) / 2;
      SetWordIsMapUpdate(s.tes, k, Difference(Step(s, e).values, k), i);
    }
  }

  /** Without refused calls what was last sent is up to date. */
  lemma {:induction false} SentIsPair(events: seq<Event>, i: nat)
    requires NoneRefused(events) && i < TES_BIAS_COUNT
    ensures LastSent(events, i) == PairValue(events, i)
  {
    if events != [] {
      SentIsPair(events[..|events| - 1], i);
    }
  }

  /**
   * TES bias flow, from the calls alone: after any calls of which none is refused, word i is the value
   * last set on channel 2i + 2 less that on channel 2i + 1, modulo 2^20; it decodes to that as a
   * signed 20-bit value, which is the difference itself exactly when it fits.
   */
  lemma FlowDecodes(events: seq<Event>, beyond: byte, i: nat)
    requires NoneRefused(events) && i < TES_BIAS_COUNT
    ensures var d := LastValue(events, 2 * i + 2) - LastValue(events, 2 * i + 1);
            var tes := Run(Initial(), events).tes;
            && Word(tes, i) == d % 0x10_0000
            && GetWord(tes, beyond, i) == Ok(Signed20(d))
            && (GetWord(tes, beyond, i) == Ok(d) <==> -0x8_0000 <= d < 0x8_0000)
  {
    var d := PairValue(events, i);
    WordIsLastSent(events, i);
    SentIsPair(events, i);
    DecodesTo(Run(Initial(), events).tes, beyond, i, d);
    Signed20Fits(d);
  }

  lemma DecodesTo(tes: Packed, beyond: byte, i: nat, d: int)
    requires i < TES_BIAS_COUNT && Word(tes, i) == d % 0x10_0000
    ensures GetWord(tes, beyond, i) == Ok(Signed20(d))
  {
    GetWordDecodes(tes, beyond, i);
    Signed20Periodic(d % 0x10_0000, d / 0x10_0000);
  }

  lemma Signed20Fits(d: int)
    ensures Signed20(d) == d <==> -0x8_0000 <= d < 0x8_0000
  {}

  /** The pair value is, modulo 2^20, what was last sent for word i. */
  predicate UpToDate(events: seq<Event>, i: nat)
    requires i < TES_BIAS_COUNT
  {
    (PairValue(events, i) - LastSent(events, i)) % 0x10_0000 == 0
  }

  /** So the array follows the registers after a sequence of events exactly when every pair is up to date. */
  lemma SyncIff(events: seq<Event>)
    ensures InSync(Run(Initial(), events)) <==> forall i: nat :: i < TES_BIAS_COUNT ==> UpToDate(events, i)
  {
    var s := Run(Initial(), events);
    forall i: nat | i < TES_BIAS_COUNT ensures UpToDate(events, i) <==> Follows(s, i) {
      FollowsIff(events, i);
    }
  }

  lemma FollowsIff(events: seq<Event>, i: nat)
    requires i < TES_BIAS_COUNT
    ensures UpToDate(events, i) <==> Follows(Run(Initial(), events), i)
  {
    WordIsLastSent(events, i);
    DifferenceIsPair(events, i);
    SameResidue(PairValue(events, i), LastSent(events, i));
  }

  /** Channel 0 changes the list but not the array: the flow law fails on it. */
  lemma ChannelZeroBreaksSync()
    ensures !InSync(Run(Initial(), [Event(0, 1)]))
  {
    var e := Event(0, 1);
    assert [e][..0] == [];
    assert Run(Initial(), [e]) == Step(Run(Initial(), []), e) == Step(Initial(), e);
    ChannelZeroStep(Initial(), e);
  }

  lemma ChannelZeroStep(s: State, e: Event)
    requires s == Initial() && e == Event(0, 1)
    ensures !InSync(Step(s, e))
  {
    ZeroWord(s.tes, 15);
    assert Difference(Step(s, e).values, 15) == 1;
    assert !Follows(Step(s, e), 15);
  }

  class LocalServer {
    var TesBiasValue: seq<int>
    const tba: TesBiasArray

    ghost predicate Valid()
      reads this, tba
    {
      |TesBiasValue| == REGISTERS && tba.Valid()
    }

    ghost function Abstract(): (s: State)
      requires Valid()
      reads this, tba, tba.pData
      ensures WellFormed(s)
    {
      State(TesBiasValue, tba.Window())
    }

    constructor (tba: TesBiasArray)
      requires tba.Valid()
      ensures this.tba == tba && Valid()
      ensures TesBiasValue == Initial().values
    {
      this.tba := tba;
      TesBiasValue := seq(REGISTERS, _ => 0);
    }

    method SendTestBias(channel: nat, value: int) returns (raised: bool)
      requires Valid()
      modifies `TesBiasValue, tba.pData
      ensures Valid()
      ensures Abstract() == Step(old(Abstract()), Event(channel, value))
      ensures raised <==> channel <= REGISTERS && !Accepted(old(Abstract()), Event(channel, value))
    {
      var regIndex := channel - 1;
      raised := false;
      if regIndex < REGISTERS {
        var slot := if regIndex < 0 then regIndex + REGISTERS else regIndex;
        TesBiasValue := TesBiasValue[slot := value];
        assert slot == Slot(channel) && 2 * (slot / 2) + 1 < REGISTERS;
        raised := Forward(slot / 2, regIndex < 0);
      }
    }

    /** Computes the difference of a register pair and hands it to setTesBias; true if that raises. */
    method Forward(i: nat, negativeIndex: bool) returns (raised: bool)
      requires Valid() && i < TES_BIAS_COUNT
      modifies tba.pData
      ensures raised == (negativeIndex || !FitsInt32(Difference(TesBiasValue, i)))
      ensures tba.Window() ==
              if raised then old(tba.Window()) else SetWord(old(tba.Window()), i, Difference(TesBiasValue, i)).value
    {
      var d := TesBiasValue[2 * i + 1] - TesBiasValue[2 * i];
      assert d == Difference(TesBiasValue, i);
      if negativeIndex || !FitsInt32(d) {
        return true;
      }
      var ok := tba.StoreWord(i, d);
      return false;
    }
  }
}
