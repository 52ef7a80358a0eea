/** The screen registry and the bit-banged two-wire protocol: pin set-up,
    single clocked bits, and the 36-bit framing of a 32-bit segment frame.
    Hardware calls become a trace of pin events; a model of the receiving
    module, which samples the data line on each rising clock edge, says what
    such a trace transmits. */
module Wire {

  datatype Option<T> = None | Some(value: T)

  /** One hardware call. `pinMode(pin, OUTPUT)` is `ConfigureOutput(pin)`;
      `digitalWrite(pin, level)` is `DigitalWrite(pin, level)` with `true`
      for HIGH; `delayMicroseconds(us)` is `DelayMicros(us)`. */
  datatype PinEvent =
    | ConfigureOutput(pin: int)
    | DigitalWrite(pin: int, high: bool)
    | DelayMicros(us: nat)

  /** Possible values of `maxNumScreens`. The header that fixes it is not
      part of this model; 63 is the largest value for which `2 * numScreens`
      fits the `char` padding cursors of the marquee. */
  type MaxScreensRange = n: int | 1 <= n <= 63 witness 1

  /** `maxNumScreens`: the capacity of the screen registry. */
  const MaxNumScreens: MaxScreensRange

  /** The registered screens, numbered left to right: slot `k` holds the
      data and clock pins of screen `k`. */
  datatype Registry = Registry(numScreens: int, dataPins: seq<int>, clockPins: seq<int>) {
    predicate Valid() {
      0 <= numScreens <= MaxNumScreens
      && |dataPins| == numScreens
      && |clockPins| == numScreens
    }

    /** Screen `screen` is registered. */
    predicate Has(screen: int) {
      Valid() && 0 <= screen < numScreens
    }

    /** The receiving protocol needs the two wires of a screen to differ. */
    predicate DistinctPins(screen: int)
      requires Has(screen)
    {
      dataPins[screen] != clockPins[screen]
    }

    /** Every event of the run is a delay or drives one of the screen's own
        two pins. */
    predicate OnlyScreen(screen: int, events: seq<PinEvent>)
      requires Has(screen)
    {
      OnlyPins(events, dataPins[screen], clockPins[screen])
    }

    /** The two screens share no pin. */
    predicate Separate(screen: int, other: int)
      requires Has(screen) && Has(other)
    {
      && dataPins[other] != dataPins[screen] && dataPins[other] != clockPins[screen]
      && clockPins[other] != dataPins[screen] && clockPins[other] != clockPins[screen]
    }
  }

  /** Every event of the run is a delay or drives one of the two pins. */
  predicate OnlyPins(events: seq<PinEvent>, dataPin: int, clockPin: int) {
    forall e | e in events :: e.DelayMicros? || e.pin == dataPin || e.pin == clockPin
  }

  /** The constructor: no screens yet. */
  function NewRegistry(): (r: Registry)
    ensures r.Valid() && r.numScreens == 0
  {
    Registry(0, [], [])
  }

  /** `addScreen`: appends a screen and sets both of its pins up as low
      outputs, or does nothing at all when the registry is full. */
  function AddScreen(reg: Registry, dataPin: int, clockPin: int): (r: (Registry, seq<PinEvent>))
    requires reg.Valid()
    ensures r.0.Valid()
    ensures reg.numScreens == MaxNumScreens ==> r.0 == reg && r.1 == []
    ensures reg.numScreens < MaxNumScreens ==>
              && r.0.numScreens == reg.numScreens + 1
              && r.0.dataPins[..reg.numScreens] == reg.dataPins
              && r.0.clockPins[..reg.numScreens] == reg.clockPins
              && r.0.dataPins[reg.numScreens] == dataPin
              && r.0.clockPins[reg.numScreens] == clockPin
    ensures OnlyPins(r.1, dataPin, clockPin)
  {
    if reg.numScreens == MaxNumScreens then (reg, [])
    else
      var n := reg.numScreens;
      (Registry(n + 1, reg.dataPins + [dataPin], reg.clockPins + [clockPin]),
       [ConfigureOutput(dataPin), ConfigureOutput(clockPin),
        DigitalWrite(dataPin, false), DigitalWrite(clockPin, false)])
  }

  /** A sequence of `addScreen` calls, in order. */
  function AddScreens(reg: Registry, calls: seq<(int, int)>): (r: Registry)
    requires reg.Valid()
    ensures r.Valid()
    decreases |calls|
  {
    if |calls| == 0 then reg
    else AddScreens(AddScreen(reg, calls[0].0, calls[0].1).0, calls[1..])
  }

  /** Registry bound: however many screens are added, the registry keeps the
      first ones that fit, in order, and silently drops the rest. */
  lemma {:induction false} AddScreensKeepsPrefix(reg: Registry, calls: seq<(int, int)>)
    requires reg.Valid()
    ensures var r := AddScreens(reg, calls);
            var kept := if reg.numScreens + |calls| <= MaxNumScreens then |calls|
                        else MaxNumScreens - reg.numScreens;
            && r.numScreens == reg.numScreens + kept
            && r.dataPins == reg.dataPins + seq(kept, i requires 0 <= i < kept => calls[i].0)
            && r.clockPins == reg.clockPins + seq(kept, i requires 0 <= i < kept => calls[i].1)
    decreases |calls|
  {
    if |calls| > 0 {
      var next := AddScreen(reg, calls[0].0, calls[0].1).0;
      AddScreensKeepsPrefix(next, calls[1..]);
      if reg.numScreens == MaxNumScreens {
        AddScreensFull(reg, calls);
      }
    }
  }

  /** Once full, the registry ignores every further call. */
  lemma {:induction false} AddScreensFull(reg: Registry, calls: seq<(int, int)>)
    requires reg.Valid() && reg.numScreens == MaxNumScreens
    ensures AddScreens(reg, calls) == reg
    decreases |calls|
  {
    if |calls| > 0 {
      AddScreensFull(reg, calls[1..]);
    }
  }

  /** The levels of the two wires as the receiving module sees them. */
  datatype Line = Line(data: bool, clock: bool)

  /** Both wires low: the state `addScreen` leaves a screen in, and the state
      between two frames. */
  const Idle := Line(false, false)

  /** What the receiver has seen after a run of events: the final wire
      levels and the bits it sampled, in order. */
  datatype Reception = Reception(line: Line, bits: seq<bool>)

  /** The receiving module's reaction to one event: it follows the levels
      of its data and clock pins and samples the data line on every rising
      clock edge. Events on other pins and delays leave it unchanged. */
  function Sample(dataPin: int, clockPin: int, line: Line, e: PinEvent): Reception {
    if e.DigitalWrite? && e.pin == clockPin then
      Reception(Line(line.data, e.high), if e.high && !line.clock then [line.data] else [])
    else if e.DigitalWrite? && e.pin == dataPin then
      Reception(Line(e.high, line.clock), [])
    else
      Reception(line, [])
  }

  /** The receiving module's view of a run of events. */
  function Receive(dataPin: int, clockPin: int, line: Line, events: seq<PinEvent>): Reception
    decreases |events|
  {
    if |events| == 0 then Reception(line, [])
    else
      var first := Sample(dataPin, clockPin, line, events[0]);
      var rest := Receive(dataPin, clockPin, first.line, events[1..]);
      Reception(rest.line, first.bits + rest.bits)
  }

  /** Receiving two runs of events one after the other is receiving their
      concatenation. */
  lemma {:induction false} ReceiveAppend(dataPin: int, clockPin: int, line: Line, a: seq<PinEvent>, b: seq<PinEvent>)
    ensures var first := Receive(dataPin, clockPin, line, a);
            var second := Receive(dataPin, clockPin, first.line, b);
            Receive(dataPin, clockPin, line, a + b) == Reception(second.line, first.bits + second.bits)
    decreases |a|
  {
    if |a| == 0 {
      assert a + b == b;
    } else {
      assert (a + b)[0] == a[0];
      assert (a + b)[1..] == a[1..] + b;
      var step := Sample(dataPin, clockPin, line, a[0]);
      ReceiveAppend(dataPin, clockPin, step.line, a[1..], b);
      var tail := Receive(dataPin, clockPin, step.line, a[1..]);
      var second := Receive(dataPin, clockPin, tail.line, b);
      assert step.bits + (tail.bits + second.bits) == (step.bits + tail.bits) + second.bits;
    }
  }

  /** The four events of one clocked bit, seen by a module whose clock is
      low: it samples the bit and ends with the clock low again. */
  lemma ReceiveClockedBit(dataPin: int, clockPin: int, data: bool, bit: bool)
    requires dataPin != clockPin
    ensures Receive(dataPin, clockPin, Line(data, false),
                    [DigitalWrite(dataPin, bit), DigitalWrite(clockPin, true),
                     DelayMicros(10), DigitalWrite(clockPin, false)])
            == Reception(Line(bit, false), [bit])
  {
    var events := [DigitalWrite(dataPin, bit), DigitalWrite(clockPin, true),
                   DelayMicros(10), DigitalWrite(clockPin, false)];
    assert events[1..][1..][1..][1..] == [];
    assert Receive(dataPin, clockPin, Line(bit, false), events[1..][1..][1..][1..]) == Reception(Line(bit, false), []);
    assert Receive(dataPin, clockPin, Line(bit, true), events[1..][1..][1..]) == Reception(Line(bit, false), []);
    assert Receive(dataPin, clockPin, Line(bit, true), events[1..][1..]) == Reception(Line(bit, false), []);
    assert Receive(dataPin, clockPin, Line(bit, false), events[1..]) == Reception(Line(bit, false), [bit]);
  }

  /** A module none of whose pins a run of events drives sees nothing: its
      wire levels stay as they were and it samples no bit. */
  lemma {:induction false} ReceiveUntouched(dataPin: int, clockPin: int, line: Line, events: seq<PinEvent>)
    requires forall e | e in events :: e.DelayMicros? || (e.pin != dataPin && e.pin != clockPin)
    ensures Receive(dataPin, clockPin, line, events) == Reception(line, [])
    decreases |events|
  {
    if |events| > 0 {
      assert events[0] in events;
      forall e | e in events[1..]
        ensures e.DelayMicros? || (e.pin != dataPin && e.pin != clockPin)
      {
        assert e in events;
      }
      ReceiveUntouched(dataPin, clockPin, line, events[1..]);
    }
  }

  /** What a registered screen's module receives from a run of events. */
  function Received(reg: Registry, screen: int, line: Line, events: seq<PinEvent>): Reception
    requires reg.Has(screen)
  {
    Receive(reg.dataPins[screen], reg.clockPins[screen], line, events)
  }

  /** `addScreen` drives both wires of the new screen low, whatever their
      levels were before: the module starts out idle. */
  lemma AddScreenIdles(reg: Registry, dataPin: int, clockPin: int, line: Line)
    requires reg.Valid() && reg.numScreens < MaxNumScreens
    requires dataPin != clockPin
    ensures var r := AddScreen(reg, dataPin, clockPin);
            r.0.Has(reg.numScreens)
            && Received(r.0, reg.numScreens, line, r.1) == Reception(Idle, [])
  {
    var events := AddScreen(reg, dataPin, clockPin).1;
    assert events[1..][1..][1..][1..] == [];
    assert Receive(dataPin, clockPin, Idle, events[1..][1..][1..][1..]) == Reception(Idle, []);
    assert Receive(dataPin, clockPin, Line(false, line.clock), events[1..][1..][1..]) == Reception(Idle, []);
    assert Receive(dataPin, clockPin, line, events[1..][1..]) == Reception(Idle, []);
    assert Receive(dataPin, clockPin, line, events[1..]) == Reception(Idle, []);
  }

  /** A run that drives only one screen's pins leaves the module of every
      screen wired to other pins as it was. */
  lemma OtherScreensUntouched(reg: Registry, screen: int, other: int, line: Line, events: seq<PinEvent>)
    requires reg.Has(screen) && reg.Has(other) && reg.Separate(screen, other)
    requires reg.OnlyScreen(screen, events)
    ensures Received(reg, other, line, events) == Reception(line, [])
  {
    ReceiveUntouched(reg.dataPins[other], reg.clockPins[other], line, events);
  }

  /** `writeBit`: put the bit on the data pin, then pulse the clock high for
      10 microseconds and bring it low again. It drives only the screen's two
      pins. Whatever the data level was, a module whose clock was low samples
      exactly this bit and is left with the clock low and the data line at
      the bit. */
  function WriteBit(reg: Registry, screen: int, bit: bool): (events: seq<PinEvent>)
    requires reg.Has(screen)
    ensures reg.OnlyScreen(screen, events)
    ensures reg.DistinctPins(screen) ==>
              forall data: bool :: Received(reg, screen, Line(data, false), events) == Reception(Line(bit, false), [bit])
  {
    var dataPin := reg.dataPins[screen];
    var clockPin := reg.clockPins[screen];
    var events := [DigitalWrite(dataPin, bit), DigitalWrite(clockPin, true),
                   DelayMicros(10), DigitalWrite(clockPin, false)];
    assert dataPin != clockPin ==> forall data: bool ::
             Receive(dataPin, clockPin, Line(data, false), events) == Reception(Line(bit, false), [bit]) by {
      if dataPin != clockPin {
        forall data: bool {
          ReceiveClockedBit(dataPin, clockPin, data, bit);
        }
      }
    }
    events
  }

  /** Number of bits in one frame on the wire: the enable bit, a spacer, the
      32 payload bits and two trailing spacers. */
  const WireBits := 36

  /** The lowest bit of a value. */
  function Low(x: bv32): bool {
    x & 1 == 1
  }

  /** A value shifted one place towards its lowest bit. */
  function Half(x: bv32): bv32 {
    x >> 1
  }

  /** A value shifted one place up, with `b` as its new lowest bit. */
  function Push(b: bool, p: bv32): bv32 {
    (if b then 1 else 0) | (p << 1)
  }

  /** Every bit set in `p` is also set in `m`. */
  predicate Within(p: bv32, m: bv32) {
    p & !m == 0
  }

  /** Bit `i` of a 32-bit value, `(x >> i) & 1`, reached by `i` shifts of one
      place each. */
  function Bit(x: bv32, i: nat): bool
    requires i < 32
  {
    if i == 0 then Low(x) else Bit(Half(x), i - 1)
  }

  /** `Bit` is the driver's `(x >> i) & 1`. */
  lemma {:induction false} BitIsShift(x: bv32, i: nat)
    requires i < 32
    ensures Bit(x, i) == ShiftedLow(x, i)
    decreases i
  {
    if i > 0 {
      BitIsShift(Half(x), i - 1);
      ShiftOnce(x, i);
    }
  }

  /** The driver's reading of bit `i`: `(x >> i) & 1`. */
  function ShiftedLow(x: bv32, i: nat): bool
    requires i < 32
  {
    (x >> i) & 1 == 1
  }

  /** One shift followed by `i - 1` more is a shift by `i`. The solver
      settles each fixed shift amount at once, so the amount is split into
      its 31 possible values. */
  lemma ShiftOnce(x: bv32, i: nat)
    requires 1 <= i < 32
    ensures ShiftedLow(Half(x), i - 1) == ShiftedLow(x, i)
  {
    match i
    case 1 | 2 | 3 | 4 | 5 | 6 | 7 | 8 =>
    case 9 | 10 | 11 | 12 | 13 | 14 | 15 | 16 =>
    case 17 | 18 | 19 | 20 | 21 | 22 | 23 | 24 =>
    case 25 | 26 | 27 | 28 | 29 | 30 | 31 =>
  }

  /** The low `n` bits of `x`, least significant first. */
  function LowBits(x: bv32, n: nat): (bits: seq<bool>)
    requires n <= 32
    ensures |bits| == n
  {
    seq(n, i requires 0 <= i < n => Bit(x, i))
  }

  /** The 36 bits that carry `frame`: enable (1), spacer (0), bits 0..31 of
      the frame least significant first, then two spacers (0, 0). The three
      spacers go to conductors the module leaves unconnected. */
  function FramedBits(frame: bv32): (bits: seq<bool>)
    ensures |bits| == WireBits
  {
    [true, false] + LowBits(frame, 32) + [false, false]
  }

  /** All bits below position `n` set. */
  function Ones(n: nat): bv32
    requires n <= 32
  {
    if n == 0 then 0 else Push(true, Ones(n - 1))
  }

  lemma OnesTop()
    ensures Ones(31) == 0x7FFF_FFFF && Ones(32) == 0xFFFF_FFFF
  {
    assert Ones(8) == 0xFF;
    assert Ones(16) == 0xFFFF;
    assert Ones(24) == 0xFF_FFFF;
  }

  /** `Ones` grows with `n`. */
  lemma {:induction false} OnesGrow(k: nat, j: nat)
    requires k <= j <= 32
    ensures Within(Ones(k), Ones(j))
    decreases j
  {
    if k == j {
      WithinSelf(Ones(k));
    } else {
      OnesGrow(k, j - 1);
      OnesStep(j - 1);
      WithinTrans(Ones(k), Ones(j - 1), Ones(j));
    }
  }

  lemma {:induction false} OnesStep(j: nat)
    requires j < 32
    ensures Within(Ones(j), Ones(j + 1))
    decreases j
  {
    if j == 0 {
      WithinZero(Ones(1));
    } else {
      OnesStep(j - 1);
      PushWithin(true, Ones(j - 1), Ones(j));
    }
  }

  lemma WithinSelf(m: bv32)
    ensures Within(m, m)
  {
  }

  lemma WithinZero(m: bv32)
    ensures Within(0, m)
  {
  }

  lemma WithinTrans(p: bv32, m: bv32, t: bv32)
    requires Within(p, m) && Within(m, t)
    ensures Within(p, t)
  {
  }

  lemma PushWithin(b: bool, p: bv32, m: bv32)
    requires Within(p, m)
    ensures Within(Push(b, p), Push(true, m))
  {
  }

  lemma PushThenSplit(b: bool, p: bv32)
    requires Within(p, 0x7FFF_FFFF)
    ensures Low(Push(b, p)) == b && Half(Push(b, p)) == p
  {
  }

  lemma MaskStep(x: bv32, m: bv32)
    ensures Push(Low(x), Half(x) & m) == x & Push(true, m)
  {
  }

  /** Packs up to 32 bits, least significant first, into a value. */
  function Pack(s: seq<bool>): bv32
    requires |s| <= 32
    decreases |s|
  {
    if |s| == 0 then 0 else Push(s[0], Pack(s[1..]))
  }

  /** Packing `n` bits never sets a bit at position `n` or above. */
  lemma {:induction false} PackFits(s: seq<bool>)
    requires |s| <= 32
    ensures Within(Pack(s), Ones(|s|))
    decreases |s|
  {
    if |s| == 0 {
      WithinZero(0);
    } else {
      PackFits(s[1..]);
      PushWithin(s[0], Pack(s[1..]), Ones(|s| - 1));
    }
  }

  /** Packing keeps every bit in its place. */
  lemma {:induction false} PackBits(s: seq<bool>)
    requires |s| <= 32
    ensures LowBits(Pack(s), |s|) == s
    decreases |s|
  {
    if |s| > 0 {
      var rest := s[1..];
      PackBits(rest);
      PackFits(rest);
      OnesGrow(|rest|, 31);
      OnesTop();
      WithinTrans(Pack(rest), Ones(|rest|), Ones(31));
      PushThenSplit(s[0], Pack(rest));
      forall i | 0 <= i < |s|
        ensures Bit(Pack(s), i) == s[i]
      {
        if i > 0 {
          assert Bit(Pack(s), i) == Bit(Pack(rest), i - 1);
          assert LowBits(Pack(rest), |rest|)[i - 1] == rest[i - 1];
        }
      }
    }
  }

  /** Packing the low `n` bits of a value gives the value with every higher
      bit cleared. */
  lemma {:induction false} PackLowBits(x: bv32, n: nat)
    requires n <= 32
    ensures Pack(LowBits(x, n)) == x & Ones(n)
    decreases n
  {
    if n == 0 {
      assert x & 0 == 0;
    } else {
      var s := LowBits(x, n);
      assert s[1..] == LowBits(Half(x), n - 1);
      PackLowBits(Half(x), n - 1);
      MaskStep(x, Ones(n - 1));
    }
  }

  /** The receiving side of the framing: the 32-bit frame carried by 36 bits
      on the wire, or `None` when the enable bit or a spacer is wrong. */
  function Payload(bits: seq<bool>): Option<bv32> {
    if |bits| == WireBits && bits[0] && !bits[1] && !bits[34] && !bits[35]
    then Some(Pack(bits[2..34]))
    else None
  }

  /** Framing round trip: the payload positions of a framed value decode back
      to that value. */
  lemma PayloadOfFramed(frame: bv32)
    ensures Payload(FramedBits(frame)) == Some(frame)
  {
    var bits := FramedBits(frame);
    assert bits[2..34] == LowBits(frame, 32);
    PackLowBits(frame, 32);
    OnesTop();
  }

  /** And conversely: a well-framed bit string is exactly the framing of the
      value it carries. */
  lemma FramedOfPayload(bits: seq<bool>)
    requires Payload(bits).Some?
    ensures bits == FramedBits(Payload(bits).value)
  {
    var s := bits[2..34];
    PackBits(s);
    assert bits == [true, false] + s + [false, false];
  }

  /** `writeMask`: 36 clocked bits per frame, on the screen's two pins
      only. Starting with the clock low, whatever the data level, the module
      samples exactly the framed bits of `frame`, and the line is idle again
      afterwards, ready for the next frame. Modules on other pins see
      nothing. */
  method WriteMask(reg: Registry, screen: int, frame: bv32) returns (events: seq<PinEvent>)
    requires reg.Has(screen)
    ensures |events| == 4 * WireBits
    ensures reg.OnlyScreen(screen, events)
    ensures reg.DistinctPins(screen) ==> forall data: bool ::
              Received(reg, screen, Line(data, false), events) == Reception(Idle, FramedBits(frame))
    ensures forall other: int, line: Line | reg.Has(other) && reg.Separate(screen, other) ::
              Received(reg, other, line, events) == Reception(line, [])
  {
    var distinct := reg.DistinctPins(screen);
    // the enable bit and the first unconnected pin
    events := [];
    if distinct {
      ReceiveBit(reg, screen, Idle, events, true);
    }
    events := events + WriteBit(reg, screen, true);
    if distinct {
      ReceiveBit(reg, screen, Idle, events, false);
    }
    events := events + WriteBit(reg, screen, false);
    // the bitmask, least significant bit first
    for i := 0 to 32
      invariant |events| == 4 * (i + 2)
      invariant reg.OnlyScreen(screen, events)
      invariant events[0] == DigitalWrite(reg.dataPins[screen], true)
      invariant distinct ==>
                  && Received(reg, screen, Idle, events).line.clock == false
                  && Received(reg, screen, Idle, events).bits == [true, false] + LowBits(frame, i)
    {
      var bit := (frame >> i) & 1 == 1;
      BitIsShift(frame, i);
      if distinct {
        ReceiveBit(reg, screen, Idle, events, bit);
        assert LowBits(frame, i + 1) == LowBits(frame, i) + [bit];
      }
      events := events + WriteBit(reg, screen, bit);
    }
    // the two remaining unconnected pins
    if distinct {
      ReceiveBit(reg, screen, Idle, events, false);
    }
    events := events + WriteBit(reg, screen, false);
    if distinct {
      ReceiveBit(reg, screen, Idle, events, false);
    }
    events := events + WriteBit(reg, screen, false);
    if distinct {
      forall data: bool
        ensures Received(reg, screen, Line(data, false), events) == Reception(Idle, FramedBits(frame))
      {
        DataLevelOverwritten(reg, screen, data, events);
      }
    }
    forall other: int, line: Line | reg.Has(other) && reg.Separate(screen, other) {
      OtherScreensUntouched(reg, screen, other, line, events);
    }
  }

  /** A run that starts by driving the data pin makes the earlier data level
      irrelevant. */
  lemma DataLevelOverwritten(reg: Registry, screen: int, data: bool, events: seq<PinEvent>)
    requires reg.Has(screen) && reg.DistinctPins(screen)
    requires |events| > 0 && events[0].DigitalWrite? && events[0].pin == reg.dataPins[screen]
    ensures Received(reg, screen, Line(data, false), events) == Received(reg, screen, Idle, events)
  {
  }

  /** One more `writeBit` after a run that left the clock low adds exactly
      its bit to what the module has sampled. */
  lemma ReceiveBit(reg: Registry, screen: int, start: Line, events: seq<PinEvent>, bit: bool)
    requires reg.Has(screen) && reg.DistinctPins(screen)
    requires Received(reg, screen, start, events).line.clock == false
    ensures Received(reg, screen, start, events + WriteBit(reg, screen, bit))
            == Reception(Line(bit, false), Received(reg, screen, start, events).bits + [bit])
  {
    var first := Received(reg, screen, start, events);
    ReceiveAppend(reg.dataPins[screen], reg.clockPins[screen], start, events, WriteBit(reg, screen, bit));
    assert first.line == Line(first.line.data, false);
  }
}
