/**
 * The bit-level bus framer as the sequence of GPIO calls it makes.
 *
 * The driver never writes a level on the data or clock line while talking to
 * the chip: it only switches a pin's direction. An OUTPUT pin is driven low and
 * an INPUT pin is released and pulled high by the external resistor, so a
 * released data line carries a 1. Every direction change is followed by one
 * delay. The functions below give the exact call sequence of `start`, `stop`,
 * `writeByte` and `setSegments`; the lemmas state its shape and that the bytes
 * can be read back from it.
 */
module Bus {
  import opened JavaBytes

  datatype Mode = Input | Output
  datatype Level = Low | High

  /** One call into the GPIO library, or one `delay()`. */
  datatype Event =
    | PinMode(pin: int, mode: Mode)
    | DigitalWrite(pin: int, level: Level)
    | Delay

  /** The data-command byte `0x40`: write data, automatic address increment. */
  const Comm1: int8 := ToByte(0x40)
  /** The address command `0xC0`: write from digit address 0. */
  const Comm2: int8 := ToByte(0xC0)
  /** The display-control command `0x80`; the brightness is added to it. */
  const Comm3: int8 := ToByte(0x80)

  /** The three command bytes on the wire: 0x40, 0xC0 and 0x80. */
  lemma CommandBytes()
    ensures Unsigned(Comm1) == 0x40 && Unsigned(Comm2) == 0xC0 && Unsigned(Comm3) == 0x80
  {
    assert Comm2 as int == -64;
    assert Comm3 as int == -128;
  }

  /** One direction change and the delay after it. */
  function Step(pin: int, mode: Mode): seq<Event>
  {
    [PinMode(pin, mode), Delay]
  }

  /** `start()`: pull the data line low. */
  function StartEvents(dio: int): (t: seq<Event>)
    ensures |t| == 2
  {
    Step(dio, Output)
  }

  /** `stop()`: data low, release the clock, then release the data line. */
  function StopEvents(clk: int, dio: int): (t: seq<Event>)
    ensures |t| == 6
  {
    Step(dio, Output) + Step(clk, Input) + Step(dio, Input)
  }

  /** The data-line direction that puts `bit` on the bus: released (INPUT) for 1, driven low (OUTPUT) for 0. */
  function DataMode(bit: int): Mode
  {
    if bit == 1 then Input else Output
  }

  /** One iteration of the loop in `writeByte` on the current value `v`: clock low, data by `v & 1`, clock released. */
  function BitCycle(clk: int, dio: int, v: int): seq<Event>
  {
    Step(clk, Output) + Step(dio, DataMode(v % 2)) + Step(clk, Input)
  }

  /** The number of bits `writeByte` shifts out. */
  const ByteWidth: nat := 8

  /** Eight bits hold the values 0..255. */
  lemma ByteWidthRange()
    ensures Pow2(ByteWidth) == 256
  {
  }

  /** `n` iterations of the loop, starting from `v` and shifting it right once per iteration. */
  function BitCycles(clk: int, dio: int, v: int, n: nat): (t: seq<Event>)
    ensures |t| == 6 * n
    decreases n
  {
    if n == 0 then [] else BitCycle(clk, dio, v) + BitCycles(clk, dio, v / 2, n - 1)
  }

  /** The first iteration of the loop, then the remaining ones on the halved value. */
  lemma BitCyclesUnfold(clk: int, dio: int, v: int, n: nat)
    requires n > 0
    ensures BitCycles(clk, dio, v, n) == BitCycle(clk, dio, v) + BitCycles(clk, dio, v / 2, n - 1)
  {
  }

  /** The acknowledgement cycle: three clock changes; the data line is not read. */
  function AckEvents(clk: int): seq<Event>
  {
    Step(clk, Output) + Step(clk, Input) + Step(clk, Output)
  }

  /** `writeByte(b)`. */
  function ByteEvents(clk: int, dio: int, b: int8): (t: seq<Event>)
    ensures |t| == 54
  {
    BitCycles(clk, dio, b as int, ByteWidth) + AckEvents(clk)
  }

  /** `writeByte` applied to each byte of `bs` in order. */
  function BytesEvents(clk: int, dio: int, bs: seq<int8>): (t: seq<Event>)
    ensures |t| == 54 * |bs|
  {
    if bs == [] then [] else ByteEvents(clk, dio, bs[0]) + BytesEvents(clk, dio, bs[1..])
  }

  /** One framed transfer: start, the bytes, stop. */
  function FrameEvents(clk: int, dio: int, bs: seq<int8>): (t: seq<Event>)
    ensures |t| == 8 + 54 * |bs|
  {
    StartEvents(dio) + BytesEvents(clk, dio, bs) + StopEvents(clk, dio)
  }

  /** `(byte) (I2C_COMM3 + brightness)`: the display-control byte; its low nibble is the brightness. */
  function ControlByte(brightness: int8): (c: int8)
    ensures 0 <= brightness <= 15 ==> Unsigned(c) == 0x80 + brightness as int && Unsigned(c) % 16 == brightness as int
  {
    ToByte(Comm3 as int + brightness as int)
  }

  /** `setSegments(segments)`: the three frames of one display update, sent one after the other. */
  function SegmentsEvents(clk: int, dio: int, segments: seq<int8>, brightness: int8): (t: seq<Event>)
    ensures |t| == 3 * 8 + 54 * (|segments| + 3)
  {
    var frames := [[Comm1], [Comm2] + segments, [ControlByte(brightness)]];
    assert frames[1..][1..][1..] == [];
    assert |FramesEvents(clk, dio, frames[1..][1..])| == 8 + 54;
    assert |FramesEvents(clk, dio, frames[1..])| == 2 * 8 + 54 * (|segments| + 2);
    FramesEvents(clk, dio, frames)
  }

  /** Each frame of `frames` in turn. */
  function FramesEvents(clk: int, dio: int, frames: seq<seq<int8>>): seq<Event>
  {
    if frames == [] then [] else FrameEvents(clk, dio, frames[0]) + FramesEvents(clk, dio, frames[1..])
  }

  /** The pin changes the driver makes once the GPIO library is initialised: both pins released, both output latches low. */
  function InitEvents(clk: int, dio: int): (t: seq<Event>)
    ensures |t| == 4 && Delay !in t
  {
    [PinMode(clk, Input), PinMode(dio, Input), DigitalWrite(clk, Low), DigitalWrite(dio, Low)]
  }

  // ---------------------------------------------------------------------------
  // Reading the trace

  /** Every pin change is followed by exactly one delay, and every delay follows a pin change. */
  predicate Paced(t: seq<Event>)
    decreases |t|
  {
    t == [] || (|t| >= 2 && t[0].PinMode? && t[1] == Delay && Paced(t[2..]))
  }

  /** The number of direction changes in `t`. */
  function PinChanges(t: seq<Event>): nat
    decreases |t|
  {
    if t == [] then 0 else (if t[0].PinMode? then 1 else 0) + PinChanges(t[1..])
  }

  /** Whether the event leaves the pin released, i.e. puts a 1 on the line. */
  predicate Releases(e: Event)
  {
    e.PinMode? && e.mode == Input
  }

  /**
   * The value a receiver reads from `n` bit cycles: the data-line change of
   * cycle `i` (event `6 * i + 2`) carries bit `i`, least significant first.
   */
  function DecodeBits(t: seq<Event>, n: nat): (v: int)
    requires |t| >= 6 * n
    ensures 0 <= v < Pow2(n)
    decreases n
  {
    if n == 0 then 0 else (if Releases(t[2]) then 1 else 0) + 2 * DecodeBits(t[6..], n - 1)
  }

  /** The byte carried by the first `writeByte` in `t`. */
  function DecodeByte(t: seq<Event>): (v: int)
    requires |t| >= 54
    ensures 0 <= v < 256
  {
    ByteWidthRange();
    DecodeBits(t, ByteWidth)
  }

  /** The bytes carried by `n` consecutive `writeByte`s at the head of `t`. */
  function DecodeBytes(t: seq<Event>, n: nat): (vs: seq<int>)
    requires |t| >= 54 * n
    ensures |vs| == n
    decreases n
  {
    if n == 0 then [] else [DecodeByte(t)] + DecodeBytes(t[54..], n - 1)
  }

  /** The bytes carried by a frame: the whole byte transfers between the start and stop events. */
  function DecodeFrame(t: seq<Event>): seq<int>
    requires |t| >= 8
  {
    DecodeBytes(t[2..|t| - 6], (|t| - 8) / 54)
  }

  /** The unsigned readings of the bytes of `bs`. */
  function Unsigneds(bs: seq<int8>): seq<int>
  {
    seq(|bs|, i requires 0 <= i < |bs| => Unsigned(bs[i]))
  }

  // ---------------------------------------------------------------------------
  // Shape of the trace

  /** Concatenation is associative. */
  lemma AppendAssoc(a: seq<Event>, b: seq<Event>, c: seq<Event>)
    ensures (a + b) + c == a + (b + c)
  {
  }

  /** Appending four pieces one after the other appends their concatenation. */
  lemma Append4(t: seq<Event>, a: seq<Event>, b: seq<Event>, c: seq<Event>, d: seq<Event>)
    ensures (((t + a) + b) + c) + d == t + (a + (b + c) + d)
  {
  }

  /** A frame whose first byte is `c`: start, `writeByte(c)`, the other bytes, stop. */
  lemma FrameParts(clk: int, dio: int, c: int8, bs: seq<int8>)
    ensures FrameEvents(clk, dio, [c] + bs) == StartEvents(dio) + (ByteEvents(clk, dio, c) + BytesEvents(clk, dio, bs)) + StopEvents(clk, dio)
  {
    assert ([c] + bs)[1..] == bs;
  }

  /** The trace after start, `writeByte(c)`, the bytes of `bs` one by one and stop holds one frame. */
  lemma FrameSent(t0: seq<Event>, clk: int, dio: int, c: int8, bs: seq<int8>, t: seq<Event>)
    requires t == (((t0 + StartEvents(dio)) + ByteEvents(clk, dio, c)) + BytesEvents(clk, dio, bs[..|bs|])) + StopEvents(clk, dio)
    ensures t == t0 + FrameEvents(clk, dio, [c] + bs)
  {
    assert bs[..|bs|] == bs;
    FrameParts(clk, dio, c, bs);
    Append4(t0, StartEvents(dio), ByteEvents(clk, dio, c), BytesEvents(clk, dio, bs), StopEvents(clk, dio));
  }

  /** A frame holding a single byte. */
  lemma FrameOne(clk: int, dio: int, c: int8)
    ensures FrameEvents(clk, dio, [c]) == StartEvents(dio) + ByteEvents(clk, dio, c) + StopEvents(clk, dio)
  {
    FrameParts(clk, dio, c, []);
    assert [c] + [] == [c];
  }

  /** A display update is the concatenation of its three frames. */
  lemma SegmentsParts(clk: int, dio: int, segments: seq<int8>, brightness: int8)
    ensures SegmentsEvents(clk, dio, segments, brightness)
            == FrameEvents(clk, dio, [Comm1]) + FrameEvents(clk, dio, [Comm2] + segments) + FrameEvents(clk, dio, [ControlByte(brightness)])
  {
    var frames := [[Comm1], [Comm2] + segments, [ControlByte(brightness)]];
    var f1, f2, f3 := FrameEvents(clk, dio, frames[0]), FrameEvents(clk, dio, frames[1]), FrameEvents(clk, dio, frames[2]);
    assert frames[1..][1..][1..] == [];
    assert FramesEvents(clk, dio, frames[1..][1..]) == f3 + [];
    assert FramesEvents(clk, dio, frames[1..]) == f2 + (f3 + []);
    assert FramesEvents(clk, dio, frames) == f1 + (f2 + (f3 + []));
    assert f3 + [] == f3;
    AppendAssoc(f1, f2, f3);
  }

  /** The middle piece of a concatenation can be cut out again by its position. */
  lemma MiddleSlice(a: seq<Event>, b: seq<Event>, c: seq<Event>)
    ensures (a + b + c)[|a|..|a| + |b|] == b
  {
  }

  /** Appending three pieces one after the other appends their concatenation. */
  lemma Append3(t: seq<Event>, a: seq<Event>, b: seq<Event>, c: seq<Event>)
    ensures ((t + a) + b) + c == t + (a + b + c)
  {
  }

  /** Two paced traces one after the other are paced. */
  lemma {:induction false} PacedAppend(a: seq<Event>, b: seq<Event>)
    requires Paced(a) && Paced(b)
    ensures Paced(a + b)
    decreases |a|
  {
    if a == [] {
      assert a + b == b;
    } else {
      assert (a + b)[2..] == a[2..] + b;
      PacedAppend(a[2..], b);
    }
  }

  /** Pin changes add up over a concatenation. */
  lemma {:induction false} PinChangesAppend(a: seq<Event>, b: seq<Event>)
    ensures PinChanges(a + b) == PinChanges(a) + PinChanges(b)
    decreases |a|
  {
    if a == [] {
      assert a + b == b;
    } else {
      assert (a + b)[1..] == a[1..] + b;
      PinChangesAppend(a[1..], b);
    }
  }

  /** Appending a paced sequence adds its pin changes. */
  lemma PacedJoin(a: seq<Event>, b: seq<Event>)
    requires Paced(a) && Paced(b)
    ensures Paced(a + b) && PinChanges(a + b) == PinChanges(a) + PinChanges(b)
  {
    PacedAppend(a, b);
    PinChangesAppend(a, b);
  }

  /** One direction change and its delay. */
  lemma StepShape(pin: int, mode: Mode)
    ensures Paced(Step(pin, mode)) && PinChanges(Step(pin, mode)) == 1
  {
    assert Step(pin, mode)[2..] == [];
    assert Step(pin, mode)[1..] == [Delay];
    assert [Delay][1..] == [];
  }

  /** `start` is one paced pin change, `stop` three. */
  lemma StartStopShape(clk: int, dio: int)
    ensures Paced(StartEvents(dio)) && PinChanges(StartEvents(dio)) == 1
    ensures Paced(StopEvents(clk, dio)) && PinChanges(StopEvents(clk, dio)) == 3
  {
    StepShape(dio, Output);
    StepShape(clk, Input);
    StepShape(dio, Input);
    PacedJoin(Step(dio, Output), Step(clk, Input));
    PacedJoin(Step(dio, Output) + Step(clk, Input), Step(dio, Input));
  }

  /** One iteration of the bit loop: three paced pin changes. */
  lemma BitCycleShape(clk: int, dio: int, v: int)
    ensures |BitCycle(clk, dio, v)| == 6
    ensures Paced(BitCycle(clk, dio, v)) && PinChanges(BitCycle(clk, dio, v)) == 3
  {
    StepShape(clk, Output);
    StepShape(dio, DataMode(v % 2));
    StepShape(clk, Input);
    PacedJoin(Step(clk, Output), Step(dio, DataMode(v % 2)));
    PacedJoin(Step(clk, Output) + Step(dio, DataMode(v % 2)), Step(clk, Input));
  }

  /** `n` iterations of the bit loop: `3 * n` paced pin changes. */
  lemma {:induction false} BitCyclesShape(clk: int, dio: int, v: int, n: nat)
    ensures |BitCycles(clk, dio, v, n)| == 6 * n
    ensures Paced(BitCycles(clk, dio, v, n)) && PinChanges(BitCycles(clk, dio, v, n)) == 3 * n
    decreases n
  {
    if n > 0 {
      BitCycleShape(clk, dio, v);
      BitCyclesShape(clk, dio, v / 2, n - 1);
      PacedJoin(BitCycle(clk, dio, v), BitCycles(clk, dio, v / 2, n - 1));
    }
  }

  /** The acknowledgement cycle: three paced pin changes. */
  lemma AckShape(clk: int)
    ensures Paced(AckEvents(clk)) && PinChanges(AckEvents(clk)) == 3
  {
    StepShape(clk, Output);
    StepShape(clk, Input);
    PacedJoin(Step(clk, Output), Step(clk, Input));
    PacedJoin(Step(clk, Output) + Step(clk, Input), Step(clk, Output));
  }

  /**
   * `writeByte` makes 27 pin changes, each followed by one delay; its last
   * three changes are clock low, clock released, clock low, and the
   * acknowledgement cycle touches neither the data pin nor reads anything.
   */
  lemma ByteEventsShape(clk: int, dio: int, b: int8)
    ensures |ByteEvents(clk, dio, b)| == 54
    ensures Paced(ByteEvents(clk, dio, b)) && PinChanges(ByteEvents(clk, dio, b)) == 27
    ensures ByteEvents(clk, dio, b)[48..] == [PinMode(clk, Output), Delay, PinMode(clk, Input), Delay, PinMode(clk, Output), Delay]
  {
    BitCyclesShape(clk, dio, b as int, ByteWidth);
    AckShape(clk);
    PacedJoin(BitCycles(clk, dio, b as int, ByteWidth), AckEvents(clk));
  }

  /** Iteration `i` of the loop works on the value shifted right `i` times. */
  lemma {:induction false} BitCyclesAt(clk: int, dio: int, v: int, n: nat, i: nat)
    requires i < n
    ensures |BitCycles(clk, dio, v, n)| == 6 * n
    ensures BitCycles(clk, dio, v, n)[6 * i .. 6 * i + 6] == BitCycle(clk, dio, Shr(v, i))
    decreases n
  {
    BitCyclesShape(clk, dio, v, n);
    BitCycleShape(clk, dio, v);
    if i > 0 {
      BitCyclesAt(clk, dio, v / 2, n - 1, i - 1);
      var rest := BitCycles(clk, dio, v / 2, n - 1);
      assert BitCycles(clk, dio, v, n)[6 * i .. 6 * i + 6] == rest[6 * (i - 1) .. 6 * (i - 1) + 6];
    }
  }

  /**
   * Bits go out least significant first: in iteration `i` the clock is pulled
   * low, then the data line is released exactly when bit `i` of `b` is 1 and
   * driven low when it is 0, then the clock is released.
   */
  lemma ByteBitOrder(clk: int, dio: int, b: int8, i: nat)
    requires i < 8
    ensures |ByteEvents(clk, dio, b)| == 54
    ensures ByteEvents(clk, dio, b)[6 * i] == PinMode(clk, Output)
    ensures ByteEvents(clk, dio, b)[6 * i + 2] == PinMode(dio, DataMode(Bit(Unsigned(b), i)))
    ensures ByteEvents(clk, dio, b)[6 * i + 4] == PinMode(clk, Input)
  {
    var bits := BitCycles(clk, dio, b as int, ByteWidth);
    ByteEventsShape(clk, dio, b);
    BitCyclesAt(clk, dio, b as int, ByteWidth, i);
    ByteBit(b, i);
    var cycle := bits[6 * i .. 6 * i + 6];
    assert cycle == BitCycle(clk, dio, Shr(b as int, i));
    assert cycle[2] == PinMode(dio, DataMode(Bit(Unsigned(b), i)));
    assert ByteEvents(clk, dio, b) == bits + AckEvents(clk);
    assert ByteEvents(clk, dio, b)[6 * i] == cycle[0];
    assert ByteEvents(clk, dio, b)[6 * i + 2] == cycle[2];
    assert ByteEvents(clk, dio, b)[6 * i + 4] == cycle[4];
  }

  /** Reading bit cycles only looks at the cycles themselves, not at what follows them. */
  lemma {:induction false} DecodeBitsPrefix(t: seq<Event>, u: seq<Event>, n: nat)
    requires |t| >= 6 * n
    ensures DecodeBits(t + u, n) == DecodeBits(t, n)
    decreases n
  {
    if n > 0 {
      assert (t + u)[6..] == t[6..] + u;
      DecodeBitsPrefix(t[6..], u, n - 1);
    }
  }

  /** Reading `n` bit cycles back gives the low `n` bits of the value they were made from. */
  lemma {:induction false} BitCyclesDecode(clk: int, dio: int, v: int, n: nat)
    ensures |BitCycles(clk, dio, v, n)| == 6 * n
    ensures DecodeBits(BitCycles(clk, dio, v, n), n) == v % Pow2(n)
    decreases n
  {
    BitCyclesShape(clk, dio, v, n);
    if n > 0 {
      var t := BitCycles(clk, dio, v, n);
      BitCycleShape(clk, dio, v);
      assert t[6..] == BitCycles(clk, dio, v / 2, n - 1);
      assert t[2] == PinMode(dio, DataMode(v % 2));
      BitCyclesDecode(clk, dio, v / 2, n - 1);
      DivModStep(v, Pow2(n - 1));
    }
  }

  /** Round trip: the byte a receiver reads from `writeByte(b)` (and whatever follows it) is `b`. */
  lemma ByteRoundTrip(clk: int, dio: int, b: int8, rest: seq<Event>)
    ensures |ByteEvents(clk, dio, b) + rest| >= 54
    ensures DecodeByte(ByteEvents(clk, dio, b) + rest) == Unsigned(b)
  {
    var bits := BitCycles(clk, dio, b as int, ByteWidth);
    BitCyclesDecode(clk, dio, b as int, ByteWidth);
    AppendAssoc(bits, AckEvents(clk), rest);
    DecodeBitsPrefix(bits, AckEvents(clk) + rest, ByteWidth);
    ByteWidthRange();
  }

  /** The loop of `setSegments` after writing byte `i` of `bs`. */
  lemma BytesEventsTake(clk: int, dio: int, bs: seq<int8>, i: nat)
    requires i < |bs|
    ensures BytesEvents(clk, dio, bs[..i + 1]) == BytesEvents(clk, dio, bs[..i]) + ByteEvents(clk, dio, bs[i])
  {
    assert bs[..i + 1] == bs[..i] + [bs[i]];
    BytesEventsSnoc(clk, dio, bs[..i], bs[i]);
  }

  /** The loop of `setSegments` writes one more byte at the end. */
  lemma {:induction false} BytesEventsSnoc(clk: int, dio: int, bs: seq<int8>, x: int8)
    ensures BytesEvents(clk, dio, bs + [x]) == BytesEvents(clk, dio, bs) + ByteEvents(clk, dio, x)
    decreases |bs|
  {
    if bs == [] {
      assert [x][1..] == [];
    } else {
      assert (bs + [x])[1..] == bs[1..] + [x];
      BytesEventsSnoc(clk, dio, bs[1..], x);
    }
  }

  /** Consecutive `writeByte`s: 27 paced pin changes per byte. */
  lemma {:induction false} BytesShape(clk: int, dio: int, bs: seq<int8>)
    ensures |BytesEvents(clk, dio, bs)| == 54 * |bs|
    ensures Paced(BytesEvents(clk, dio, bs)) && PinChanges(BytesEvents(clk, dio, bs)) == 27 * |bs|
    decreases |bs|
  {
    if bs != [] {
      ByteEventsShape(clk, dio, bs[0]);
      BytesShape(clk, dio, bs[1..]);
      PacedJoin(ByteEvents(clk, dio, bs[0]), BytesEvents(clk, dio, bs[1..]));
    }
  }

  /** Round trip over consecutive `writeByte`s. */
  lemma {:induction false} BytesRoundTrip(clk: int, dio: int, bs: seq<int8>, rest: seq<Event>)
    ensures |BytesEvents(clk, dio, bs) + rest| >= 54 * |bs|
    ensures DecodeBytes(BytesEvents(clk, dio, bs) + rest, |bs|) == Unsigneds(bs)
    decreases |bs|
  {
    if bs != [] {
      BytesRoundTrip(clk, dio, bs[1..], rest);
      BytesRoundTripCons(clk, dio, bs[0], bs[1..], rest);
      assert [bs[0]] + bs[1..] == bs;
    }
  }

  /** One step of `BytesRoundTrip`: a byte put in front of bytes that read back correctly. */
  lemma BytesRoundTripCons(clk: int, dio: int, x: int8, xs: seq<int8>, rest: seq<Event>)
    requires DecodeBytes(BytesEvents(clk, dio, xs) + rest, |xs|) == Unsigneds(xs)
    ensures DecodeBytes(BytesEvents(clk, dio, [x] + xs) + rest, |xs| + 1) == Unsigneds([x] + xs)
  {
    var tail := BytesEvents(clk, dio, xs);
    calc {
      DecodeBytes(BytesEvents(clk, dio, [x] + xs) + rest, |xs| + 1);
      { assert ([x] + xs)[1..] == xs;
        assert BytesEvents(clk, dio, [x] + xs) == ByteEvents(clk, dio, x) + tail;
        AppendAssoc(ByteEvents(clk, dio, x), tail, rest); }
      DecodeBytes(ByteEvents(clk, dio, x) + (tail + rest), |xs| + 1);
      { DecodeBytesCons(clk, dio, x, tail + rest, |xs|); }
      [Unsigned(x)] + DecodeBytes(tail + rest, |xs|);
      [Unsigned(x)] + Unsigneds(xs);
      { UnsignedsCons(x, xs); }
      Unsigneds([x] + xs);
    }
  }

  /** Reading `n + 1` bytes from `writeByte(x)` followed by `u` reads `x`, then `n` bytes from `u`. */
  lemma DecodeBytesCons(clk: int, dio: int, x: int8, u: seq<Event>, n: nat)
    requires |u| >= 54 * n
    ensures |ByteEvents(clk, dio, x) + u| >= 54 * (n + 1)
    ensures DecodeBytes(ByteEvents(clk, dio, x) + u, n + 1) == [Unsigned(x)] + DecodeBytes(u, n)
  {
    var head := ByteEvents(clk, dio, x);
    var t := head + u;
    assert t[54..] == u;
    assert DecodeByte(t) == Unsigned(x) by {
      ByteRoundTrip(clk, dio, x, u);
    }
  }

  /** Unsigned readings of a byte put in front. */
  lemma UnsignedsCons(x: int8, bs: seq<int8>)
    ensures Unsigneds([x] + bs) == [Unsigned(x)] + Unsigneds(bs)
  {
  }

  /** A frame is a start, the bytes and a stop: `4 + 27 * |bs|` pin changes, each followed by one delay. */
  lemma FrameShape(clk: int, dio: int, bs: seq<int8>)
    ensures Paced(FrameEvents(clk, dio, bs)) && PinChanges(FrameEvents(clk, dio, bs)) == 4 + 27 * |bs|
  {
    var body := BytesEvents(clk, dio, bs);
    StartStopShape(clk, dio);
    BytesShape(clk, dio, bs);
    PacedJoin(StartEvents(dio), body);
    PacedJoin(StartEvents(dio) + body, StopEvents(clk, dio));
  }

  /** Reading a frame back gives the bytes it was made from. */
  lemma FrameDecodes(clk: int, dio: int, bs: seq<int8>)
    ensures DecodeFrame(FrameEvents(clk, dio, bs)) == Unsigneds(bs)
  {
    var t, bytes := FrameEvents(clk, dio, bs), BytesEvents(clk, dio, bs);
    MiddleSlice(StartEvents(dio), bytes, StopEvents(clk, dio));
    assert (|t| - 8) / 54 == |bs|;
    assert bytes + [] == bytes;
    BytesRoundTrip(clk, dio, bs, []);
  }

  /** A display update makes 31 + 139 + 31 = 201 pin changes, each followed by one delay. */
  lemma SegmentsPaced(clk: int, dio: int, segments: seq<int8>, brightness: int8)
    requires |segments| == 4
    ensures |SegmentsEvents(clk, dio, segments, brightness)| == 402
    ensures Paced(SegmentsEvents(clk, dio, segments, brightness))
    ensures PinChanges(SegmentsEvents(clk, dio, segments, brightness)) == 201
  {
    var f1 := FrameEvents(clk, dio, [Comm1]);
    var f2 := FrameEvents(clk, dio, [Comm2] + segments);
    var f3 := FrameEvents(clk, dio, [ControlByte(brightness)]);
    SegmentsParts(clk, dio, segments, brightness);
    FrameShape(clk, dio, [Comm1]);
    FrameShape(clk, dio, [Comm2] + segments);
    FrameShape(clk, dio, [ControlByte(brightness)]);
    PacedJoin(f1, f2);
    PacedJoin(f1 + f2, f3);
  }

  /**
   * A display update is three frames in this order: `[0x40]`, then `0xC0`
   * and the four segment bytes, then `0x80 + brightness`, whose low nibble
   * is the brightness.
   */
  lemma SegmentsDecode(clk: int, dio: int, segments: seq<int8>, brightness: int8)
    requires |segments| == 4 && 0 <= brightness <= 15
    ensures |SegmentsEvents(clk, dio, segments, brightness)| == 402
    ensures DecodeFrame(SegmentsEvents(clk, dio, segments, brightness)[..62]) == [0x40]
    ensures DecodeFrame(SegmentsEvents(clk, dio, segments, brightness)[62..340]) == [0xC0] + Unsigneds(segments)
    ensures DecodeFrame(SegmentsEvents(clk, dio, segments, brightness)[340..]) == [0x80 + brightness as int]
  {
    var f1 := FrameEvents(clk, dio, [Comm1]);
    var f2 := FrameEvents(clk, dio, [Comm2] + segments);
    var f3 := FrameEvents(clk, dio, [ControlByte(brightness)]);
    var t := SegmentsEvents(clk, dio, segments, brightness);
    SegmentsParts(clk, dio, segments, brightness);
    assert t[..62] == f1;
    MiddleSlice(f1, f2, f3);
    assert t[340..] == f3;
    FrameDecodes(clk, dio, [Comm1]);
    FrameDecodes(clk, dio, [Comm2] + segments);
    FrameDecodes(clk, dio, [ControlByte(brightness)]);
    CommandBytes();
    UnsignedsCons(Comm2, segments);
  }
}
