/**
 * The TM1637 controller: display session state, the bus routines that drive
 * the clock and data pins, the segment table and the one-time setup.
 *
 * In the driver the readiness flag and the segment table are static and the
 * rest belongs to the single shared instance; since there is exactly one
 * instance, one object here holds both. Every call into the GPIO library and
 * every `delay()` is appended to `trace`, in order.
 */
module Display {
  import opened JavaBytes
  import opened Outcomes
  import opened Bus
  import opened Segments

  /** The GPIO numbering schemes `setup` accepts; a null scheme is `None`. */
  datatype NumberingScheme = Broadcom | WiringPi | Physical

  class TM1637 {
    var clk: int
    var dio: int
    var brightness: int8
    var showDoublePoint: bool
    var lastData: seq<char>
    var charToSegment: Table   // static in the driver
    var ready: bool            // static in the driver
    var trace: seq<Event>      // every GPIO call and delay, oldest first

    ghost predicate Valid()
      reads this`brightness, this`lastData, this`charToSegment, this`ready
    {
      0 <= brightness <= 15
      && |lastData| == 4
      && (lastData == Dashes || Supported(charToSegment, lastData))
      && (ready ==> DefaultTable.Keys <= charToSegment.Keys)
    }

    /** The state when the class is loaded: pins 21 and 20, full brightness, no double point, four dashes, an empty table, not ready. */
    constructor ()
      ensures Valid()
      ensures clk == 21 && dio == 20 && brightness == 15 && !showDoublePoint
      ensures lastData == Dashes && charToSegment == map[] && !ready && trace == []
    {
      clk, dio := 21, 20;
      brightness := 0x0f;
      showDoublePoint := false;
      lastData := Dashes;
      charToSegment := map[];
      ready := false;
      trace := [];
    }

    /** `Gpio.pinMode(pin, mode)`. */
    method SetMode(pin: int, mode: Mode)
      modifies this`trace
      ensures trace == old(trace) + [PinMode(pin, mode)]
    {
      trace := trace + [PinMode(pin, mode)];
    }

    /** `Gpio.digitalWrite(pin, level)`. */
    method Write(pin: int, level: Level)
      modifies this`trace
      ensures trace == old(trace) + [DigitalWrite(pin, level)]
    {
      trace := trace + [DigitalWrite(pin, level)];
    }

    /** `delay()`: one timing unit. */
    method Sleep()
      modifies this`trace
      ensures trace == old(trace) + [Delay]
    {
      trace := trace + [Delay];
    }

    /** `Gpio.pinMode(pin, mode)` followed by `delay()`, the pair every bus routine is made of. */
    method Change(pin: int, mode: Mode)
      modifies this`trace
      ensures trace == old(trace) + Step(pin, mode)
    {
      SetMode(pin, mode);
      Sleep();
    }

    /** `start()`: the data line is pulled low. */
    method Start()
      modifies this`trace
      ensures trace == old(trace) + StartEvents(dio)
    {
      Change(dio, Output);
    }

    /** `stop()`: data line low, clock released, data line released. */
    method Stop()
      modifies this`trace
      ensures trace == old(trace) + StopEvents(clk, dio)
    {
      ghost var t0 := trace;
      Change(dio, Output);
      Change(clk, Input);
      Change(dio, Input);
      Append3(t0, Step(dio, Output), Step(clk, Input), Step(dio, Input));
    }

    /** One iteration of the bit loop of `writeByte` on the current value `v`: clock low, data line by the low bit of `v`, clock released. */
    method ClockBit(v: int8)
      modifies this`trace
      ensures trace == old(trace) + BitCycle(clk, dio, v as int)
    {
      Change(clk, Output);
      // `(b & 1) == 1`: the low bit of the two's complement value
      Change(dio, if v as int % 2 == 1 then Input else Output);
      Change(clk, Input);
      Append3(old(trace), Step(clk, Output), Step(dio, DataMode(v as int % 2)), Step(clk, Input));
    }

    /** The acknowledgement cycle at the end of `writeByte`: the clock is pulsed and the data line is not read. */
    method Acknowledge()
      modifies this`trace
      ensures trace == old(trace) + AckEvents(clk)
    {
      Change(clk, Output);
      Change(clk, Input);
      Change(clk, Output);
      Append3(old(trace), Step(clk, Output), Step(clk, Input), Step(clk, Output));
    }

    /** Shifts `b` out least significant bit first, then runs the acknowledgement cycle without reading the data line. */
    method WriteByte(b: int8)
      modifies this`trace
      ensures trace == old(trace) + ByteEvents(clk, dio, b)
    {
      var v := b;
      ghost var goal := old(trace) + BitCycles(clk, dio, b as int, ByteWidth);
      for i := 0 to 8
        invariant goal == trace + BitCycles(clk, dio, v as int, ByteWidth - i)
      {
        ghost var t0, rest := trace, BitCycles(clk, dio, v as int / 2, ByteWidth - i - 1);
        BitCyclesUnfold(clk, dio, v as int, ByteWidth - i);
        ClockBit(v);
        AppendAssoc(t0, BitCycle(clk, dio, v as int), rest);
        v := (v as int / 2) as int8;   // `b >>= 1`: an arithmetic shift, so always in range
      }
      assert BitCycles(clk, dio, v as int, 0) == [];
      Acknowledge();
      AppendAssoc(old(trace), BitCycles(clk, dio, b as int, ByteWidth), AckEvents(clk));
    }

    /** `start(); writeByte(b); stop();`: a frame holding one command byte, as `setSegments` sends its first and last frames. */
    method SendCommand(b: int8)
      modifies this`trace
      ensures trace == old(trace) + FrameEvents(clk, dio, [b])
    {
      Start();
      WriteByte(b);
      Stop();
      FrameOne(clk, dio, b);
      Append3(old(trace), StartEvents(dio), ByteEvents(clk, dio, b), StopEvents(clk, dio));
    }

    /** The middle frame of `setSegments`: the address command, then the four segment bytes in display order. */
    method SendSegments(segments: array<int8>)
      requires segments.Length == 4
      modifies this`trace
      ensures trace == old(trace) + FrameEvents(clk, dio, [Comm2] + segments[..])
    {
      ghost var segs := segments[..];
      Start();
      WriteByte(Comm2);
      ghost var header := trace;
      for i := 0 to 4
        invariant trace == header + BytesEvents(clk, dio, segs[..i])
      {
        WriteByte(segments[i]);
        BytesEventsTake(clk, dio, segs, i);
        AppendAssoc(header, BytesEvents(clk, dio, segs[..i]), ByteEvents(clk, dio, segs[i]));
      }
      Stop();
      FrameSent(old(trace), clk, dio, Comm2, segs, trace);
    }

    /** Sends the three frames of a display update: data command, address and four segment bytes, display control with the brightness. */
    method SetSegments(segments: array<int8>)
      requires segments.Length == 4
      modifies this`trace
      ensures trace == old(trace) + SegmentsEvents(clk, dio, segments[..], brightness)
    {
      SendCommand(Comm1);
      SendSegments(segments);
      SendCommand(ControlByte(brightness));   // `(byte) (I2C_COMM3 + brightness)`
      Append3(old(trace), FrameEvents(clk, dio, [Comm1]), FrameEvents(clk, dio, [Comm2] + segments[..]), FrameEvents(clk, dio, [ControlByte(brightness)]));
      SegmentsParts(clk, dio, segments[..], brightness);
    }

    /**
     * The outcome of `show(data)` between the state before a call and the
     * state after it, judged with the current table, flag and brightness: the
     * exception and nothing changed, or `data` stored and the update sent.
     */
    twostate predicate ShowEffect(data: Option<seq<char>>, new r: Result<()>)
      reads this
    {
      match Encode(charToSegment, data, showDoublePoint)
      case Err(f) =>
        r == Err(f) && trace == old(trace) && lastData == old(lastData)
      case Ok(segments) =>
        r == Ok(()) && lastData == data.value
        && trace == old(trace) + SegmentsEvents(clk, dio, segments, brightness)
    }

    /**
     * The lookup loop of `show`: the segment byte of each character in a new
     * array, or the exception for the first character the table lacks.
     */
    method LookUp(chars: seq<char>) returns (r: Result<array<int8>>)
      requires |chars| == 4
      ensures r.Err? <==> FirstUnsupported(charToSegment, chars).Some?
      ensures r.Err? ==> r.failure == IllegalArgument(UnsupportedChar(chars[FirstUnsupported(charToSegment, chars).value]))
      ensures r.Ok? ==> fresh(r.value) && r.value.Length == 4
                        && forall j :: 0 <= j < 4 ==> r.value[j] == charToSegment[chars[j]]
    {
      var bytes := new int8[4];
      for i := 0 to 4
        invariant Supported(charToSegment, chars[..i])
        invariant forall j :: 0 <= j < i ==> bytes[j] == charToSegment[chars[j]]
      {
        var c := chars[i];
        if c !in charToSegment {
          FirstUnsupportedAt(charToSegment, chars, i);
          return Err(IllegalArgument(UnsupportedChar(c)));
        }
        bytes[i] := charToSegment[c];
        assert chars[..i + 1] == chars[..i] + [c];
      }
      assert chars[..4] == chars;
      r := Ok(bytes);
    }

    /** Checks all four characters before any bus activity, stores them, and sends them. */
    method Show(data: Option<seq<char>>) returns (r: Result<()>)
      requires Valid()
      modifies this`trace, this`lastData
      ensures Valid() && ShowEffect(data, r)
    {
      if data.None? || |data.value| != 4 {
        EncodeWrongLength(charToSegment, data, showDoublePoint);
        return Err(IllegalArgument(WrongLength));
      }
      var chars := data.value;
      assert data == Some(chars);
      var looked := LookUp(chars);
      if looked.Err? {
        return Err(looked.failure);
      }
      var bytes := looked.value;
      lastData := chars;
      if showDoublePoint {
        bytes[1] := ToByte(bytes[1] as int + 0x80);   // `bytes[1] += 0x80`
      }
      assert bytes[..] == Digits(charToSegment, chars, showDoublePoint);
      EncodeAccepts(charToSegment, chars, showDoublePoint);
      SetSegments(bytes);
      r := Ok(());
    }

    /** Sets the flag, then with `autoFlush` shows the last characters again, with the new flag. */
    method SetShowDoublePoint(value: bool, autoFlush: bool) returns (r: Result<()>)
      requires Valid()
      modifies this`showDoublePoint, this`trace, this`lastData
      ensures Valid() && showDoublePoint == value
      ensures autoFlush ==> ShowEffect(Some(old(lastData)), r)
      ensures autoFlush && ready ==> r == Ok(())
      ensures !autoFlush ==> r == Ok(()) && trace == old(trace) && lastData == old(lastData)
    {
      showDoublePoint := value;
      r := Ok(());
      if autoFlush {
        r := Show(Some(lastData));
        if ready {
          LastShownSupported(charToSegment, old(lastData));
        }
      }
    }

    /** The double-point flag. */
    method IsShowDoublePoint() returns (v: bool)
      ensures v == showDoublePoint
    {
      v := showDoublePoint;
    }

    /** Refuses values outside 0..15; otherwise stores the value, then with `autoFlush` shows the last characters again. */
    method SetBrightness(value: int, autoFlush: bool) returns (r: Result<()>)
      requires Valid()
      modifies this`brightness, this`trace, this`lastData
      ensures Valid()
      ensures (value < 0 || value > 15) ==>
        r == Err(IllegalArgument(BrightnessOutOfRange(value)))
        && brightness == old(brightness) && trace == old(trace) && lastData == old(lastData)
      ensures 0 <= value <= 15 ==> brightness as int == value
      ensures 0 <= value <= 15 && autoFlush ==> ShowEffect(Some(old(lastData)), r)
      ensures 0 <= value <= 15 && autoFlush && ready ==> r == Ok(())
      ensures 0 <= value <= 15 && !autoFlush ==> r == Ok(()) && trace == old(trace) && lastData == old(lastData)
    {
      if value < 0 || value > 15 {
        return Err(IllegalArgument(BrightnessOutOfRange(value)));
      }
      brightness := ToByte(value);
      r := Ok(());
      if autoFlush {
        r := Show(Some(lastData));
        if ready {
          LastShownSupported(charToSegment, old(lastData));
        }
      }
    }

    /** The brightness, widened from `byte` to `int`. */
    method GetBrightness() returns (n: int)
      requires Valid()
      ensures n == brightness as int && 0 <= n <= 15
    {
      n := brightness as int;
    }

    /** Adds or overwrites one table entry; the byte is not checked. */
    method AddCharacter(c: char, value: int8)
      requires Valid()
      modifies this`charToSegment
      ensures Valid() && charToSegment == old(charToSegment)[c := value]
    {
      charToSegment := charToSegment[c := value];
    }

    /** Writes the 19 default entries, overwriting any earlier entry for those characters. */
    method InitMap()
      requires Valid()
      modifies this`charToSegment
      ensures Valid() && charToSegment == old(charToSegment) + DefaultTable
    {
      // the 19 `put` calls; later keys never repeat earlier ones, so this is one merge
      charToSegment := charToSegment + DefaultTable;
      ReseedIdempotent(old(charToSegment));
    }

    /**
     * `setup(scheme, clkPin, dioPin)`, where `gpioStatus` is what the GPIO
     * library's initialisation for `scheme` returned (0 on success).
     */
    method Setup(scheme: Option<NumberingScheme>, clkPin: int, dioPin: int, gpioStatus: int) returns (r: Result<bool>)
      requires Valid()
      modifies this`ready, this`clk, this`dio, this`charToSegment, this`trace
      ensures Valid()
      ensures old(ready) ==> r == Err(IllegalArgument(AlreadyReady)) && unchanged(this)
      ensures !old(ready) && scheme.None? ==> r == Err(IllegalArgument(NullScheme)) && unchanged(this)
      ensures !old(ready) && scheme.Some? ==>
        clk == clkPin && dio == dioPin
        && charToSegment == old(charToSegment) + DefaultTable
        && r == Ok(gpioStatus == 0) && ready == (gpioStatus == 0)
        && trace == old(trace) + (if gpioStatus == 0 then InitEvents(clkPin, dioPin) else [])
    {
      if ready {
        return Err(IllegalArgument(AlreadyReady));
      }
      if scheme.None? {
        return Err(IllegalArgument(NullScheme));
      }
      clk, dio := clkPin, dioPin;
      InitMap();
      if gpioStatus != 0 {
        return Ok(false);
      }
      SetMode(clkPin, Input);
      SetMode(dioPin, Input);
      Write(clkPin, Low);
      Write(dioPin, Low);
      ready := true;
      r := Ok(true);
    }

    /** The shared controller, once setup has succeeded. */
    method GetInstance() returns (r: Result<TM1637>)
      ensures !ready ==> r == Err(IllegalState(NotReady))
      ensures ready ==> r == Ok(this)
    {
      if !ready {
        return Err(IllegalState(NotReady));
      }
      r := Ok(this);
    }
  }
}
