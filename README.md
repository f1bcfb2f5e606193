# TM1637 four-digit display driver, modelled in Dafny

This project models the Java driver for the TM1637 LED display controller
(`src/TM1637.java`). The driver talks to the chip over a two-wire bus made of
a clock pin and a data pin on a Raspberry Pi. It never writes a level on
these pins while it talks to the chip. It only switches a pin's direction.
An OUTPUT pin is pulled low and an INPUT pin is released, so the external
pull-up resistor makes it high. In `start`, `stop` and `writeByte` every
direction change is followed by a one-millisecond `delay()`; the two
direction changes and two writes that `setup` makes have no delay.

The model has four modules:

- `JavaBytes` (`bytes.dfy`) covers Java's signed `byte`. It has the
  narrowing cast `(byte) x`, the unsigned reading of a byte on the wire,
  the arithmetic shift `>>` and bit `i` of a value.
- `Outcomes` (`outcomes.dfy`) holds the exceptions the driver throws:
  `IllegalArgumentException` and `IllegalStateException`, each with its
  reason. It also defines the `Result` and `Option` types that carry them.
- `Bus` (`bus.dfy`) describes, as functions, the exact sequence of GPIO
  calls and delays made by `start`, `stop`, `writeByte` and `setSegments`.
  Its lemmas prove the shape of that sequence: every pin change is
  followed by exactly one delay, and the number of pin changes is fixed.
  Its decoder reads bit `i` of a byte from the data-line direction set in
  bit cycle `i` (event `6 * i + 2`, while the clock is low), least
  significant bit first; the chip latches that level when the clock is
  released two events later. The lemmas prove that decoding each frame
  gives back the bytes that were sent.
- `Segments` (`segments.dfy`) is the segment encoder. It holds the default
  character table. It also computes, as the function `Encode`, the four
  segment bytes `show` sends, or the exception `show` throws. That
  includes the double point, added to the second byte.
- `Display` (`tm1637.dfy`) is the controller itself, the class `TM1637`,
  written imperatively as in the source.
  - Its fields are the driver's instance fields, plus the static `ready`
    flag and the static character table. There is exactly one instance, so
    one object holds both.
  - A field `trace` records every GPIO call and every delay in order.
  - The bus routines are methods that append to `trace`. Each is proved
    to append exactly the sequence its `Bus` function describes.
  - `show`, `setBrightness`, `setShowDoublePoint`, `addCharacter`, `setup`
    and `getInstance` are proved against `Encode` and the `Bus` functions.
    Each also preserves the invariant `Valid`: the brightness is in
    0..15, the last shown data has four characters, and those characters
    can be shown again once setup has run.

The GPIO library itself is outside the model. Its initialisation result is
a parameter of `Setup`: `gpioStatus`, which is 0 on success.

## Model

| member | source | states |
|---|---|---|
| JavaBytes.ToByte | src/TM1637.java:45-47 | the narrowing cast `(byte) x` keeps `x` modulo 256 and leaves values in -128..127 unchanged |
| JavaBytes.Unsigned | src/TM1637.java:131-153 | the wire reading of a byte lies in 0..255, agrees with the byte modulo 256, and equals it when the byte is not negative |
| Bus.CommandBytes | src/TM1637.java:45-47 | the three command bytes put 0x40, 0xC0 and 0x80 on the wire |
| Bus.ControlByte | src/TM1637.java:102 | for a brightness in 0..15 the display-control byte reads 0x80 plus the brightness, so its low nibble is the brightness |
| Bus.StartEvents | src/TM1637.java:109-112 | defines `start`: the data line pulled low and one delay, two events |
| Bus.StopEvents | src/TM1637.java:117-124 | defines `stop`: data line low, clock released, data line released, each with its delay, six events |
| Bus.ByteEvents | src/TM1637.java:131-153 | defines `writeByte`: eight bit cycles on the byte shifted right once per cycle, then the acknowledgement cycle, 54 events |
| Bus.SegmentsEvents | src/TM1637.java:86-104 | defines `setSegments`: a frame with 0x40, a frame with 0xC0 and the segment bytes, a frame with the control byte; `3 * 8 + 54 * (n + 3)` events for `n` segment bytes |
| Bus.InitEvents | src/TM1637.java:281-284 | defines the pin set-up at the end of a successful `setup`: both pins released, both latches low; four events and no delay |
| Bus.StartStopShape | src/TM1637.java:109-124 | `start` is one pin change and `stop` is three, each followed by exactly one delay |
| Bus.ByteEventsShape | src/TM1637.java:131-153 | `writeByte` makes 27 pin changes, each followed by one delay, and ends with the clock low, released, then low: the acknowledgement cycle, in which the data line is never read |
| Bus.ByteBitOrder | src/TM1637.java:133-144 | in bit cycle `i` of `writeByte`, the clock goes low, then the data line is released exactly when bit `i` of the byte is 1, then the clock is released; bits go least significant first |
| Bus.ByteRoundTrip | src/TM1637.java:131-153 | decoding the data-line changes of one `writeByte`, whatever follows it, gives the byte's unsigned value |
| Bus.BytesRoundTrip | src/TM1637.java:95-97 | decoding consecutive `writeByte`s gives back every byte, in order |
| Bus.FrameShape | src/TM1637.java:86-124 | a start, `n` bytes and a stop make `4 + 27 * n` pin changes, each followed by one delay |
| Bus.FrameDecodes | src/TM1637.java:86-124 | decoding a frame (start, bytes, stop) gives back exactly the bytes it carries |
| Bus.SegmentsPaced | src/TM1637.java:86-104 | a display update is 402 events: 201 pin changes, each followed by one delay |
| Bus.SegmentsDecode | src/TM1637.java:86-104 | the three frames of a display update carry 0x40; then 0xC0 and the four segment bytes in order; then 0x80 plus the brightness |
| Segments.FirstUnsupported | src/TM1637.java:165-171 | it finds no index exactly when every character has a table entry; an index it finds is missing from the table and every earlier character is present |
| Segments.Encode | src/TM1637.java:160-177 | on success there are exactly four segment bytes |
| Segments.EncodeSucceeds | src/TM1637.java:160-177 | `show` computes bytes if and only if the array is non-null, has four characters and all of them are in the table |
| Segments.EncodeWrongLength | src/TM1637.java:161-162 | a null array or a length other than 4 is refused with the wrong-length `IllegalArgumentException`, whatever the table holds |
| Segments.EncodeRejectsAt | src/TM1637.java:165-171 | when character `i` is the first one missing from the table, `show` throws the `IllegalArgumentException` naming character `i` |
| Segments.EncodeNamesFirstUnsupported | src/TM1637.java:165-171 | four characters, not all in the table, are refused naming a missing character all of whose predecessors are in the table |
| Segments.EncodeAccepts | src/TM1637.java:165-177 | four supported characters yield their table bytes, with the double point added to the second byte when the flag is set |
| Segments.EncodeBytes | src/TM1637.java:165-177 | on success bytes 0, 2 and 3 are the table entries of their characters, and byte 1 reads the entry plus 0x80 modulo 256 when the flag is set |
| Segments.AddHighBit | src/TM1637.java:175-176 | `+= 0x80` flips bit 7 of a byte and keeps bits 0..6; it sets the double-point bit exactly when the byte is not negative |
| Segments.DefaultTableClear | src/TM1637.java:304-326 | every default segment byte is non-negative with bit 7 clear, so the double point on a default character is bit 7 set |
| Segments.DoublePointOnlyBit7 | src/TM1637.java:175-176 | the double-point flag changes nothing but bit 7 of byte 1: with or without it `show` fails alike, and bytes 0, 2, 3 and bits 0..6 of byte 1 are equal |
| Segments.ReseedIdempotent | src/TM1637.java:304-326 | seeding the defaults twice equals seeding once; the defaults are all present afterwards; other entries are kept |
| Segments.LastShownSupported | src/TM1637.java:73 | once the defaults are seeded, the last characters stored (initially four dashes) can all be shown again |
| Segments.FirstUnsupportedAt | src/TM1637.java:165-171 | if every character before `i` is in the table and character `i` is not, `i` is the first unsupported index |
| Display.TM1637.constructor | src/TM1637.java:40-79 | the class-load state: clock pin 21, data pin 20, brightness 15, no double point, four dashes, an empty table, not ready, no GPIO activity |
| Display.TM1637.Sleep | src/TM1637.java:238-244 | `delay()` appends exactly one delay event to the trace |
| Display.TM1637.Start | src/TM1637.java:109-112 | appends to the trace exactly the data line pulled low and one delay |
| Display.TM1637.Stop | src/TM1637.java:117-124 | appends exactly: data line low, clock released, data line released, each followed by one delay |
| Display.TM1637.ClockBit | src/TM1637.java:134-142 | one iteration of the bit loop: clock low, data released for a 1 or driven for a 0 (by the two's-complement low bit), clock released |
| Display.TM1637.Acknowledge | src/TM1637.java:146-152 | appends the acknowledgement cycle: clock low, released, low again; the data line is not read |
| Display.TM1637.WriteByte | src/TM1637.java:131-153 | appends exactly `ByteEvents`: eight bit cycles on the byte shifted right once per cycle, then the acknowledgement (loop invariant: what is left to send is the remaining cycles on the shifted value) |
| Display.TM1637.SendCommand | src/TM1637.java:88-90 | `start`, one command byte and `stop` append exactly a one-byte frame |
| Display.TM1637.SendSegments | src/TM1637.java:93-98 | appends exactly the frame holding 0xC0 and the four segment bytes in array order |
| Display.TM1637.SetSegments | src/TM1637.java:86-104 | appends exactly the three frames of a display update, the last carrying the control byte for the current brightness |
| Display.TM1637.LookUp | src/TM1637.java:164-171 | fails if and only if some character is missing from the table, naming the first missing one; otherwise returns a new array of the four table entries in order |
| Display.TM1637.Show | src/TM1637.java:160-178 | refuses a wrong length or an unsupported character without storing the data or touching the bus; otherwise stores the characters and sends exactly the update `Encode` computes; keeps `Valid` |
| Display.TM1637.SetShowDoublePoint | src/TM1637.java:186-190 | stores the flag; with `autoFlush` it has the effect of `show` on the last characters, which succeeds once setup has run; without it the bus is untouched |
| Display.TM1637.IsShowDoublePoint | src/TM1637.java:197-199 | returns the stored flag and changes nothing |
| Display.TM1637.SetBrightness | src/TM1637.java:207-214 | refuses values outside 0..15 and leaves brightness, data and bus unchanged; otherwise stores the value, and with `autoFlush` has the effect of `show` on the last characters |
| Display.TM1637.GetBrightness | src/TM1637.java:221-223 | returns the stored brightness, always in 0..15 |
| Display.TM1637.AddCharacter | src/TM1637.java:231-233 | inserts or overwrites exactly one table entry, whatever the byte; keeps `Valid` |
| Display.TM1637.InitMap | src/TM1637.java:304-326 | the 19 default entries overwrite the table's entries for those characters; every other entry is kept |
| Display.TM1637.Setup | src/TM1637.java:259-287 | when already ready, or with a null numbering scheme, throws and changes nothing. Otherwise it binds the pins and seeds the defaults. It returns whether the GPIO initialisation succeeded. Only on success does it release both pins, drive both latches low and become ready |
| Display.TM1637.GetInstance | src/TM1637.java:294-299 | throws `IllegalStateException` before a successful setup, and returns the controller after it |

## Left out

- The GPIO library (pi4j's `Gpio`) is not part of this model. Its calls
  are recorded as trace events. The driver never reads a pin, so the
  model has no pin reads.
- `Gpio.wiringPiSetupGpio`, `wiringPiSetup` and `wiringPiSetupPhys` are
  replaced by their result, the `gpioStatus` parameter of
  `Display.TM1637.Setup`. Which of them runs for which numbering scheme is
  not modelled. `NumberingScheme.java` is not part of this model.
- `delay()` is a `Delay` trace event. `Thread.sleep`, its duration and the
  swallowed `InterruptedException` are not modelled.
- Thread safety is not modelled. The static state has no locking, and the
  model is single-threaded.
- `show` stores the caller's `char[]` itself, so a caller who later
  changes that array changes what `setShowDoublePoint` and
  `setBrightness` re-show. `Display.TM1637.Show` stores the characters
  as a value, so this aliasing is not modelled.
- The chip's electrical behaviour and its acknowledgement are not modelled.
  The driver never reads the ack bit, so the model states only that the
  clock pulses.
- `Bus.DecodeFrame` is a reading of the trace, not part of the driver. It
  drops the first two and the last six events without checking that they
  are a start and a stop, and it ignores any trailing events that do not
  form a whole byte transfer.
- `setSegments` and `writeByte` are each split into smaller methods:
  `SendCommand`, `SendSegments`, `ClockBit` and `Acknowledge`. The lookup
  loop of `show` is the method `LookUp`. The GPIO calls are the same
  calls, in the same order.
- `Display.TM1637.InitMap` writes the 19 `put` calls as one map merge. No
  key repeats, so the resulting table is the same.
- Setting the double point is usually described as a bitwise OR of 0x80.
  The code adds 0x80 with `+=`, and the model follows the code.
  `Segments.AddHighBit` proves that the two agree whenever the segment
  byte is not negative. That holds for every default character
  (`Segments.DefaultTableClear`). For a user-added negative byte, `+=`
  clears bit 7 where OR would keep it set.
- A second `setup` is a state error, like `getInstance` before setup. The
  code still throws `IllegalArgumentException` for it ("Controller is
  ready!"), not `IllegalStateException`. `Display.TM1637.Setup` follows
  the code.
- `Display.TM1637.constructor`: the Dafny constructor is public, so the
  model does not enforce that only one private instance exists and that
  the static state is shared by it alone.
- Dafny's `char` is a Unicode scalar value, while Java's `char` is a UTF-16
  code unit. The model cannot use a lone surrogate half as a table key or
  as a character to show.
