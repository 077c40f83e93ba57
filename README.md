# Cayenne LPP codec (go-cayenne-lib), integer layer

This project models the Cayenne Low Power Payload byte codec of
TheThingsNetwork/go-cayenne-lib, in both of its generations: the current one
at the repository root (`decoder.go`, `encoder.go`) and the legacy one under
`cayennelpp/` (`decoder.go`, `encoder.go`, `channels.go`). The model covers
the integer layer, and the physical value of a reading appears only as the
exact real `raw / scale`.

An uplink stream is a concatenation of units `[channel, type, payload]`. The
type byte comes from a registry of twelve channel types, and it fixes the
payload's width and whether its fields are signed. A downlink stream is a
concatenation of units `[channel, int16 big-endian]`. In the current
generation a channel byte of 0xFF ends a downlink stream.

The files:

- `wire.dfy` (module `Wire`) covers bytes and the Go integer types. It holds
  big-endian and two's-complement readings, the low bytes that a big-endian
  write of an integer produces, and the two GPS readings as each generation
  computes them: a shift with sign extension, and shifts and ORs. It also
  defines the outcome of a read: `io.EOF`, `io.ErrUnexpectedEOF`, or the
  decoder's unknown-type error.
- `channels.dfy` (module `Channels`) is the registry: the type bytes, the
  field counts, widths, reads, signedness and scales. It also holds the
  `Generation` parameter, which carries the three places where the
  generations differ.
- `uplink.dfy` (module `Uplink`) is the uplink wire format as a pure
  specification, in two layers:
  - `SplitFrames` is how the decoder's loop walks a stream unit by unit, and
    how the walk stops.
  - `DecodeUplink` adds how each generation reads the fields of a unit.

  `EncodeEvent` is what an encoder appends for one reading. The file also
  holds the round trips in both directions and the stopping behaviour.
- `downlink.dfy` (module `Downlink`) is the downlink wire format, with its
  round trip and the terminator.
- `decoder.dfy` (module `Decoding`) is the decoder object: a reader over a
  byte stream, plus the two loops. Each loop is proved to deliver exactly
  what the pure specification says, end the same way and read as far.
- `buffer.dfy` (module `Buffers`) is the part of Go's `bytes.Buffer` that
  the encoders use.
- `encoder.dfy` (module `Encoding`) and `legacy_encoder.dfy` (module
  `LegacyEncoding`) are the two encoder objects. Each `Add` method is proved
  to append exactly the unit that the specification gives for its reading.
- `vectors.dfy` (module `Vectors`) holds:
  - the repository's test vectors, proved against the specification
    functions;
  - four methods whose contracts pass bytes through the encoder and decoder
    objects: `EncodePortsVector`, `LegacyAnalogVector` and
    `DecodeDownlinkVector` on test vectors, and `DecodeUplinkVector` on a
    short stream of its own;
  - the legacy encoder's wrapped signed fields;
  - the two findings below.

The decoders call a target once per unit. Here those calls are the
sequence of events (or ports) that a decode returns, in delivery order. The
reader is a fixed sequence of bytes plus a read position.

Where the channel documentation and the code disagree, the model follows the
code. The barometric-pressure field is documented as unsigned, but both
decoders read it as `int16` and the current encoder writes an `int16`. The
model reads it as signed (`Channels.FieldSigned`).

## Model

| member | source | states |
|---|---|---|
| Wire.BigEndian | decoder.go:154-161 | the unsigned big-endian value of n bytes is below 256^n (the `uint16` luminosity read) |
| Wire.TwosComplement | decoder.go:136-143 | a big-endian `int16` read lies in the signed range of its width |
| Wire.TwosComplementResidue | decoder.go:136-143 | the signed reading keeps the bits it was read from: it is congruent to the unsigned value modulo 256^n |
| Wire.LowBytesValue | encoder.go:78-83 | the bytes `binary.Write` produces for a value are its residue modulo 256^w, big-endian |
| Wire.LowBytesOfBigEndian | encoder.go:78-83 | writing any integer congruent to the value of a byte string reproduces the byte string |
| Wire.LowBytesCongruent | cayennelpp/encoder.go:68-73 | integers congruent modulo 256^w are written as the same w bytes (a `uint16` wrap writes what the `int16` would) |
| Wire.TwosComplementRoundTrip | decoder.go:136-143 | a signed value that fits w bytes is read back unchanged from the bytes written for it |
| Wire.BigEndianRoundTrip | decoder.go:154-161 | an unsigned value that fits w bytes is read back unchanged from the bytes written for it |
| Wire.Int32 | decoder.go:241 | Go's `int32(u)` of a 32-bit pattern is the signed integer congruent to it modulo 2^32 |
| Wire.ShiftedInt24SignExtends | decoder.go:234-243 | copying three bytes to the top of a uint32, converting to int32 and shifting right by 8 gives the 24-bit two's-complement value |
| Wire.OredInt24IsUnsigned | cayennelpp/decoder.go:226-229 | ORing `b0<<16`, `b1<<8` and `b2` is the unsigned 24-bit value of the three bytes |
| Wire.LowBytes | encoder.go:78-83 | the w bytes a big-endian write of an integer produces (`binary.Write`, or the `byte(v>>k)` writes); its value and round trips are stated by `Wire.LowBytesValue`, `Wire.LowBytesOfBigEndian` and `Wire.TwosComplementRoundTrip` |
| Wire.ShiftedInt24 | decoder.go:234-243 | the current GPS read lies in [-2^23, 2^23); that it is the 24-bit two's-complement value is `Wire.ShiftedInt24SignExtends` |
| Wire.OredInt24 | cayennelpp/decoder.go:227-229 | the legacy GPS read lies in [0, 2^24); that it is the unsigned value is `Wire.OredInt24IsUnsigned` |
| Wire.ShiftByte | encoder.go:152-160 | Go's `byte(v >> (8*k))` with an arithmetic shift; `Wire.ShiftBytes2` and `Wire.ShiftBytes3` state what the writes produce together |
| Wire.ShiftBytes2 | encoder.go:63 | the two big-endian bytes of a 16-bit write are the value's low two bytes, high first |
| Wire.ShiftBytes3 | encoder.go:152-160 | `byte(v>>16), byte(v>>8), byte(v)` are the low three bytes of v, high first |
| Channels.TagByte | cayennelpp/channels.go:6-31 | the twelve type constants; `Channels.TagBytes` and `Channels.TagOfTagByte` state that they are exactly these twelve values, pairwise distinct |
| Channels.FieldCount | decoder.go:190-246 | three fields for the accelerometer, gyrometer and GPS, one otherwise; `Channels.PayloadIsFields` ties it to the payload width |
| Channels.FieldWidth | decoder.go:118-246 | one byte for digital input/output, presence and humidity, three for GPS, two otherwise; `Channels.PayloadIsFields` ties it to the payload width |
| Channels.ReadSizes | decoder.go:190-233 | one 9-byte read for GPS, three 2-byte reads for the three-axis sensors, one read of the field otherwise; `Channels.PayloadWidth` states that they add up to the payload, and `Uplink.PayloadCutOutcome` what a cut payload reports |
| Channels.FieldSigned | cayennelpp/decoder.go:173-180 | where the generations' field reads differ: humidity is signed only in the legacy generation, GPS only in the current one, and the barometric field is signed in both, as read; `Uplink.FieldValue`, `Uplink.GpsField` and the findings' lemmas state the consequences |
| Channels.TagOf | decoder.go:61-88 | the dispatch on the type byte recovers a registered type only from that type's own byte |
| Channels.TagBytes | cayennelpp/channels.go:6-31 | the registered type bytes are exactly 0, 1, 2, 3, 101, 102, 103, 104, 113, 115, 134 and 136 (255 is not one of them) |
| Channels.TagOfTagByte | cayennelpp/channels.go:6-31 | the twelve type bytes are pairwise distinct, and dispatch on each gives back its type |
| Channels.PayloadWidth | decoder.go:118-246 | a type's payload width is the sum of the reads its helper issues, and each read is of at least one byte |
| Channels.PayloadIsFields | cayennelpp/channels.go:7-29 | payload width = field count × field width (1, 2, 2×3 and 3×3 bytes) |
| Channels.Divisor | cayennelpp/channels.go:11-29 | every scale divisor is positive |
| Uplink.Physical | decoder.go:136-243 | the physical reading of each field times its divisor is the raw value, exactly |
| Uplink.InRange | decoder.go:118-246 | the values a field's Go type holds: `uint8`/`int8`, `uint16`/`int16`, or 24 bits signed or unsigned, by generation; `Uplink.FieldValue` reads only such values and `Uplink.FieldRoundTrip` returns each of them |
| Uplink.WellFormed | decoder.go:61-91 | a reading a decoder can deliver: one in-range value per field; `Uplink.DecodedEventsWellFormed` and `Uplink.RoundTrip` state that decoding delivers exactly these |
| Uplink.FieldValue | decoder.go:118-227 | a field read by either generation lies in the range of the field's Go type |
| Uplink.GpsField | decoder.go:229-246 | a GPS field lies in [-2^23, 2^23) in the current generation and in [0, 2^24) in the legacy one |
| Uplink.FieldResidue | cayennelpp/decoder.go:110-232 | whatever the generation and type, a field's value is congruent to its bytes' unsigned value |
| Uplink.Fields | decoder.go:190-243 | a payload yields one in-range raw value per field |
| Uplink.EventOf | decoder.go:61-91 | the event delivered for a complete unit carries its channel and type and is well formed |
| Uplink.FrameOf | encoder.go:66-161 | the unit written for a reading with one value per field is complete, with the reading's channel and type |
| Uplink.Pack | encoder.go:117-161 | the payload written for raw fields of width w has w bytes per field; `Uplink.PackSmall` and `Uplink.FieldsRoundTrip` state its content and inverse |
| Uplink.EncodeEvents | encoder.go:66-161 | the bytes of a sequence of `Add` calls, unit after unit; `Uplink.EncodeEventsCons` splits it, and `Uplink.RoundTrip` decodes it back |
| Uplink.EncodeEvent | encoder.go:66-161 | the unit written for a reading is 2 + payload-width bytes long (3, 4, 8 or 11) |
| Uplink.EncodeFrame | encoder.go:66-161 | a unit is its channel, its type byte and its payload, 2 + payload bytes; `Uplink.FrameUnit` states that the walk takes it back whole |
| Uplink.PackSmall | encoder.go:117-161 | the payload of one or three fields is each field's low bytes in turn |
| Uplink.UnitOfOne | encoder.go:66-115 | a one-field unit is channel, type byte, then the field's low bytes |
| Uplink.UnitOfThree | encoder.go:117-161 | a three-field unit is channel, type byte, then each field's low bytes in order |
| Uplink.AppendUnitOfOne | encoder.go:66-115 | three byte-level writes append exactly the unit of a one-field reading |
| Uplink.AppendUnitOfThree | encoder.go:117-161 | the byte-level writes of a three-field `Add` append exactly its unit |
| Uplink.Shortfall | decoder.go:118-233 | a payload cut short gives `io.EOF` or `io.ErrUnexpectedEOF`, and never success |
| Uplink.SplitFrames | decoder.go:51-94 | the walk consumes no more than the stream; it succeeds only having consumed all of it; every unit it takes is complete |
| Uplink.EventsOf | decoder.go:89-91 | one event per complete unit |
| Uplink.DecodeUplink | decoder.go:51-94 | a decode never consumes more than the stream, and succeeds only at its end |
| Uplink.DecodedEventsWellFormed | decoder.go:118-246 | every delivered event has one in-range value per field |
| Uplink.FieldRoundTrip | decoder.go:136-243 | an in-range value is read back unchanged from the bytes written for it, for every type and generation |
| Uplink.FieldReencode | encoder.go:78-161 | writing the value read from any field's bytes reproduces the bytes |
| Uplink.FieldsRoundTrip | decoder.go:190-243 | the payload written for in-range raw values has the type's width and reads back as those values |
| Uplink.PayloadRoundTrip | encoder.go:117-161 | writing the fields read from any payload reproduces the payload |
| Uplink.EventRoundTrip | decoder.go:61-91 | a well-formed reading survives being written as a unit and read back |
| Uplink.FrameRoundTrip | decoder.go:61-91 | any complete unit survives being read and written back |
| Uplink.FrameUnit | decoder.go:51-94 | a complete unit at the head of a stream is taken whole, and the walk carries on after it |
| Uplink.FramesAppend | decoder.go:51-94 | complete units are taken in order, whatever follows them |
| Uplink.SplitFramesHead | decoder.go:51-94 | a walk that takes a unit takes the unit at the head of the stream, then walks the rest |
| Uplink.FramesPrefix | decoder.go:51-94 | the units a walk takes are the head of the stream, byte for byte |
| Uplink.FramesRest | decoder.go:51-94 | past the units a walk takes, the walk takes nothing and ends the same way |
| Uplink.FramesStand | decoder.go:89-91 | the units taken are the head of the stream byte for byte, and past them the walk takes nothing and ends the same way |
| Uplink.FramesThenEncode | decoder.go:51-57 | a successful walk took the whole stream as complete units |
| Uplink.PayloadCutOutcome | decoder.go:190-233 | a cut at a field boundary gives `io.EOF`, a cut inside a field `io.ErrUnexpectedEOF`; GPS, read in one piece, gives `io.EOF` only with no payload byte |
| Uplink.TruncatedFrame | decoder.go:54-60 | a unit cut before its last byte is never taken: a lone channel byte gives an unexpected end, a bare header gives `io.EOF` |
| Uplink.EncodeEventsCons | encoder.go:66-161 | the bytes of several readings are the first reading's unit followed by the rest |
| Uplink.FramesOfShaped | encoder.go:66-161 | the units written for well-formed readings are complete |
| Uplink.EventsOfAppend | decoder.go:89-91 | the events of two runs of units are the events of each, in order |
| Uplink.EventsOfFramesOf | decoder.go:61-91 | the units written for well-formed readings read back as those readings |
| Uplink.FramesOfEventsOf | decoder.go:61-91 | the events read from complete units write back as those units |
| Uplink.DecodeAppend | decoder.go:51-94 | units written for well-formed readings decode to them in order, whatever follows |
| Uplink.RoundTrip | decoder.go:51-94 | the bytes of a sequence of `Add` calls decode with success to exactly those readings, in call order (GPS in [-2^23, 2^23) current, [0, 2^24) legacy) |
| Uplink.ReencodeFrames | encoder.go:66-161 | re-encoding the delivered events gives back the units the walk took |
| Uplink.EmittedUnitsStand | decoder.go:61-91 | the events delivered before an error stand for the stream's head, and the decode of what follows delivers nothing and ends the same way |
| Uplink.DecodeThenEncode | decoder.go:51-57 | a successful decode consumed the whole stream, and its events re-encode to it |
| Uplink.TruncatedStreamFails | decoder.go:54-60 | complete units followed by a cut unit deliver the complete units and end in `io.EOF` or `io.ErrUnexpectedEOF`, never success |
| Uplink.UnknownTypeStops | decoder.go:86-91 | an unregistered type byte stops the decode at once after its header; earlier events stand and no later unit is decoded |
| Downlink.PortValue | decoder.go:113 | the port value times 100 is the raw int16, exactly |
| Downlink.Fits | encoder.go:60-64 | a port the encoder writes and the same generation's decoder reads back: an `int16` value, and in the current generation a channel other than 0xFF; `Downlink.DownlinkRoundTrip` and `Downlink.TerminatorChannelEndsStream` state both halves |
| Downlink.DecodeDownlink | decoder.go:96-116 | a downlink decode never consumes more than the stream |
| Downlink.DecodedPortsFit | decoder.go:109-112 | every delivered port value is an int16 |
| Downlink.EncodePort | encoder.go:60-64 | a port is written as 3 bytes, the channel first, with no type byte |
| Downlink.EncodePorts | encoder.go:60-64 | the bytes of a sequence of `AddPort` calls are 3 bytes per port; `Downlink.DownlinkRoundTrip` decodes them back |
| Downlink.PortUnit | decoder.go:96-116 | a port unit decodes to its port, and the decode carries on after it |
| Downlink.DownlinkAppend | decoder.go:96-116 | units written for fitting ports decode to them in order, whatever follows |
| Downlink.DownlinkRoundTrip | encoder.go:60-64 | the bytes of a sequence of `AddPort` calls decode with success to exactly those ports |
| Downlink.TerminatorStops | decoder.go:106-108 | in the current generation, 0xFF where a unit would start ends the decode with success, whatever follows |
| Downlink.TerminatorChannelEndsStream | decoder.go:106-108 | a port written on channel 0xFF is not read back by the current decoder: the decode stops there |
| Downlink.LegacyDownlink | cayennelpp/decoder.go:91-108 | the legacy decoder reads the whole stream, one port per complete 3-byte unit; it succeeds exactly when the length is a multiple of 3, and 1 or 2 leftover bytes give `io.EOF` or `io.ErrUnexpectedEOF` |
| Downlink.CurrentDownlinkOk | decoder.go:96-116 | a successful current decode delivers one port per 3-byte unit read, none starting with 0xFF, and stops at the end of the stream on a unit boundary or right after a 0xFF in channel position |
| Downlink.CurrentWithoutTerminator | cayennelpp/decoder.go:91-108 | without 0xFF where a unit starts, the two generations' downlink decoders agree |
| Decoding.Decoder.constructor | decoder.go:46-49 | a decoder over a reader starts at the reader's first byte |
| Decoding.Decoder.ReadFull | decoder.go:54 | `io.ReadFull`: the next n bytes if present; otherwise all that is left is taken, with `io.EOF` if nothing was left and `io.ErrUnexpectedEOF` otherwise |
| Decoding.Decoder.ReadPayload | decoder.go:118-233 | a type's payload reads yield the whole payload, or else the error `Shortfall` gives, with the stream used up |
| Decoding.Decoder.ReadUnit | decoder.go:54-91 | one pass of the loop either takes the unit the walk takes at this point, or ends the walk as the specification does |
| Decoding.Decoder.DecodeUplink | decoder.go:51-94 | the loop delivers exactly `Uplink.DecodeUplink`'s events, ends with its outcome, and reads exactly as far |
| Decoding.Decoder.DecodeDownlink | decoder.go:96-116 | the loop delivers exactly `Downlink.DecodeDownlink`'s ports, ends with its outcome, and reads exactly as far |
| Buffers.Buffer.constructor | encoder.go:40 | a new buffer is empty |
| Buffers.Buffer.Grow | encoder.go:44-46 | growing leaves the contents unchanged |
| Buffers.Buffer.Bytes | encoder.go:48-50 | returns the contents |
| Buffers.Buffer.Reset | encoder.go:52-54 | empties the buffer |
| Buffers.Buffer.WriteTo | encoder.go:56-58 | hands over the whole contents with their count and empties the buffer |
| Buffers.Buffer.WriteByte | encoder.go:67-69 | appends one byte |
| Buffers.Buffer.WriteBigEndian16 | encoder.go:82 | appends the value's low two bytes, high first |
| Buffers.Buffer.WriteBigEndian24 | encoder.go:152-154 | appends the value's low three bytes, high first |
| Encoding.Encoder.constructor | encoder.go:37-42 | a new encoder holds no bytes |
| Encoding.Encoder.Grow | encoder.go:44-46 | the bytes written so far are unchanged |
| Encoding.Encoder.Bytes | encoder.go:48-50 | returns the bytes written so far |
| Encoding.Encoder.Reset | encoder.go:52-54 | discards everything written |
| Encoding.Encoder.WriteTo | encoder.go:56-58 | hands everything written to the writer, with its count, leaving the encoder empty |
| Encoding.Encoder.AddPort | encoder.go:60-64 | appends exactly the downlink unit of the port, leaving earlier bytes unchanged |
| Encoding.Encoder.AddDigitalInput | encoder.go:66-70 | appends exactly the unit of the reading, leaving earlier bytes unchanged |
| Encoding.Encoder.AddDigitalOutput | encoder.go:72-76 | appends exactly the unit of the reading, leaving earlier bytes unchanged |
| Encoding.Encoder.AddAnalogInput | encoder.go:78-83 | appends exactly the unit of the int16 reading, leaving earlier bytes unchanged |
| Encoding.Encoder.AddAnalogOutput | encoder.go:85-90 | appends exactly the unit of the int16 reading, leaving earlier bytes unchanged |
| Encoding.Encoder.AddLuminosity | encoder.go:92-96 | appends exactly the unit of the uint16 reading, leaving earlier bytes unchanged |
| Encoding.Encoder.AddPresence | encoder.go:98-102 | appends exactly the unit of the reading, leaving earlier bytes unchanged |
| Encoding.Encoder.AddTemperature | encoder.go:104-109 | appends exactly the unit of the int16 reading, leaving earlier bytes unchanged |
| Encoding.Encoder.AddRelativeHumidity | encoder.go:111-115 | appends exactly the unit of the byte reading, leaving earlier bytes unchanged |
| Encoding.Encoder.AddAccelerometer | encoder.go:117-126 | appends exactly the unit of the three int16 axes, leaving earlier bytes unchanged |
| Encoding.Encoder.AddBarometricPressure | encoder.go:128-133 | appends exactly the unit of the int16 reading, leaving earlier bytes unchanged |
| Encoding.Encoder.AddGyrometer | encoder.go:135-144 | appends exactly the unit of the three int16 axes, leaving earlier bytes unchanged |
| Encoding.Encoder.AddGPS | encoder.go:146-161 | appends exactly the unit of the three int32 coordinates (their low 24 bits), leaving earlier bytes unchanged |
| LegacyEncoding.Encoder.constructor | cayennelpp/encoder.go:34-38 | a new encoder holds no bytes |
| LegacyEncoding.Encoder.Grow | cayennelpp/encoder.go:40-42 | the bytes written so far are unchanged |
| LegacyEncoding.Encoder.Bytes | cayennelpp/encoder.go:44-46 | returns the bytes written so far |
| LegacyEncoding.Encoder.Reset | cayennelpp/encoder.go:48-50 | discards everything written |
| LegacyEncoding.Encoder.WriteTo | cayennelpp/encoder.go:52-54 | hands everything written to the writer, with its count, leaving the encoder empty |
| LegacyEncoding.Encoder.AddDigitalInput | cayennelpp/encoder.go:56-60 | appends exactly the unit of the reading, leaving earlier bytes unchanged |
| LegacyEncoding.Encoder.AddDigitalOutput | cayennelpp/encoder.go:62-66 | appends exactly the unit of the reading, leaving earlier bytes unchanged |
| LegacyEncoding.Encoder.AddAnalogInput | cayennelpp/encoder.go:68-73 | appends exactly the unit of the uint16 value, leaving earlier bytes unchanged |
| LegacyEncoding.Encoder.AddAnalogOutput | cayennelpp/encoder.go:75-80 | appends exactly the unit of the uint16 value, leaving earlier bytes unchanged |
| LegacyEncoding.Encoder.AddLuminosity | cayennelpp/encoder.go:82-86 | appends exactly the unit of the uint16 reading, leaving earlier bytes unchanged |
| LegacyEncoding.Encoder.AddPresence | cayennelpp/encoder.go:88-92 | appends exactly the unit of the reading, leaving earlier bytes unchanged |
| LegacyEncoding.Encoder.AddTemperature | cayennelpp/encoder.go:94-99 | appends exactly the unit of the uint16 value, leaving earlier bytes unchanged |
| LegacyEncoding.Encoder.AddRelativeHumidity | cayennelpp/encoder.go:101-105 | appends exactly the unit of the byte reading, leaving earlier bytes unchanged |
| LegacyEncoding.Encoder.AddAccelerometer | cayennelpp/encoder.go:107-116 | appends exactly the unit of the three uint16 axes, leaving earlier bytes unchanged |
| LegacyEncoding.Encoder.AddBarometricPressure | cayennelpp/encoder.go:118-123 | appends exactly the unit of the uint16 value, leaving earlier bytes unchanged |
| LegacyEncoding.Encoder.AddGyrometer | cayennelpp/encoder.go:125-134 | appends exactly the unit of the three uint16 axes, leaving earlier bytes unchanged |
| LegacyEncoding.Encoder.AddGPS | cayennelpp/encoder.go:136-151 | appends exactly the unit of the three uint32 coordinates (their low 24 bits), leaving earlier bytes unchanged |
| Vectors.SingleUnit | decoder.go:51-94 | a lone unit written for a well-formed reading decodes, with success, to that reading |
| Vectors.OneFieldUnit | encoder.go:66-115 | a one-field unit spelled out byte by byte is the reading's unit, and decodes back to it |
| Vectors.ThreeFieldUnit | encoder.go:117-161 | a three-field unit spelled out byte by byte is the reading's unit, and decodes back to it |
| Vectors.DigitalInputUnit | encoder_test.go:19-20 | digital input 255 on channel 1 is written as [1, 0, 255] and read back by both generations |
| Vectors.DigitalOutputUnit | encoder_test.go:22-23 | digital output 100 on channel 2 is [2, 1, 100], both ways |
| Vectors.AnalogInputUnit | encoder_test.go:25-26 | analog input 5450 (54.5) on channel 3 is [3, 2, 21, 74], both ways |
| Vectors.AnalogOutputUnit | encoder_test.go:28-29 | analog output -5450 (-54.5) on channel 4 is [4, 3, 234, 182], both ways |
| Vectors.LuminosityUnit | encoder_test.go:31-32 | luminosity 500 on channel 5 is [5, 101, 1, 244], both ways |
| Vectors.PresenceUnit | encoder_test.go:34-35 | presence 50 on channel 6 is [6, 102, 50], both ways |
| Vectors.TemperatureUnit | encoder_test.go:37-38 | temperature -156 (-15.6 °C) on channel 7 is [7, 103, 255, 100], both ways |
| Vectors.HumidityUnit | encoder_test.go:40-41 | humidity 99 (49.5 %) on channel 8 is [8, 104, 99], both ways |
| Vectors.AccelerometerUnit | encoder_test.go:43-44 | accelerometer (-424, 15, 1666) on channel 9 is [9, 113, 254, 88, 0, 15, 6, 130], both ways |
| Vectors.BarometerUnit | encoder_test.go:46-47 | pressure 10735 (1073.5 hPa) on channel 10 is [10, 115, 41, 239], both ways |
| Vectors.GyrometerUnit | encoder_test.go:49-50 | gyrometer (355, 561, -410) on channel 11 is [11, 134, 1, 99, 2, 49, 254, 102], both ways |
| Vectors.GpsUnit | encoder_test.go:52-53 | GPS (523655, 48885, 2154) on channel 12 is [12, 136, 7, 253, 135, 0, 190, 245, 0, 8, 106], both ways |
| Vectors.PhysicalReadings | cayennelpp/decoder_test.go:97-104 | the test's expected physical values of the one-field units: 54.5, -54.5, -15.6, 49.5, 1073.5 |
| Vectors.PhysicalAxes | cayennelpp/decoder_test.go:103-106 | the expected axes and coordinates: (-0.424, 0.015, 1.666), (3.55, 5.61, -4.10), (52.3655, 4.8885, 21.54) |
| Vectors.UnknownTypeVector | cayennelpp/decoder_test.go:124-134 | [1, 255, 255] fails with the unknown-type error after the header, delivering nothing |
| Vectors.TruncatedGpsVector | cayennelpp/decoder_test.go:136-146 | a GPS unit with 5 of its 9 payload bytes gives `io.ErrUnexpectedEOF` |
| Vectors.DownlinkVector | cayennelpp/decoder_test.go:108-122 | [1, 0, 100, 2, 234, 182] decodes to ports (1, 100) and (2, -5450), values 1 and -54.5 |
| Vectors.ShortDownlinkVector | cayennelpp/decoder_test.go:148-158 | [12, 1] gives `io.ErrUnexpectedEOF` |
| Vectors.TerminatorVector | decoder.go:106-108 | after one port, 0xFF ends the current decode with success; the legacy decoder reads it as a channel and runs out of value bytes |
| Vectors.EncodePortsVector | encoder_test.go:57-65 | the current encoder writes ports 54.5 and -54.5 as [1, 21, 74, 2, 234, 182] |
| Vectors.LegacyAnalogVector | cayennelpp/encoder_test.go:28-29 | the legacy encoder given the uint16 wrap of -5450 writes the same [4, 3, 234, 182] as the current one given -5450 |
| Vectors.DecodeDownlinkVector | cayennelpp/decoder_test.go:108-122 | the decoder object delivers ports (1, 100) and (2, -5450) from the downlink test stream, with success |
| Vectors.DecodeUplinkVector | decoder.go:51-94 | the decoder object delivers the temperature event of a complete unit, then fails with `io.ErrUnexpectedEOF` on a lone channel byte |
| Vectors.LegacyWrappedRoundTrip | cayennelpp/encoder.go:68-80 | a signed 2-byte reading written through its uint16 wrap is read back by the legacy decoder unchanged |
| Vectors.LegacyHumidityWraps | cayennelpp/decoder.go:173-180 | as written: a humidity byte of 128 or more comes back 256 too low |
| Vectors.LegacyHumidityExample | cayennelpp/decoder.go:173-180 | as written: 100 % is written as [8, 104, 200] and read back as -28 % |
| Vectors.CurrentHumidityRoundTrip | decoder.go:181-188 | every humidity byte comes back unchanged |
| Vectors.LegacyGpsLosesSign | cayennelpp/decoder.go:226-230 | as written: a coordinate in [-2^23, 0) comes back 2^24 too high |
| Vectors.LegacyGpsExample | cayennelpp/decoder.go:226-230 | as written: raw latitude -338688 comes back as 16438528 |
| Vectors.CurrentGpsKeepsSign | decoder.go:234-243 | every coordinate in [-2^23, 2^23) comes back unchanged, negative ones included |

## Left out

- Float scaling is left out, in the encoders (`int16(value * 100)` and the
  like) and in the decoders (`float64(val) / 100`, `float32(...)`). The
  encoders take the raw integer after scaling and conversion, typed as the
  Go integer type it is converted to. Decoded values are raw integers, and
  their physical value is the exact real `raw / scale` (`Uplink.Physical`,
  `Downlink.PortValue`).
- Go's conversion of a float outside the range of the target integer type is
  platform-dependent, and it is not modelled. This includes a negative
  reading given to the legacy encoder's `uint16`/`uint32` conversions. Such
  a reading is taken to arrive as its wrapped unsigned value.
- The `io.Reader` is a fixed sequence of bytes. Reader errors other than end
  of stream are not modelled.
- The target callbacks (`UplinkTarget`, `DownlinkTarget`) are modelled as
  the sequence of events or ports that a decode returns. A decode that fails
  returns the events delivered before the failure, which is what the
  callbacks had already received.
- `WriteTo`'s writer is modelled by the returned bytes; writer errors are not
  modelled. `Grow`'s capacity is not observable, so `Grow` is a no-op on
  contents.
- A failed 1-byte read cannot report an unexpected end of stream: a 1-byte
  read finds either nothing or everything. The model has no such case.
- Buffers.Buffer.Bytes: returns a copy of the contents. Go's `Bytes()`
  returns a slice that aliases the buffer, and that aliasing is not
  modelled.
- Buffers.Buffer.Grow: a negative count, a panic in Go, is excluded by the
  precondition rather than modelled as a panic (likewise the encoders'
  `Grow`).
- `NewDecoder` is modelled by the `Decoding.Decoder` constructor.
- The legacy encoder's interface does not list `Reset`, but its struct
  defines one. The model gives the class a `Reset`, as the struct has.
- The legacy encoder test file calls `AddVoltage`, `AddCurrent`,
  `AddFrequency`, `AddEnergy` and `AddPort`. The legacy encoder has none of
  these, so they are not modelled.
- The root package's channel constants are not part of this model. The type
  bytes are taken from `cayennelpp/channels.go`: the root constants are
  assumed to equal the legacy ones.
- The happy-flow uplink test stream is stated unit by unit
  (`Vectors.DigitalInputUnit` … `Vectors.GpsUnit`). `Uplink.DecodeAppend`
  and `Uplink.RoundTrip` give the whole concatenation from those units.
  The 59-byte literal stream is not restated as one lemma.
- Channels.Divisor: states only that each scale divisor is positive. The
  values themselves are checked against the test's expected readings by
  `Vectors.PhysicalReadings` and `Vectors.PhysicalAxes`.

## Findings

| source | as written | input that shows it | evidently intended | confidence | as-written member | corrected member |
|---|---|---|---|---|---|---|
| cayennelpp/decoder.go:173-180 | the humidity byte is read as `int8`, while the encoder writes it as `uint8` and the channel is documented as unsigned | 100 % is written as [8, 104, 200] and read back as -28 % | read the byte unsigned, as the current decoder does (decoder.go:181-188) | not executed | Vectors.LegacyHumidityWraps | Vectors.CurrentHumidityRoundTrip |
| cayennelpp/decoder.go:226-230 | the three GPS bytes are ORed into an `int32` without sign extension, so a southern latitude or western longitude, written as the low 24 bits of its wrapped value, is read back as a large positive number | latitude -33.8688 (raw -338688) is read back as 16438528 (1643.8528 degrees) | sign-extend the 24-bit field, as the current decoder does with its arithmetic shift (decoder.go:234-243) | not executed | Vectors.LegacyGpsLosesSign | Vectors.CurrentGpsKeepsSign |
