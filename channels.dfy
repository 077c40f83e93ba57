/** The registry of channel types: for each type byte, how many fields a
    unit carries, how wide each field is on the wire, how the decoder reads
    them, whether they are signed, and the divisor that turns a raw field
    into its physical unit. */
module Channels {
  import opened Wire

  datatype Option<T> = None | Some(value: T)

  /** The two generations of the codec: the legacy package (float32 values,
      signed humidity byte, no GPS sign extension, no downlink terminator)
      and the current one (float64 values, unsigned humidity byte,
      sign-extended GPS, 0xFF terminates a downlink stream). */
  datatype Generation = Legacy | Current

  /** The twelve registered channel types. */
  datatype Tag =
    | DigitalInput | DigitalOutput | AnalogInput | AnalogOutput
    | Luminosity | Presence | Temperature | RelativeHumidity
    | Accelerometer | BarometricPressure | Gyrometer | Gps

  /** The type byte written after the channel byte of an uplink unit. */
  function TagByte(t: Tag): byte
  {
    match t
    case DigitalInput => 0
    case DigitalOutput => 1
    case AnalogInput => 2
    case AnalogOutput => 3
    case Luminosity => 101
    case Presence => 102
    case Temperature => 103
    case RelativeHumidity => 104
    case Accelerometer => 113
    case BarometricPressure => 115
    case Gyrometer => 134
    case Gps => 136
  }

  /** The decoder's dispatch on the type byte: the registered type it names,
      or None for any other byte. */
  function TagOf(b: byte): (r: Option<Tag>)
    ensures r.Some? ==> TagByte(r.value) == b
  {
    if b == 0 then Some(DigitalInput)
    else if b == 1 then Some(DigitalOutput)
    else if b == 2 then Some(AnalogInput)
    else if b == 3 then Some(AnalogOutput)
    else if b == 101 then Some(Luminosity)
    else if b == 102 then Some(Presence)
    else if b == 103 then Some(Temperature)
    else if b == 104 then Some(RelativeHumidity)
    else if b == 113 then Some(Accelerometer)
    else if b == 115 then Some(BarometricPressure)
    else if b == 134 then Some(Gyrometer)
    else if b == 136 then Some(Gps)
    else None
  }

  /** Number of scalar fields in a unit of type t. */
  function FieldCount(t: Tag): nat
  {
    match t
    case Accelerometer | Gyrometer | Gps => 3
    case _ => 1
  }

  /** Width in bytes of each field of a unit of type t. */
  function FieldWidth(t: Tag): nat
  {
    match t
    case DigitalInput | DigitalOutput | Presence | RelativeHumidity => 1
    case Gps => 3
    case _ => 2
  }

  /** The reads the decoder issues for the payload, in order: one read per
      field, except GPS, whose nine bytes are fetched by a single read. The
      split matters for which end-of-stream error a short payload gives. */
  function ReadSizes(t: Tag): seq<nat>
  {
    match t
    case Gps => [9]
    case Accelerometer | Gyrometer => [2, 2, 2]
    case _ => [FieldWidth(t)]
  }

  function Sum(xs: seq<nat>): nat
  {
    if xs == [] then 0 else xs[0] + Sum(xs[1..])
  }

  /** Bytes that follow the two header bytes of a unit of type t. */
  function PayloadWidth(t: Tag): (w: nat)
    ensures w == Sum(ReadSizes(t))
    ensures forall i :: 0 <= i < |ReadSizes(t)| ==> ReadSizes(t)[i] > 0
  {
    match t
    case DigitalInput | DigitalOutput | Presence | RelativeHumidity => 1
    case Accelerometer | Gyrometer =>
      assert [2, 2, 2][1..] == [2, 2] && [2, 2][1..] == [2];
      6
    case Gps => 9
    case _ => 2
  }

  /** Whether a field of type t is read as two's complement. Humidity is an
      unsigned byte in the current generation and a signed one in the legacy
      generation; GPS fields are sign-extended only in the current one. The
      barometric field is documented as unsigned but both generations read
      it as int16. */
  function FieldSigned(g: Generation, t: Tag): bool
  {
    match t
    case DigitalInput | DigitalOutput | Presence | Luminosity => false
    case RelativeHumidity => g == Legacy
    case Gps => g == Current
    case _ => true
  }

  /** Physical value = raw / Divisor(t, i) for field i of a unit of type t. */
  function Divisor(t: Tag, i: nat): (d: nat)
    ensures d > 0
  {
    match t
    case DigitalInput | DigitalOutput | Presence | Luminosity => 1
    case AnalogInput | AnalogOutput | Gyrometer => 100
    case Temperature | BarometricPressure => 10
    case RelativeHumidity => 2
    case Accelerometer => 1000
    case Gps => if i < 2 then 10000 else 100
  }

  /** The payload is the type's fields laid end to end. */
  lemma PayloadIsFields(t: Tag)
    ensures PayloadWidth(t) == FieldCount(t) * FieldWidth(t)
  {
  }

  /** The registered type bytes are exactly these twelve values; in
      particular 255 is not one of them. */
  lemma TagBytes(b: byte)
    ensures TagOf(b).Some? <==> b in {0, 1, 2, 3, 101, 102, 103, 104, 113, 115, 134, 136}
  {
  }

  /** Distinct types have distinct type bytes, and dispatch recovers the type. */
  lemma TagOfTagByte(t: Tag)
    ensures TagOf(TagByte(t)) == Some(t)
  {
  }
}
