/** The current encoder: a buffer that each `Add` call appends one unit to.
    Every `Add` takes the integer that the code computes from its argument
    (the float scaled by the type's factor and converted to the Go integer
    type of the field) and is proved to append exactly the unit the uplink
    or downlink specification gives for that reading. */
module Encoding {
  import opened Wire
  import opened Channels
  import Buffers
  import Uplink
  import Downlink

  class Encoder {
    /** The buffer the units are written into. */
    const buf: Buffers.Buffer

    /** A new encoder over a new, empty buffer. */
    constructor ()
      ensures fresh(buf) && buf.data == []
    {
      buf := new Buffers.Buffer();
    }

    /** Reserves room for n more bytes; nothing observable changes. */
    method Grow(n: int)
      requires n >= 0
      ensures buf.data == old(buf.data)
    {
      buf.Grow(n);
    }

    /** The units written so far. */
    method Bytes() returns (bs: seq<byte>)
      ensures bs == buf.data
    {
      bs := buf.Bytes();
    }

    /** Discards everything written so far. */
    method Reset()
      modifies buf
      ensures buf.data == []
    {
      buf.Reset();
    }

    /** Hands everything written so far to a writer, leaving the encoder empty. */
    method WriteTo() returns (written: seq<byte>, n: int)
      modifies buf
      ensures written == old(buf.data) && n == |written| && buf.data == []
    {
      written, n := buf.WriteTo();
    }

    /** A downlink unit: the channel, then the value (already scaled by 100
        and converted to int16) as two big-endian bytes. */
    method AddPort(channel: byte, val: int16)
      modifies buf
      ensures buf.data == old(buf.data) + Downlink.EncodePort(Downlink.Port(channel, val))
    {
      buf.WriteByte(channel);
      buf.WriteBigEndian16(val);
    }

    /** A digital input unit: the value byte as given. */
    method AddDigitalInput(channel: byte, val: byte)
      modifies buf
      ensures buf.data == old(buf.data) + Uplink.EncodeEvent(Uplink.Event(channel, DigitalInput, [val]))
    {
      ghost var before := buf.data;
      buf.WriteByte(channel);
      buf.WriteByte(TagByte(DigitalInput));
      buf.WriteByte(val);
      Uplink.AppendUnitOfOne(before, channel, DigitalInput, val);
    }

    /** A digital output unit: the value byte as given. */
    method AddDigitalOutput(channel: byte, val: byte)
      modifies buf
      ensures buf.data == old(buf.data) + Uplink.EncodeEvent(Uplink.Event(channel, DigitalOutput, [val]))
    {
      ghost var before := buf.data;
      buf.WriteByte(channel);
      buf.WriteByte(TagByte(DigitalOutput));
      buf.WriteByte(val);
      Uplink.AppendUnitOfOne(before, channel, DigitalOutput, val);
    }

    /** An analog input unit: the value scaled by 100 and converted to int16, two bytes big-endian. */
    method AddAnalogInput(channel: byte, val: int16)
      modifies buf
      ensures buf.data == old(buf.data) + Uplink.EncodeEvent(Uplink.Event(channel, AnalogInput, [val]))
    {
      ghost var before := buf.data;
      buf.WriteByte(channel);
      buf.WriteByte(TagByte(AnalogInput));
      buf.WriteBigEndian16(val);
      Uplink.AppendUnitOfOne(before, channel, AnalogInput, val);
    }

    /** An analog output unit: the value scaled by 100 and converted to int16, two bytes big-endian. */
    method AddAnalogOutput(channel: byte, val: int16)
      modifies buf
      ensures buf.data == old(buf.data) + Uplink.EncodeEvent(Uplink.Event(channel, AnalogOutput, [val]))
    {
      ghost var before := buf.data;
      buf.WriteByte(channel);
      buf.WriteByte(TagByte(AnalogOutput));
      buf.WriteBigEndian16(val);
      Uplink.AppendUnitOfOne(before, channel, AnalogOutput, val);
    }

    /** A luminosity unit: the lux count as given, two bytes big-endian. */
    method AddLuminosity(channel: byte, val: uint16)
      modifies buf
      ensures buf.data == old(buf.data) + Uplink.EncodeEvent(Uplink.Event(channel, Luminosity, [val]))
    {
      ghost var before := buf.data;
      buf.WriteByte(channel);
      buf.WriteByte(TagByte(Luminosity));
      buf.WriteBigEndian16(val);
      Uplink.AppendUnitOfOne(before, channel, Luminosity, val);
    }

    /** A presence unit: the value byte as given. */
    method AddPresence(channel: byte, val: byte)
      modifies buf
      ensures buf.data == old(buf.data) + Uplink.EncodeEvent(Uplink.Event(channel, Presence, [val]))
    {
      ghost var before := buf.data;
      buf.WriteByte(channel);
      buf.WriteByte(TagByte(Presence));
      buf.WriteByte(val);
      Uplink.AppendUnitOfOne(before, channel, Presence, val);
    }

    /** A temperature unit: degrees Celsius scaled by 10 and converted to int16, two bytes big-endian. */
    method AddTemperature(channel: byte, val: int16)
      modifies buf
      ensures buf.data == old(buf.data) + Uplink.EncodeEvent(Uplink.Event(channel, Temperature, [val]))
    {
      ghost var before := buf.data;
      buf.WriteByte(channel);
      buf.WriteByte(TagByte(Temperature));
      buf.WriteBigEndian16(val);
      Uplink.AppendUnitOfOne(before, channel, Temperature, val);
    }

    /** A humidity unit: the percentage scaled by 2 and converted to uint8, one byte. */
    method AddRelativeHumidity(channel: byte, val: byte)
      modifies buf
      ensures buf.data == old(buf.data) + Uplink.EncodeEvent(Uplink.Event(channel, RelativeHumidity, [val]))
    {
      ghost var before := buf.data;
      buf.WriteByte(channel);
      buf.WriteByte(TagByte(RelativeHumidity));
      buf.WriteByte(val);
      Uplink.AppendUnitOfOne(before, channel, RelativeHumidity, val);
    }

    /** An accelerometer unit: each axis in g scaled by 1000 and converted to int16, two bytes big-endian each. */
    method AddAccelerometer(channel: byte, x: int16, y: int16, z: int16)
      modifies buf
      ensures buf.data == old(buf.data) + Uplink.EncodeEvent(Uplink.Event(channel, Accelerometer, [x, y, z]))
    {
      ghost var before := buf.data;
      buf.WriteByte(channel);
      buf.WriteByte(TagByte(Accelerometer));
      buf.WriteBigEndian16(x);
      buf.WriteBigEndian16(y);
      buf.WriteBigEndian16(z);
      Uplink.AppendUnitOfThree(before, channel, Accelerometer, x, y, z);
    }

    /** A barometric pressure unit: hPa scaled by 10 and converted to int16, two bytes big-endian. */
    method AddBarometricPressure(channel: byte, val: int16)
      modifies buf
      ensures buf.data == old(buf.data) + Uplink.EncodeEvent(Uplink.Event(channel, BarometricPressure, [val]))
    {
      ghost var before := buf.data;
      buf.WriteByte(channel);
      buf.WriteByte(TagByte(BarometricPressure));
      buf.WriteBigEndian16(val);
      Uplink.AppendUnitOfOne(before, channel, BarometricPressure, val);
    }

    /** A gyrometer unit: each axis in degrees per second scaled by 100 and converted to int16, two bytes big-endian each. */
    method AddGyrometer(channel: byte, x: int16, y: int16, z: int16)
      modifies buf
      ensures buf.data == old(buf.data) + Uplink.EncodeEvent(Uplink.Event(channel, Gyrometer, [x, y, z]))
    {
      ghost var before := buf.data;
      buf.WriteByte(channel);
      buf.WriteByte(TagByte(Gyrometer));
      buf.WriteBigEndian16(x);
      buf.WriteBigEndian16(y);
      buf.WriteBigEndian16(z);
      Uplink.AppendUnitOfThree(before, channel, Gyrometer, x, y, z);
    }

    /** A GPS unit: latitude and longitude in degrees scaled by 10000 and altitude in metres scaled by 100, each converted to int32, of which the low three bytes are written, high first. */
    method AddGPS(channel: byte, latitude: int32, longitude: int32, altitude: int32)
      modifies buf
      ensures buf.data == old(buf.data) + Uplink.EncodeEvent(Uplink.Event(channel, Gps, [latitude, longitude, altitude]))
    {
      ghost var before := buf.data;
      buf.WriteByte(channel);
      buf.WriteByte(TagByte(Gps));
      buf.WriteBigEndian24(latitude);
      buf.WriteBigEndian24(longitude);
      buf.WriteBigEndian24(altitude);
      Uplink.AppendUnitOfThree(before, channel, Gps, latitude, longitude, altitude);
    }
  }
}
