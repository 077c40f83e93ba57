/** Worked examples: the units and streams of the repository's tests, proved
    against the specification functions; four methods whose contracts pass
    bytes through the encoder and decoder objects (`EncodePortsVector`,
    `LegacyAnalogVector`, `DecodeDownlinkVector`, and `DecodeUplinkVector`
    on a short stream of its own); and the two places where the legacy
    generation does not give back what it was given, beside the current
    generation's behaviour. */
module Vectors {
  import opened Wire
  import opened Channels
  import Uplink
  import Downlink
  import Decoding
  import Encoding
  import LegacyEncoding

  /** A unit that is the encoding of a reading the decoder of generation g
      can deliver decodes, on its own, to exactly that reading. */
  lemma SingleUnit(g: Generation, e: Uplink.Event, u: seq<byte>)
    requires Uplink.WellFormed(g, e) && Uplink.EncodeEvent(e) == u
    ensures Uplink.DecodeUplink(g, u) == Uplink.Decoded([e], Ok, |u|)
  {
    Uplink.EncodeEventsCons([e]);
    assert [e][1..] == [];
    assert Uplink.FramesOf([]) == [];
    assert Uplink.EncodeEvents([]) == [];
    assert Uplink.EncodeEvents([e]) == u + [] == u;
    Uplink.RoundTrip(g, [e]);
  }

  /** A one-field unit written byte by byte, in both directions. */
  lemma OneFieldUnit(g: Generation, channel: byte, t: Tag, v: int, u: seq<byte>)
    requires FieldCount(t) == 1 && Uplink.InRange(g, t, v)
    requires u == [channel, TagByte(t)] + LowBytes(v, FieldWidth(t))
    ensures Uplink.EncodeEvent(Uplink.Event(channel, t, [v])) == u
    ensures Uplink.DecodeUplink(g, u) == Uplink.Decoded([Uplink.Event(channel, t, [v])], Ok, |u|)
  {
    var e := Uplink.Event(channel, t, [v]);
    Uplink.UnitOfOne(e);
    SingleUnit(g, e, u);
  }

  /** A three-field unit written byte by byte, in both directions. */
  lemma ThreeFieldUnit(g: Generation, channel: byte, t: Tag, a: int, b: int, c: int, u: seq<byte>)
    requires FieldCount(t) == 3
    requires Uplink.InRange(g, t, a) && Uplink.InRange(g, t, b) && Uplink.InRange(g, t, c)
    requires u == [channel, TagByte(t)] + LowBytes(a, FieldWidth(t)) + LowBytes(b, FieldWidth(t)) + LowBytes(c, FieldWidth(t))
    ensures Uplink.EncodeEvent(Uplink.Event(channel, t, [a, b, c])) == u
    ensures Uplink.DecodeUplink(g, u) == Uplink.Decoded([Uplink.Event(channel, t, [a, b, c])], Ok, |u|)
  {
    var e := Uplink.Event(channel, t, [a, b, c]);
    Uplink.UnitOfThree(e);
    SingleUnit(g, e, u);
  }

  // ---------------------------------------------------------------------
  // The units of the uplink test stream, in both directions and both
  // generations.

  lemma DigitalInputUnit(g: Generation)
    ensures Uplink.EncodeEvent(Uplink.Event(1, DigitalInput, [255])) == [1, 0, 255]
    ensures Uplink.DecodeUplink(g, [1, 0, 255]) == Uplink.Decoded([Uplink.Event(1, DigitalInput, [255])], Ok, 3)
  {
    assert Pow256(1) == 256;
    OneFieldUnit(g, 1, DigitalInput, 255, [1, 0, 255]);
  }

  lemma DigitalOutputUnit(g: Generation)
    ensures Uplink.EncodeEvent(Uplink.Event(2, DigitalOutput, [100])) == [2, 1, 100]
    ensures Uplink.DecodeUplink(g, [2, 1, 100]) == Uplink.Decoded([Uplink.Event(2, DigitalOutput, [100])], Ok, 3)
  {
    assert Pow256(1) == 256;
    OneFieldUnit(g, 2, DigitalOutput, 100, [2, 1, 100]);
  }

  lemma AnalogInputUnit(g: Generation)
    ensures Uplink.EncodeEvent(Uplink.Event(3, AnalogInput, [5450])) == [3, 2, 21, 74]
    ensures Uplink.DecodeUplink(g, [3, 2, 21, 74]) == Uplink.Decoded([Uplink.Event(3, AnalogInput, [5450])], Ok, 4)
  {
    ShiftBytes2(5450);
    assert Pow256(2) == 65536;
    OneFieldUnit(g, 3, AnalogInput, 5450, [3, 2, 21, 74]);
  }

  lemma AnalogOutputUnit(g: Generation)
    ensures Uplink.EncodeEvent(Uplink.Event(4, AnalogOutput, [-5450])) == [4, 3, 234, 182]
    ensures Uplink.DecodeUplink(g, [4, 3, 234, 182]) == Uplink.Decoded([Uplink.Event(4, AnalogOutput, [-5450])], Ok, 4)
  {
    ShiftBytes2(-5450);
    assert Pow256(2) == 65536;
    OneFieldUnit(g, 4, AnalogOutput, -5450, [4, 3, 234, 182]);
  }

  lemma LuminosityUnit(g: Generation)
    ensures Uplink.EncodeEvent(Uplink.Event(5, Luminosity, [500])) == [5, 101, 1, 244]
    ensures Uplink.DecodeUplink(g, [5, 101, 1, 244]) == Uplink.Decoded([Uplink.Event(5, Luminosity, [500])], Ok, 4)
  {
    ShiftBytes2(500);
    assert Pow256(2) == 65536;
    OneFieldUnit(g, 5, Luminosity, 500, [5, 101, 1, 244]);
  }

  lemma PresenceUnit(g: Generation)
    ensures Uplink.EncodeEvent(Uplink.Event(6, Presence, [50])) == [6, 102, 50]
    ensures Uplink.DecodeUplink(g, [6, 102, 50]) == Uplink.Decoded([Uplink.Event(6, Presence, [50])], Ok, 3)
  {
    assert Pow256(1) == 256;
    OneFieldUnit(g, 6, Presence, 50, [6, 102, 50]);
  }

  lemma TemperatureUnit(g: Generation)
    ensures Uplink.EncodeEvent(Uplink.Event(7, Temperature, [-156])) == [7, 103, 255, 100]
    ensures Uplink.DecodeUplink(g, [7, 103, 255, 100]) == Uplink.Decoded([Uplink.Event(7, Temperature, [-156])], Ok, 4)
  {
    ShiftBytes2(-156);
    assert Pow256(2) == 65536;
    OneFieldUnit(g, 7, Temperature, -156, [7, 103, 255, 100]);
  }

  lemma HumidityUnit(g: Generation)
    ensures Uplink.EncodeEvent(Uplink.Event(8, RelativeHumidity, [99])) == [8, 104, 99]
    ensures Uplink.DecodeUplink(g, [8, 104, 99]) == Uplink.Decoded([Uplink.Event(8, RelativeHumidity, [99])], Ok, 3)
  {
    assert Pow256(1) == 256;
    OneFieldUnit(g, 8, RelativeHumidity, 99, [8, 104, 99]);
  }

  lemma AccelerometerUnit(g: Generation)
    ensures Uplink.EncodeEvent(Uplink.Event(9, Accelerometer, [-424, 15, 1666])) == [9, 113, 254, 88, 0, 15, 6, 130]
    ensures Uplink.DecodeUplink(g, [9, 113, 254, 88, 0, 15, 6, 130]) == Uplink.Decoded([Uplink.Event(9, Accelerometer, [-424, 15, 1666])], Ok, 8)
  {
    ShiftBytes2(-424);
    ShiftBytes2(15);
    ShiftBytes2(1666);
    assert Pow256(2) == 65536;
    ThreeFieldUnit(g, 9, Accelerometer, -424, 15, 1666, [9, 113, 254, 88, 0, 15, 6, 130]);
  }

  lemma BarometerUnit(g: Generation)
    ensures Uplink.EncodeEvent(Uplink.Event(10, BarometricPressure, [10735])) == [10, 115, 41, 239]
    ensures Uplink.DecodeUplink(g, [10, 115, 41, 239]) == Uplink.Decoded([Uplink.Event(10, BarometricPressure, [10735])], Ok, 4)
  {
    ShiftBytes2(10735);
    assert Pow256(2) == 65536;
    OneFieldUnit(g, 10, BarometricPressure, 10735, [10, 115, 41, 239]);
  }

  lemma GyrometerUnit(g: Generation)
    ensures Uplink.EncodeEvent(Uplink.Event(11, Gyrometer, [355, 561, -410])) == [11, 134, 1, 99, 2, 49, 254, 102]
    ensures Uplink.DecodeUplink(g, [11, 134, 1, 99, 2, 49, 254, 102]) == Uplink.Decoded([Uplink.Event(11, Gyrometer, [355, 561, -410])], Ok, 8)
  {
    ShiftBytes2(355);
    ShiftBytes2(561);
    ShiftBytes2(-410);
    assert Pow256(2) == 65536;
    ThreeFieldUnit(g, 11, Gyrometer, 355, 561, -410, [11, 134, 1, 99, 2, 49, 254, 102]);
  }

  lemma GpsUnit(g: Generation)
    ensures Uplink.EncodeEvent(Uplink.Event(12, Gps, [523655, 48885, 2154])) == [12, 136, 7, 253, 135, 0, 190, 245, 0, 8, 106]
    ensures Uplink.DecodeUplink(g, [12, 136, 7, 253, 135, 0, 190, 245, 0, 8, 106]) == Uplink.Decoded([Uplink.Event(12, Gps, [523655, 48885, 2154])], Ok, 11)
  {
    ShiftBytes3(523655);
    ShiftBytes3(48885);
    ShiftBytes3(2154);
    assert Pow256(3) == 16777216;
    ThreeFieldUnit(g, 12, Gps, 523655, 48885, 2154, [12, 136, 7, 253, 135, 0, 190, 245, 0, 8, 106]);
  }

  /** The physical readings the tests expect from those units. */
  lemma PhysicalReadings()
    ensures Uplink.Physical(Uplink.Event(3, AnalogInput, [5450])) == [54.5]
    ensures Uplink.Physical(Uplink.Event(4, AnalogOutput, [-5450])) == [-54.5]
    ensures Uplink.Physical(Uplink.Event(7, Temperature, [-156])) == [-15.6]
    ensures Uplink.Physical(Uplink.Event(8, RelativeHumidity, [99])) == [49.5]
    ensures Uplink.Physical(Uplink.Event(10, BarometricPressure, [10735])) == [1073.5]
  {
  }

  lemma PhysicalAxes()
    ensures Uplink.Physical(Uplink.Event(9, Accelerometer, [-424, 15, 1666])) == [-0.424, 0.015, 1.666]
    ensures Uplink.Physical(Uplink.Event(11, Gyrometer, [355, 561, -410])) == [3.55, 5.61, -4.10]
    ensures Uplink.Physical(Uplink.Event(12, Gps, [523655, 48885, 2154])) == [52.3655, 4.8885, 21.54]
  {
  }

  // ---------------------------------------------------------------------
  // Streams that stop early.

  /** A type byte outside the registry: the decode fails after the header. */
  lemma UnknownTypeVector(g: Generation)
    ensures Uplink.DecodeUplink(g, [1, 255, 255]) == Uplink.Decoded([], InvalidChannelType, 2)
  {
  }

  /** A GPS unit cut off after five of its nine payload bytes: the single
      payload read finds some bytes but not all. */
  lemma TruncatedGpsVector(g: Generation)
    ensures Uplink.DecodeUplink(g, [12, 136, 7, 253, 135, 0, 190]) == Uplink.Decoded([], UnexpectedEof, 7)
  {
    assert Uplink.Shortfall([9], 5) == UnexpectedEof;
  }

  /** Two ports, 1 and -54.5, in either generation. */
  lemma DownlinkVector(g: Generation)
    ensures Downlink.DecodeDownlink(g, [1, 0, 100, 2, 234, 182])
      == Downlink.PortsDecoded([Downlink.Port(1, 100), Downlink.Port(2, -5450)], Ok, 6)
    ensures Downlink.PortValue(Downlink.Port(1, 100)) == 1.0
    ensures Downlink.PortValue(Downlink.Port(2, -5450)) == -54.5
  {
    var s: seq<byte> := [1, 0, 100, 2, 234, 182];
    assert s[3..][3..] == [];
    assert BigEndian(s[1..3]) == 100 by {
      assert s[1..3][..1] == [0];
      assert [0][..0] == [];
    }
    assert BigEndian(s[3..][1..3]) == 60086 by {
      assert s[3..][1..3][..1] == [234];
      assert [234][..0] == [];
    }
  }

  /** A channel byte with one value byte after it: the value read finds
      some bytes but not all. */
  lemma ShortDownlinkVector(g: Generation)
    ensures Downlink.DecodeDownlink(g, [12, 1]) == Downlink.PortsDecoded([], UnexpectedEof, 2)
  {
  }

  /** The same bytes after a port: the current decoder stops cleanly at the
      terminator, the legacy one reads channel 255 and runs out of value. */
  lemma TerminatorVector()
    ensures Downlink.DecodeDownlink(Current, [1, 0, 100, 255, 7])
      == Downlink.PortsDecoded([Downlink.Port(1, 100)], Ok, 4)
    ensures Downlink.DecodeDownlink(Legacy, [1, 0, 100, 255, 7])
      == Downlink.PortsDecoded([Downlink.Port(1, 100)], UnexpectedEof, 5)
  {
    var s: seq<byte> := [1, 0, 100, 255, 7];
    assert s[3..] == [255, 7];
    assert BigEndian(s[1..3]) == 100 by {
      assert s[1..3][..1] == [0];
      assert [0][..0] == [];
    }
  }

  // ---------------------------------------------------------------------
  // The objects.

  /** The current encoder's downlink test: ports 54.5 and -54.5. */
  method EncodePortsVector() returns (bs: seq<byte>)
    ensures bs == [1, 21, 74, 2, 234, 182]
  {
    var e := new Encoding.Encoder();
    e.AddPort(1, 5450);
    e.AddPort(2, -5450);
    bs := e.Bytes();
    ShiftBytes2(5450);
    ShiftBytes2(-5450);
  }

  /** The legacy encoder given the uint16 that -54.5 * 100 wraps to writes
      the same unit as the current encoder given the int16 -5450. */
  method LegacyAnalogVector() returns (legacy: seq<byte>, current: seq<byte>)
    ensures legacy == current == [4, 3, 234, 182]
  {
    var l := new LegacyEncoding.Encoder();
    l.AddAnalogOutput(4, 0x1_0000 - 5450);
    legacy := l.Bytes();
    var c := new Encoding.Encoder();
    c.AddAnalogOutput(4, -5450);
    current := c.Bytes();
    Uplink.UnitOfOne(Uplink.Event(4, AnalogOutput, [0x1_0000 - 5450]));
    Uplink.UnitOfOne(Uplink.Event(4, AnalogOutput, [-5450]));
    ShiftBytes2(0x1_0000 - 5450);
    ShiftBytes2(-5450);
  }

  /** The decoder object on the downlink test stream. */
  method DecodeDownlinkVector(g: Generation) returns (ports: seq<Downlink.Port>, o: Outcome)
    ensures ports == [Downlink.Port(1, 100), Downlink.Port(2, -5450)] && o == Ok
  {
    var s: seq<byte> := [1, 0, 100, 2, 234, 182];
    var d := new Decoding.Decoder(g, s);
    ports, o := d.DecodeDownlink();
    assert s[0..] == s;
    DownlinkVector(g);
  }

  /** The decoder object on a temperature unit followed by a stray header byte. */
  method DecodeUplinkVector(g: Generation) returns (events: seq<Uplink.Event>, o: Outcome)
    ensures events == [Uplink.Event(7, Temperature, [-156])] && o == UnexpectedEof
  {
    var s: seq<byte> := [7, 103, 255, 100, 8];
    var d := new Decoding.Decoder(g, s);
    events, o := d.DecodeUplink();
    assert s[0..] == s;
    var e := Uplink.Event(7, Temperature, [-156]);
    TemperatureUnit(g);
    Uplink.DecodeAppend(g, [e], [8]);
    Uplink.EncodeEventsCons([e]);
    assert [e][1..] == [];
    assert s == Uplink.EncodeEvents([e]) + [8];
  }

  /** The legacy encoder writes a 2-byte signed reading through its uint16
      wrap-around; the legacy decoder reads the field as int16, so the
      reading comes back unchanged. */
  lemma LegacyWrappedRoundTrip(channel: byte, t: Tag, v: int)
    requires FieldCount(t) == 1 && FieldWidth(t) == 2 && FieldSigned(Legacy, t)
    requires -0x8000 <= v < 0x8000
    ensures Uplink.DecodeUplink(Legacy, Uplink.EncodeEvent(Uplink.Event(channel, t, [v % 0x1_0000])))
      == Uplink.Decoded([Uplink.Event(channel, t, [v])], Ok, 4)
  {
    var e := Uplink.Event(channel, t, [v % 0x1_0000]);
    var w := Uplink.Event(channel, t, [v]);
    assert Pow256(2) == 0x1_0000;
    Uplink.UnitOfOne(e);
    Uplink.UnitOfOne(w);
    LowBytesCongruent(v % 0x1_0000, v, 2);
    SingleUnit(Legacy, w, Uplink.EncodeEvent(e));
  }

  // ---------------------------------------------------------------------
  // Findings.

  /** Legacy humidity, as written: the encoder writes the scaled percentage
      as an unsigned byte and the decoder reads it back as a signed one, so
      every reading above 63.5 % comes back 128 % too low. 100 % is written
      as [8, 104, 200] and read as -28 %. */
  lemma LegacyHumidityWraps(channel: byte, raw: int)
    requires 128 <= raw < 256
    ensures Uplink.DecodeUplink(Legacy, Uplink.EncodeEvent(Uplink.Event(channel, RelativeHumidity, [raw])))
      == Uplink.Decoded([Uplink.Event(channel, RelativeHumidity, [raw - 256])], Ok, 3)
  {
    var e := Uplink.Event(channel, RelativeHumidity, [raw]);
    var w := Uplink.Event(channel, RelativeHumidity, [raw - 256]);
    Uplink.UnitOfOne(e);
    Uplink.UnitOfOne(w);
    LowBytesCongruent(raw, raw - 256, 1);
    SingleUnit(Legacy, w, Uplink.EncodeEvent(e));
  }

  lemma LegacyHumidityExample()
    ensures Uplink.EncodeEvent(Uplink.Event(8, RelativeHumidity, [200])) == [8, 104, 200]
    ensures Uplink.DecodeUplink(Legacy, [8, 104, 200])
      == Uplink.Decoded([Uplink.Event(8, RelativeHumidity, [-56])], Ok, 3)
    ensures Uplink.Physical(Uplink.Event(8, RelativeHumidity, [-56])) == [-28.0]
  {
    Uplink.UnitOfOne(Uplink.Event(8, RelativeHumidity, [200]));
    LegacyHumidityWraps(8, 200);
  }

  /** Current humidity: read as unsigned, every byte the encoder can write
      comes back unchanged. */
  lemma CurrentHumidityRoundTrip(channel: byte, raw: int)
    requires 0 <= raw < 256
    ensures Uplink.DecodeUplink(Current, Uplink.EncodeEvent(Uplink.Event(channel, RelativeHumidity, [raw])))
      == Uplink.Decoded([Uplink.Event(channel, RelativeHumidity, [raw])], Ok, 3)
  {
    var e := Uplink.Event(channel, RelativeHumidity, [raw]);
    SingleUnit(Current, e, Uplink.EncodeEvent(e));
  }

  /** Legacy GPS, as written: a coordinate below zero reaches the encoder
      as its uint32 wrap-around, the low three bytes are written, and the
      decoder reads them without sign extension, so the coordinate comes
      back 2^24 too high. Latitude -33.8688 (raw -338688) is read as
      16438528. */
  lemma LegacyGpsLosesSign(channel: byte, latitude: int)
    requires -0x80_0000 <= latitude < 0
    ensures Uplink.DecodeUplink(Legacy,
        Uplink.EncodeEvent(Uplink.Event(channel, Gps, [latitude + 0x1_0000_0000, 0, 0])))
      == Uplink.Decoded([Uplink.Event(channel, Gps, [latitude + 0x100_0000, 0, 0])], Ok, 11)
  {
    var e := Uplink.Event(channel, Gps, [latitude + 0x1_0000_0000, 0, 0]);
    var w := Uplink.Event(channel, Gps, [latitude + 0x100_0000, 0, 0]);
    Uplink.UnitOfThree(e);
    Uplink.UnitOfThree(w);
    assert Pow256(3) == 0x100_0000;
    LowBytesCongruent(latitude + 0x1_0000_0000, latitude + 0x100_0000, 3);
    SingleUnit(Legacy, w, Uplink.EncodeEvent(e));
  }

  lemma LegacyGpsExample()
    ensures Uplink.DecodeUplink(Legacy, Uplink.EncodeEvent(Uplink.Event(12, Gps, [0x1_0000_0000 - 338688, 0, 0])))
      == Uplink.Decoded([Uplink.Event(12, Gps, [16438528, 0, 0])], Ok, 11)
  {
    LegacyGpsLosesSign(12, -338688);
  }

  /** Current GPS: the encoder keeps the sign in the int32 it writes the low
      bytes of, and the decoder sign-extends them, so every coordinate of
      the 24-bit range comes back unchanged, southern and western ones
      included. */
  lemma CurrentGpsKeepsSign(channel: byte, latitude: int, longitude: int, altitude: int)
    requires -0x80_0000 <= latitude < 0x80_0000
    requires -0x80_0000 <= longitude < 0x80_0000
    requires -0x80_0000 <= altitude < 0x80_0000
    ensures var e := Uplink.Event(channel, Gps, [latitude, longitude, altitude]);
      Uplink.DecodeUplink(Current, Uplink.EncodeEvent(e)) == Uplink.Decoded([e], Ok, 11)
  {
    var e := Uplink.Event(channel, Gps, [latitude, longitude, altitude]);
    assert Pow256(3) == 0x100_0000;
    SingleUnit(Current, e, Uplink.EncodeEvent(e));
  }
}
