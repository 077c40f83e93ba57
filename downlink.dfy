/** The downlink wire format as a specification. A downlink stream is a
    concatenation of 3-byte units `[channel, value]`, the value a big-endian
    int16 holding the port value times 100. In the current generation a
    channel byte of 0xFF ends the stream; the legacy generation has no
    terminator. */
module Downlink {
  import opened Wire
  import opened Channels

  /** The channel byte that ends a current-generation downlink stream. */
  const Terminator: byte := 0xFF

  /** One decoded downlink unit: the channel byte and the raw int16 value. */
  datatype Port = Port(channel: byte, raw: int)

  /** What a downlink decode reports: the ports delivered, in stream order,
      how it ended, and how many bytes it took from the stream. */
  datatype PortsDecoded = PortsDecoded(ports: seq<Port>, outcome: Outcome, consumed: nat)

  /** The physical value of a port: raw / 100, exactly. */
  function PortValue(p: Port): (v: real)
    ensures v * 100.0 == p.raw as real
  {
    p.raw as real / 100.0
  }

  /** A port the encoder of generation g writes so that the decoder of the
      same generation reads it back: the value fits an int16, and in the
      current generation the channel is not the terminator. */
  predicate Fits(g: Generation, p: Port)
  {
    -0x8000 <= p.raw < 0x8000 && (g == Current ==> p.channel != Terminator)
  }

  /** The downlink decoder of generation g on the stream s. The stream may
      end cleanly only where a unit would start (or, in the current
      generation, at a terminator); a channel byte with no value after it
      gives end of stream, one with a single value byte an unexpected end. */
  function DecodeDownlink(g: Generation, s: seq<byte>): (r: PortsDecoded)
    ensures r.consumed <= |s|
    decreases |s|
  {
    if |s| == 0 then PortsDecoded([], Ok, 0)
    else if g == Current && s[0] == Terminator then PortsDecoded([], Ok, 1)
    else if |s| == 1 then PortsDecoded([], Eof, 1)
    else if |s| == 2 then PortsDecoded([], UnexpectedEof, 2)
    else
      assert Pow256(2) == 0x1_0000;
      var rest := DecodeDownlink(g, s[3..]);
      PortsDecoded([Port(s[0], TwosComplement(s[1..3]))] + rest.ports, rest.outcome, 3 + rest.consumed)
  }

  /** Every value a downlink decode delivers is an int16. */
  lemma {:induction false} DecodedPortsFit(g: Generation, s: seq<byte>)
    ensures forall p | p in DecodeDownlink(g, s).ports :: -0x8000 <= p.raw < 0x8000
    decreases |s|
  {
    if |s| >= 3 && !(g == Current && s[0] == Terminator) {
      DecodedPortsFit(g, s[3..]);
      assert Pow256(2) == 0x1_0000;
    }
  }

  /** The three bytes the encoder appends for one port. */
  function EncodePort(p: Port): (bs: seq<byte>)
    ensures |bs| == 3 && bs[0] == p.channel
  {
    [p.channel] + LowBytes(p.raw, 2)
  }

  function EncodePorts(ps: seq<Port>): (bs: seq<byte>)
    ensures |bs| == 3 * |ps|
  {
    if ps == [] then [] else EncodePort(ps[0]) + EncodePorts(ps[1..])
  }

  /** A unit written for a fitting port decodes to that port, and the
      decoder carries on with whatever follows it. */
  lemma PortUnit(g: Generation, p: Port, t: seq<byte>)
    requires Fits(g, p)
    ensures var rest := DecodeDownlink(g, t);
      DecodeDownlink(g, EncodePort(p) + t)
        == PortsDecoded([p] + rest.ports, rest.outcome, 3 + rest.consumed)
  {
    var s := EncodePort(p) + t;
    assert s[1..3] == LowBytes(p.raw, 2);
    assert Pow256(2) == 0x1_0000;
    TwosComplementRoundTrip(p.raw, 2);
    assert s[3..] == t;
  }

  /** Units written for fitting ports decode to those ports in order,
      whatever follows them. */
  lemma {:induction false} DownlinkAppend(g: Generation, ps: seq<Port>, t: seq<byte>)
    requires forall i :: 0 <= i < |ps| ==> Fits(g, ps[i])
    ensures var rest := DecodeDownlink(g, t);
      DecodeDownlink(g, EncodePorts(ps) + t)
        == PortsDecoded(ps + rest.ports, rest.outcome, 3 * |ps| + rest.consumed)
    decreases |ps|
  {
    var rest := DecodeDownlink(g, t);
    if ps == [] {
      assert EncodePorts(ps) + t == t;
      assert ps + rest.ports == rest.ports;
    } else {
      var u := EncodePorts(ps[1..]) + t;
      assert EncodePorts(ps) + t == EncodePort(ps[0]) + u;
      DownlinkAppend(g, ps[1..], t);
      PortUnit(g, ps[0], u);
      ConsAppend(ps, rest.ports);
    }
  }

  /** Round trip: the bytes written for fitting ports decode, with success
      and nothing left over, to exactly those ports. */
  lemma DownlinkRoundTrip(g: Generation, ps: seq<Port>)
    requires forall i :: 0 <= i < |ps| ==> Fits(g, ps[i])
    ensures DecodeDownlink(g, EncodePorts(ps)) == PortsDecoded(ps, Ok, 3 * |ps|)
  {
    DownlinkAppend(g, ps, []);
    assert EncodePorts(ps) + [] == EncodePorts(ps);
    assert ps + [] == ps;
  }

  /** In the current generation a terminator where a unit would start ends
      the decode with success, and nothing after it is read. */
  lemma TerminatorStops(ps: seq<Port>, t: seq<byte>)
    requires forall i :: 0 <= i < |ps| ==> Fits(Current, ps[i])
    ensures DecodeDownlink(Current, EncodePorts(ps) + ([Terminator] + t))
      == PortsDecoded(ps, Ok, 3 * |ps| + 1)
  {
    DownlinkAppend(Current, ps, [Terminator] + t);
    assert ps + [] == ps;
  }

  /** A port written on the terminator's channel is not a port to the
      current decoder: the decode stops there with success. */
  lemma TerminatorChannelEndsStream(raw: int, t: seq<byte>)
    ensures DecodeDownlink(Current, EncodePort(Port(Terminator, raw)) + t)
      == PortsDecoded([], Ok, 1)
  {
  }

  /** The legacy decoder, completely: it reads every byte of the stream,
      delivers one port per complete 3-byte unit, whose bytes are the
      encoding of those ports, and reports success exactly when no unit is
      cut short, end of stream when one channel byte is left over, an
      unexpected end when two bytes are. */
  lemma {:induction false} LegacyDownlink(s: seq<byte>)
    ensures var r := DecodeDownlink(Legacy, s);
      r.consumed == |s| && |r.ports| == |s| / 3 &&
      EncodePorts(r.ports) == s[..3 * (|s| / 3)] &&
      r.outcome == (if |s| % 3 == 0 then Ok else if |s| % 3 == 1 then Eof else UnexpectedEof)
    decreases |s|
  {
    if |s| >= 3 {
      var r, rest := DecodeDownlink(Legacy, s), DecodeDownlink(Legacy, s[3..]);
      LegacyDownlink(s[3..]);
      var p := r.ports[0];
      assert r.ports[1..] == rest.ports;
      assert Pow256(2) == 0x1_0000;
      TwosComplementResidue(s[1..3]);
      LowBytesOfBigEndian(p.raw, s[1..3]);
      assert EncodePort(p) == s[..3];
      assert s[3..][..3 * (|s[3..]| / 3)] == s[3..3 * (|s| / 3)];
      assert s[..3 * (|s| / 3)] == s[..3] + s[3..3 * (|s| / 3)];
    }
  }

  /** A successful current-generation decode delivers one port per 3-byte
      unit it read, none of which starts with the terminator, and stops
      either at the end of the stream on a unit boundary or right after a
      terminator in channel position. */
  lemma {:induction false} CurrentDownlinkOk(s: seq<byte>)
    ensures var r := DecodeDownlink(Current, s);
      r.outcome == Ok ==>
        |r.ports| == r.consumed / 3 &&
        (forall j :: 0 <= j < |r.ports| ==> s[3 * j] != Terminator) &&
        ((r.consumed == |s| && r.consumed % 3 == 0) ||
         (r.consumed % 3 == 1 && s[r.consumed - 1] == Terminator))
    decreases |s|
  {
    var r := DecodeDownlink(Current, s);
    if r.outcome == Ok && |s| >= 3 && s[0] != Terminator {
      var rest := DecodeDownlink(Current, s[3..]);
      CurrentDownlinkOk(s[3..]);
      assert r.ports[1..] == rest.ports;
      forall j | 0 <= j < |r.ports|
        ensures s[3 * j] != Terminator
      {
        if j > 0 {
          assert s[3 * j] == s[3..][3 * (j - 1)];
        }
      }
      if rest.consumed % 3 == 1 {
        assert s[r.consumed - 1] == s[3..][rest.consumed - 1];
      }
    }
  }

  /** Without a terminator where a unit would start, the current decoder
      does exactly what the legacy one does. */
  lemma {:induction false} CurrentWithoutTerminator(s: seq<byte>)
    requires forall j :: 0 <= j && 3 * j < |s| ==> s[3 * j] != Terminator
    ensures DecodeDownlink(Current, s) == DecodeDownlink(Legacy, s)
    decreases |s|
  {
    if |s| >= 3 {
      assert s[0] == s[3 * 0];
      forall j | 0 <= j && 3 * j < |s[3..]|
        ensures s[3..][3 * j] != Terminator
      {
        assert s[3..][3 * j] == s[3 * (j + 1)];
      }
      CurrentWithoutTerminator(s[3..]);
    } else if |s| > 0 {
      assert s[0] == s[3 * 0];
    }
  }
}
