/** The uplink wire format as a specification. A stream is a concatenation
    of units `[channel, type, payload]`, the payload a fixed number of
    big-endian fields determined by the type. The specification has two
    layers: `SplitFrames` cuts a stream into units and says how the decode
    stops (the same in both generations), and `DecodeUplink` reads the
    fields of each unit (where the generations differ). `EncodeEvent` says
    what the encoder appends for one reading. The lemmas connect the two
    directions. */
module Uplink {
  import opened Wire
  import opened Channels

  /** One decoded unit: the channel byte, the registered type, and the raw
      integer fields in the order the type's target callback receives them
      (x, y, z for the three-axis sensors; latitude, longitude, altitude for GPS). */
  datatype Event = Event(channel: byte, tag: Tag, raw: seq<int>)

  /** What a decode reports: the events delivered, in stream order, how it
      ended, and how many bytes it took from the stream. */
  datatype Decoded = Decoded(events: seq<Event>, outcome: Outcome, consumed: nat)

  /** A unit of the stream before its fields are read. */
  datatype Frame = Frame(channel: byte, tag: Tag, payload: seq<byte>)

  /** The units at the head of a stream, how the cut ended, and how many
      bytes it took. */
  datatype Framed = Framed(frames: seq<Frame>, outcome: Outcome, consumed: nat)

  /** A unit whose payload has the width its type calls for. */
  predicate Complete(f: Frame)
  {
    |f.payload| == PayloadWidth(f.tag)
  }

  /** The raw values a field of type t can take in generation g. */
  predicate InRange(g: Generation, t: Tag, v: int)
  {
    var p := Pow256(FieldWidth(t));
    if FieldSigned(g, t) then -p / 2 <= v < p / 2 else 0 <= v < p
  }

  /** An event the encoder can write: one raw value per field. */
  predicate Shaped(e: Event)
  {
    |e.raw| == FieldCount(e.tag)
  }

  /** An event the decoder of generation g can deliver: one raw value per
      field, each within the field's range. */
  predicate WellFormed(g: Generation, e: Event)
  {
    Shaped(e) && forall i :: 0 <= i < |e.raw| ==> InRange(g, e.tag, e.raw[i])
  }

  /** The physical readings of an event: raw / scale, exactly. */
  function Physical(e: Event): (vs: seq<real>)
    ensures |vs| == |e.raw|
    ensures forall i :: 0 <= i < |vs| ==> vs[i] * Divisor(e.tag, i) as real == e.raw[i] as real
  {
    seq(|e.raw|, i requires 0 <= i < |e.raw| => e.raw[i] as real / Divisor(e.tag, i) as real)
  }

  // ---------------------------------------------------------------------
  // Fields.

  /** How the decoder of generation g reads one field of type t: the one
      value of the field's range whose low bytes are the field's bytes. */
  function FieldValue(g: Generation, t: Tag, bs: seq<byte>): (v: int)
    requires |bs| == FieldWidth(t)
    ensures InRange(g, t, v)
  {
    if t == Gps then GpsField(g, bs)
    else if FieldSigned(g, t) then TwosComplement(bs)
    else BigEndian(bs)
  }

  /** A GPS coordinate, computed the way each generation's code does it: a
      shift that sign-extends in the current one, shifts and ORs that do not
      in the legacy one. */
  function GpsField(g: Generation, bs: seq<byte>): (v: int)
    requires |bs| == 3
    ensures InRange(g, Gps, v)
  {
    if g == Current then
      ShiftedInt24SignExtends(bs);
      ShiftedInt24(bs)
    else
      OredInt24IsUnsigned(bs);
      OredInt24(bs)
  }

  /** Whatever the generation and type, the value read from a field keeps
      the field's bits: its low bytes are the field. */
  lemma FieldResidue(g: Generation, t: Tag, bs: seq<byte>)
    requires |bs| == FieldWidth(t)
    ensures FieldValue(g, t, bs) % Pow256(|bs|) == BigEndian(bs)
  {
    if t == Gps && g == Current {
      ShiftedInt24SignExtends(bs);
      TwosComplementResidue(bs);
    } else if t == Gps {
      OredInt24IsUnsigned(bs);
      DivModUnique(BigEndian(bs), Pow256(3), 0, BigEndian(bs));
    } else if FieldSigned(g, t) {
      TwosComplementResidue(bs);
    } else {
      DivModUnique(BigEndian(bs), Pow256(|bs|), 0, BigEndian(bs));
    }
  }

  /** The raw fields of a payload of type t, one per field, in order. */
  function Fields(g: Generation, t: Tag, p: seq<byte>): (raw: seq<int>)
    requires |p| == PayloadWidth(t)
    ensures |raw| == FieldCount(t)
    ensures forall i :: 0 <= i < |raw| ==> InRange(g, t, raw[i])
  {
    match t
    case Accelerometer | Gyrometer =>
      [FieldValue(g, t, p[..2]), FieldValue(g, t, p[2..4]), FieldValue(g, t, p[4..])]
    case Gps =>
      [FieldValue(g, t, p[..3]), FieldValue(g, t, p[3..6]), FieldValue(g, t, p[6..])]
    case _ => [FieldValue(g, t, p)]
  }

  /** The payload the encoder writes for raw fields of width w: each value's
      low w bytes, big-endian, in order. */
  function Pack(raw: seq<int>, w: nat): (p: seq<byte>)
    ensures |p| == |raw| * w
  {
    if raw == [] then [] else LowBytes(raw[0], w) + Pack(raw[1..], w)
  }

  /** The event the decoder of generation g delivers for a complete unit. */
  function EventOf(g: Generation, f: Frame): (e: Event)
    requires Complete(f)
    ensures WellFormed(g, e)
    ensures e.channel == f.channel && e.tag == f.tag
  {
    Event(f.channel, f.tag, Fields(g, f.tag, f.payload))
  }

  /** The unit the encoder writes for a reading, before it is flattened to bytes. */
  function FrameOf(e: Event): (f: Frame)
    ensures Shaped(e) ==> Complete(f)
    ensures f.channel == e.channel && f.tag == e.tag
  {
    PayloadIsFields(e.tag);
    Frame(e.channel, e.tag, Pack(e.raw, FieldWidth(e.tag)))
  }

  // ---------------------------------------------------------------------
  // Bytes.

  function EncodeFrame(f: Frame): (bs: seq<byte>)
    ensures |bs| == 2 + |f.payload|
  {
    [f.channel, TagByte(f.tag)] + f.payload
  }

  function EncodeFrames(fs: seq<Frame>): seq<byte>
  {
    if fs == [] then [] else EncodeFrame(fs[0]) + EncodeFrames(fs[1..])
  }

  function FramesOf(es: seq<Event>): (fs: seq<Frame>)
    ensures |fs| == |es|
  {
    seq(|es|, i requires 0 <= i < |es| => FrameOf(es[i]))
  }

  /** The unit the encoder appends for one reading. */
  function EncodeEvent(e: Event): (bs: seq<byte>)
    ensures Shaped(e) ==> |bs| == 2 + PayloadWidth(e.tag)
  {
    EncodeFrame(FrameOf(e))
  }

  /** The units of a sequence of readings, in order. */
  function EncodeEvents(es: seq<Event>): seq<byte>
  {
    EncodeFrames(FramesOf(es))
  }

  /** The unit of a one-field reading: channel, type byte, then the field's
      low bytes. */
  lemma UnitOfOne(e: Event)
    requires |e.raw| == 1
    ensures EncodeEvent(e) == [e.channel, TagByte(e.tag)] + LowBytes(e.raw[0], FieldWidth(e.tag))
  {
    assert Pack(e.raw, FieldWidth(e.tag)) == LowBytes(e.raw[0], FieldWidth(e.tag)) + [];
  }

  /** The unit of a three-field reading: channel, type byte, then the low
      bytes of each field in turn. */
  lemma UnitOfThree(e: Event)
    requires |e.raw| == 3
    ensures var w := FieldWidth(e.tag);
      EncodeEvent(e)
        == [e.channel, TagByte(e.tag)] + LowBytes(e.raw[0], w) + LowBytes(e.raw[1], w) + LowBytes(e.raw[2], w)
  {
    var w := FieldWidth(e.tag);
    var a, b, c := LowBytes(e.raw[0], w), LowBytes(e.raw[1], w), LowBytes(e.raw[2], w);
    assert e.raw[1..][1..][1..] == [];
    assert Pack(e.raw[1..][1..], w) == c + [] == c;
    assert Pack(e.raw[1..], w) == b + c;
    assert Pack(e.raw, w) == a + (b + c);
    assert [e.channel, TagByte(e.tag)] + (a + (b + c)) == [e.channel, TagByte(e.tag)] + a + b + c;
  }

  /** Appending the channel, the type byte and then the field bytes one
      write at a time appends the unit of a one-field reading. */
  lemma AppendUnitOfOne(before: seq<byte>, channel: byte, t: Tag, v: int)
    ensures before + [channel] + [TagByte(t)] + LowBytes(v, FieldWidth(t))
      == before + EncodeEvent(Event(channel, t, [v]))
  {
    UnitOfOne(Event(channel, t, [v]));
    AppendPair(before, channel, TagByte(t), LowBytes(v, FieldWidth(t)));
  }

  /** Appending the channel, the type byte and then each field's bytes one
      write at a time appends the unit of a three-field reading. */
  lemma AppendUnitOfThree(before: seq<byte>, channel: byte, t: Tag, a: int, b: int, c: int)
    ensures var w := FieldWidth(t);
      before + [channel] + [TagByte(t)] + LowBytes(a, w) + LowBytes(b, w) + LowBytes(c, w)
        == before + EncodeEvent(Event(channel, t, [a, b, c]))
  {
    var w := FieldWidth(t);
    UnitOfThree(Event(channel, t, [a, b, c]));
    var fields := LowBytes(a, w) + LowBytes(b, w) + LowBytes(c, w);
    AppendPair(before, channel, TagByte(t), fields);
    assert before + [channel] + [TagByte(t)] + LowBytes(a, w) + LowBytes(b, w) + LowBytes(c, w)
      == before + [channel] + [TagByte(t)] + fields;
    assert [channel, TagByte(t)] + LowBytes(a, w) + LowBytes(b, w) + LowBytes(c, w)
      == [channel, TagByte(t)] + fields;
  }

  // ---------------------------------------------------------------------
  // Decoding.

  /** The error of a payload that stops after `avail` of its bytes, when the
      decoder fetches it with reads of the given sizes: a read that finds no
      byte at all reports end of stream, one that finds some but not all
      reports an unexpected end of stream. */
  function Shortfall(sizes: seq<nat>, avail: nat): (o: Outcome)
    requires avail < Sum(sizes)
    ensures o == Eof || o == UnexpectedEof
  {
    if avail == 0 then Eof
    else if avail < sizes[0] then UnexpectedEof
    else Shortfall(sizes[1..], avail - sizes[0])
  }

  /** How the decoder's loop walks the stream s, unit by unit. The stream
      may end cleanly only where a unit would start; a header cut after its
      channel byte, an unregistered type byte, or a short payload stops the
      walk with an error after the units already taken. Both generations
      walk a stream the same way. */
  function SplitFrames(s: seq<byte>): (r: Framed)
    ensures r.consumed <= |s|
    ensures r.outcome == Ok ==> r.consumed == |s|
    ensures forall i :: 0 <= i < |r.frames| ==> Complete(r.frames[i])
    decreases |s|
  {
    if |s| == 0 then Framed([], Ok, 0)
    else if |s| == 1 then Framed([], UnexpectedEof, 1)
    else match TagOf(s[1])
      case None => Framed([], InvalidChannelType, 2)
      case Some(t) =>
        var w := PayloadWidth(t);
        if |s| - 2 < w then Framed([], Shortfall(ReadSizes(t), |s| - 2), |s|)
        else
          var rest := SplitFrames(s[2 + w..]);
          Framed([Frame(s[0], t, s[2..2 + w])] + rest.frames, rest.outcome, 2 + w + rest.consumed)
  }

  /** The events the decoder of generation g delivers for complete units. */
  function EventsOf(g: Generation, fs: seq<Frame>): (es: seq<Event>)
    requires forall i :: 0 <= i < |fs| ==> Complete(fs[i])
    ensures |es| == |fs|
  {
    seq(|fs|, i requires 0 <= i < |fs| => EventOf(g, fs[i]))
  }

  /** The uplink decoder of generation g on the stream s: one event per
      complete unit at the head of the stream, then the way the walk
      stopped. */
  function DecodeUplink(g: Generation, s: seq<byte>): (r: Decoded)
    ensures r.consumed <= |s|
    ensures r.outcome == Ok ==> r.consumed == |s|
  {
    var fr := SplitFrames(s);
    Decoded(EventsOf(g, fr.frames), fr.outcome, fr.consumed)
  }

  /** Every event a decode delivers is well formed: one raw value per
      field, each within the field's range (int16 for the 2-byte signed
      fields, uint16 for luminosity, a byte for the 1-byte fields, 24 bits
      for GPS). */
  lemma DecodedEventsWellFormed(g: Generation, s: seq<byte>)
    ensures forall e | e in DecodeUplink(g, s).events :: WellFormed(g, e)
  {
    var fs := SplitFrames(s).frames;
    forall e | e in DecodeUplink(g, s).events
      ensures WellFormed(g, e)
    {
      var i :| 0 <= i < |fs| && e == EventOf(g, fs[i]);
    }
  }

  // ---------------------------------------------------------------------
  // Fields: decoding is the inverse of encoding on the field's range, and
  // encoding is the inverse of decoding on every byte string.

  lemma FieldRoundTrip(g: Generation, t: Tag, v: int)
    requires InRange(g, t, v)
    ensures FieldValue(g, t, LowBytes(v, FieldWidth(t))) == v
  {
    var w := FieldWidth(t);
    var p := Pow256(w);
    var bs := LowBytes(v, w);
    var x := FieldValue(g, t, bs);
    LowBytesValue(v, w);
    FieldResidue(g, t, bs);
    assert x % p == v % p;
    if FieldSigned(g, t) {
      ResidueUnique(x, v, -p / 2, p) by {
        assert p == 256 * Pow256(w - 1);
      }
    } else {
      ResidueUnique(x, v, 0, p);
    }
  }

  lemma FieldReencode(g: Generation, t: Tag, bs: seq<byte>)
    requires |bs| == FieldWidth(t)
    ensures LowBytes(FieldValue(g, t, bs), FieldWidth(t)) == bs
  {
    FieldResidue(g, t, bs);
    LowBytesOfBigEndian(FieldValue(g, t, bs), bs);
  }

  /** Packing one or three values is writing each in turn. */
  lemma PackSmall(raw: seq<int>, w: nat)
    ensures |raw| == 1 ==> Pack(raw, w) == LowBytes(raw[0], w)
    ensures |raw| == 3 ==> Pack(raw, w) == LowBytes(raw[0], w) + LowBytes(raw[1], w) + LowBytes(raw[2], w)
  {
    if |raw| == 1 {
      assert Pack(raw[1..], w) == [];
    } else if |raw| == 3 {
      assert raw[1..][1..][1..] == [];
      assert Pack(raw[1..], w) == LowBytes(raw[1], w) + Pack(raw[2..], w) by { assert raw[1..][1..] == raw[2..]; }
      assert Pack(raw[2..], w) == LowBytes(raw[2], w) + Pack(raw[2..][1..], w);
    }
  }

  /** Decoding the payload written for in-range raw values gives them back. */
  lemma FieldsRoundTrip(g: Generation, t: Tag, raw: seq<int>)
    requires WellFormed(g, Event(0, t, raw))
    ensures PayloadWidth(t) == |Pack(raw, FieldWidth(t))|
    ensures Fields(g, t, Pack(raw, FieldWidth(t))) == raw
  {
    var w := FieldWidth(t);
    var p := Pack(raw, w);
    PayloadIsFields(t);
    PackSmall(raw, w);
    FieldRoundTrip(g, t, raw[0]);
    if FieldCount(t) == 3 {
      FieldRoundTrip(g, t, raw[1]);
      FieldRoundTrip(g, t, raw[2]);
      assert p[..w] == LowBytes(raw[0], w);
      assert p[w..2 * w] == LowBytes(raw[1], w);
      assert p[2 * w..] == LowBytes(raw[2], w);
    }
  }

  /** Re-encoding the fields read from any payload gives back the payload. */
  lemma PayloadRoundTrip(g: Generation, t: Tag, p: seq<byte>)
    requires |p| == PayloadWidth(t)
    ensures Pack(Fields(g, t, p), FieldWidth(t)) == p
  {
    var w := FieldWidth(t);
    PayloadIsFields(t);
    PackSmall(Fields(g, t, p), w);
    if FieldCount(t) == 1 {
      FieldReencode(g, t, p);
    } else {
      FieldReencode(g, t, p[..w]);
      FieldReencode(g, t, p[w..2 * w]);
      FieldReencode(g, t, p[2 * w..]);
      assert p == p[..w] + p[w..2 * w] + p[2 * w..];
    }
  }

  /** A well-formed reading survives being written as a unit and read back. */
  lemma EventRoundTrip(g: Generation, e: Event)
    requires WellFormed(g, e)
    ensures EventOf(g, FrameOf(e)) == e
  {
    FieldsRoundTrip(g, e.tag, e.raw);
  }

  /** Any complete unit survives being read and written back. */
  lemma FrameRoundTrip(g: Generation, f: Frame)
    requires Complete(f)
    ensures FrameOf(EventOf(g, f)) == f
  {
    PayloadRoundTrip(g, f.tag, f.payload);
  }

  // ---------------------------------------------------------------------
  // Framing.

  /** A complete unit at the head of the stream is taken whole, and the walk
      carries on with whatever follows it. */
  lemma FrameUnit(f: Frame, t: seq<byte>)
    requires Complete(f)
    ensures var rest := SplitFrames(t);
      SplitFrames(EncodeFrame(f) + t)
        == Framed([f] + rest.frames, rest.outcome, |EncodeFrame(f)| + rest.consumed)
  {
    var s := EncodeFrame(f) + t;
    var n := |EncodeFrame(f)|;
    TagOfTagByte(f.tag);
    assert s[1] == TagByte(f.tag);
    assert s[2..n] == f.payload;
    assert s[n..] == t;
  }

  /** Complete units are taken in order, whatever follows them. */
  lemma {:induction false} FramesAppend(fs: seq<Frame>, t: seq<byte>)
    requires forall i :: 0 <= i < |fs| ==> Complete(fs[i])
    ensures var rest := SplitFrames(t);
      SplitFrames(EncodeFrames(fs) + t)
        == Framed(fs + rest.frames, rest.outcome, |EncodeFrames(fs)| + rest.consumed)
    decreases |fs|
  {
    var rest := SplitFrames(t);
    if fs == [] {
      assert EncodeFrames(fs) + t == t;
      assert fs + rest.frames == rest.frames;
    } else {
      var u := EncodeFrames(fs[1..]) + t;
      assert EncodeFrames(fs) + t == EncodeFrame(fs[0]) + u;
      FramesAppend(fs[1..], t);
      FrameUnit(fs[0], u);
      ConsAppend(fs, rest.frames);
    }
  }

  /** A walk that takes a unit takes the complete unit at the head of the
      stream, then walks the rest. */
  lemma SplitFramesHead(s: seq<byte>) returns (n: nat)
    requires SplitFrames(s).frames != []
    ensures n <= |s|
    ensures var r, rest := SplitFrames(s), SplitFrames(s[n..]);
      EncodeFrame(r.frames[0]) == s[..n] &&
      r == Framed([r.frames[0]] + rest.frames, rest.outcome, n + rest.consumed)
  {
    var t := TagOf(s[1]).value;
    n := 2 + PayloadWidth(t);
    assert EncodeFrame(Frame(s[0], t, s[2..n])) == s[..n];
  }

  /** The complete units a walk takes are the head of the stream, byte for
      byte. */
  lemma {:induction false} FramesPrefix(s: seq<byte>)
    ensures var r := SplitFrames(s);
      |EncodeFrames(r.frames)| <= r.consumed && s[..|EncodeFrames(r.frames)|] == EncodeFrames(r.frames)
    decreases |s|
  {
    var r := SplitFrames(s);
    if r.frames != [] {
      var n := SplitFramesHead(s);
      var rest := SplitFrames(s[n..]);
      FramesPrefix(s[n..]);
      var k' := |EncodeFrames(rest.frames)|;
      assert EncodeFrames(r.frames) == s[..n] + EncodeFrames(rest.frames) by {
        assert r.frames[1..] == rest.frames;
      }
      SliceConcat(s, n, n + k');
    }
  }

  /** Past the complete units a walk takes, the walk takes nothing and stops
      the same way. */
  lemma {:induction false} FramesRest(s: seq<byte>)
    ensures var r := SplitFrames(s);
      var k := |EncodeFrames(r.frames)|;
      k <= r.consumed && SplitFrames(s[k..]) == Framed([], r.outcome, r.consumed - k)
    decreases |s|
  {
    var r := SplitFrames(s);
    if r.frames == [] {
      assert s[0..] == s;
      assert r == Framed([], r.outcome, r.consumed);
    } else {
      var n := SplitFramesHead(s);
      var rest := SplitFrames(s[n..]);
      FramesRest(s[n..]);
      var k' := |EncodeFrames(rest.frames)|;
      var k := n + k';
      assert |EncodeFrames(r.frames)| == k by {
        assert r.frames[1..] == rest.frames;
      }
      DropDrop(s, n, k');
      assert SplitFrames(s[k..]) == Framed([], rest.outcome, rest.consumed - k');
    }
  }

  /** The complete units a walk takes are the head of the stream, byte for
      byte; past them the walk takes nothing and stops the same way. */
  lemma FramesStand(s: seq<byte>)
    ensures var r := SplitFrames(s);
      var k := |EncodeFrames(r.frames)|;
      k <= r.consumed && s[..k] == EncodeFrames(r.frames) &&
      SplitFrames(s[k..]) == Framed([], r.outcome, r.consumed - k)
  {
    FramesPrefix(s);
    FramesRest(s);
  }

  /** A walk that succeeds took the whole stream as complete units. */
  lemma FramesThenEncode(s: seq<byte>)
    requires SplitFrames(s).outcome == Ok
    ensures EncodeFrames(SplitFrames(s).frames) == s
  {
    FramesPrefix(s);
    var k := |EncodeFrames(SplitFrames(s).frames)|;
    assert s[..k] == s;
  }

  /** How a payload cut short ends, by type: a cut at a field boundary
      reports end of stream (the next per-field read finds nothing), a cut
      inside a field reports an unexpected end; GPS, read in one piece, gives
      end of stream only when no payload byte at all is present. */
  lemma PayloadCutOutcome(t: Tag, avail: nat)
    requires avail < PayloadWidth(t)
    ensures Shortfall(ReadSizes(t), avail)
      == if avail == 0 || (t != Gps && avail % FieldWidth(t) == 0) then Eof else UnexpectedEof
  {
    var sizes := ReadSizes(t);
    if (t == Accelerometer || t == Gyrometer) && avail >= 2 {
      assert sizes[1..] == [2, 2] && sizes[1..][1..] == [2];
      assert Shortfall(sizes, avail) == Shortfall([2, 2], avail - 2);
      if avail >= 4 {
        assert Shortfall([2, 2], avail - 2) == Shortfall([2], avail - 4);
      }
    }
  }

  /** A unit cut anywhere before its last byte is taken by no walk: a lone
      channel byte gives an unexpected end of stream, a complete header with
      no payload gives end of stream, and every cut consumes what is there. */
  lemma TruncatedFrame(f: Frame, k: nat)
    requires Complete(f) && 0 < k < |EncodeFrame(f)|
    ensures var r := SplitFrames(EncodeFrame(f)[..k]);
      r.frames == [] && r.consumed == k &&
      (r.outcome == Eof || r.outcome == UnexpectedEof) &&
      (k == 1 ==> r.outcome == UnexpectedEof) &&
      (k == 2 ==> r.outcome == Eof)
  {
    var s := EncodeFrame(f)[..k];
    TagOfTagByte(f.tag);
    if k >= 2 {
      assert s[1] == TagByte(f.tag);
    }
  }

  // ---------------------------------------------------------------------
  // Streams of readings.

  lemma EncodeEventsCons(es: seq<Event>)
    requires es != []
    ensures EncodeEvents(es) == EncodeEvent(es[0]) + EncodeEvents(es[1..])
  {
    assert FramesOf(es)[1..] == FramesOf(es[1..]);
  }

  /** The units written for readings that fit their fields are complete. */
  lemma FramesOfShaped(g: Generation, es: seq<Event>)
    requires forall i :: 0 <= i < |es| ==> WellFormed(g, es[i])
    ensures forall i :: 0 <= i < |FramesOf(es)| ==> Complete(FramesOf(es)[i])
  {
    forall i | 0 <= i < |es|
      ensures Complete(FramesOf(es)[i])
    {
      assert Shaped(es[i]);
    }
  }

  lemma EventsOfAppend(g: Generation, fs: seq<Frame>, gs: seq<Frame>)
    requires forall i :: 0 <= i < |fs| ==> Complete(fs[i])
    requires forall i :: 0 <= i < |gs| ==> Complete(gs[i])
    ensures EventsOf(g, fs + gs) == EventsOf(g, fs) + EventsOf(g, gs)
  {
    assert forall i :: 0 <= i < |fs + gs| ==> Complete((fs + gs)[i]);
    assert |EventsOf(g, fs + gs)| == |EventsOf(g, fs) + EventsOf(g, gs)|;
  }

  /** Reading back the units written for well-formed readings gives them back. */
  lemma EventsOfFramesOf(g: Generation, es: seq<Event>)
    requires forall i :: 0 <= i < |es| ==> WellFormed(g, es[i])
    ensures forall i :: 0 <= i < |FramesOf(es)| ==> Complete(FramesOf(es)[i])
    ensures EventsOf(g, FramesOf(es)) == es
  {
    FramesOfShaped(g, es);
    forall i | 0 <= i < |es|
      ensures EventsOf(g, FramesOf(es))[i] == es[i]
    {
      EventRoundTrip(g, es[i]);
    }
  }

  /** Writing back the events read from complete units gives back the units. */
  lemma FramesOfEventsOf(g: Generation, fs: seq<Frame>)
    requires forall i :: 0 <= i < |fs| ==> Complete(fs[i])
    ensures FramesOf(EventsOf(g, fs)) == fs
  {
    forall i | 0 <= i < |fs|
      ensures FramesOf(EventsOf(g, fs))[i] == fs[i]
    {
      FrameRoundTrip(g, fs[i]);
    }
  }

  /** Units written for well-formed readings decode to those readings in
      order, whatever follows them in the stream. */
  lemma DecodeAppend(g: Generation, es: seq<Event>, t: seq<byte>)
    requires forall i :: 0 <= i < |es| ==> WellFormed(g, es[i])
    ensures var rest := DecodeUplink(g, t);
      DecodeUplink(g, EncodeEvents(es) + t)
        == Decoded(es + rest.events, rest.outcome, |EncodeEvents(es)| + rest.consumed)
  {
    var fs := FramesOf(es);
    EventsOfFramesOf(g, es);
    FramesAppend(fs, t);
    EventsOfAppend(g, fs, SplitFrames(t).frames);
  }

  /** Round trip: the bytes written for well-formed readings decode, with
      success and nothing left over, to exactly those readings. */
  lemma RoundTrip(g: Generation, es: seq<Event>)
    requires forall i :: 0 <= i < |es| ==> WellFormed(g, es[i])
    ensures DecodeUplink(g, EncodeEvents(es)) == Decoded(es, Ok, |EncodeEvents(es)|)
  {
    DecodeAppend(g, es, []);
    assert EncodeEvents(es) + [] == EncodeEvents(es);
    assert es + [] == es;
  }

  /** Re-encoding what a decode delivers gives back the units it read. */
  lemma ReencodeFrames(g: Generation, s: seq<byte>)
    ensures EncodeEvents(DecodeUplink(g, s).events) == EncodeFrames(SplitFrames(s).frames)
  {
    FramesOfEventsOf(g, SplitFrames(s).frames);
  }

  /** The events a decode delivers stand for the complete units at the head
      of the stream, byte for byte; the decode of what follows them delivers
      nothing and ends the same way. */
  lemma EmittedUnitsStand(g: Generation, s: seq<byte>)
    ensures var r := DecodeUplink(g, s);
      var k := |EncodeEvents(r.events)|;
      k <= r.consumed && s[..k] == EncodeEvents(r.events) &&
      DecodeUplink(g, s[k..]) == Decoded([], r.outcome, r.consumed - k)
  {
    ReencodeFrames(g, s);
    FramesStand(s);
  }

  /** A decode that succeeds consumed the whole stream, and the events it
      delivered re-encode to exactly that stream. */
  lemma DecodeThenEncode(g: Generation, s: seq<byte>)
    requires DecodeUplink(g, s).outcome == Ok
    ensures EncodeEvents(DecodeUplink(g, s).events) == s
  {
    ReencodeFrames(g, s);
    FramesThenEncode(s);
  }

  /** A stream of complete units followed by a unit cut short delivers the
      complete units and then fails: it never reports success. */
  lemma TruncatedStreamFails(g: Generation, es: seq<Event>, e: Event, k: nat)
    requires forall i :: 0 <= i < |es| ==> WellFormed(g, es[i])
    requires WellFormed(g, e) && 0 < k < |EncodeEvent(e)|
    ensures var r := DecodeUplink(g, EncodeEvents(es) + EncodeEvent(e)[..k]);
      r.events == es && (r.outcome == Eof || r.outcome == UnexpectedEof) &&
      r.consumed == |EncodeEvents(es)| + k
  {
    DecodeAppend(g, es, EncodeEvent(e)[..k]);
    TruncatedFrame(FrameOf(e), k);
    assert es + [] == es;
  }

  /** An unregistered type byte stops the decode at once: the units before
      it stand, nothing past its two header bytes is read, and no later unit
      is decoded. */
  lemma UnknownTypeStops(g: Generation, es: seq<Event>, channel: byte, b: byte, t: seq<byte>)
    requires forall i :: 0 <= i < |es| ==> WellFormed(g, es[i])
    requires TagOf(b).None?
    ensures DecodeUplink(g, EncodeEvents(es) + ([channel, b] + t))
      == Decoded(es, InvalidChannelType, |EncodeEvents(es)| + 2)
  {
    DecodeAppend(g, es, [channel, b] + t);
    assert ([channel, b] + t)[1] == b;
    assert es + [] == es;
  }
}
