/** The decoder object of either generation: a reader over a byte stream
    and the two loops that pull units off it and hand each decoded value to
    the caller. The stream is the reader's remaining bytes, `src[pos..]`;
    every read advances `pos`. The values handed to the callbacks are
    returned, in delivery order, as a sequence. Each loop is proved to do
    exactly what the stream specification of its direction says. */
module Decoding {
  import opened Wire
  import opened Channels
  import Uplink
  import Downlink

  class Decoder {
    /** Which generation's decoder this is. */
    const gen: Generation
    /** Everything the underlying reader will ever produce. */
    const src: seq<byte>
    /** How much of it has been read so far. */
    var pos: nat

    predicate Valid()
      reads this
    {
      pos <= |src|
    }

    /** A decoder over a reader that will produce the bytes `s`. */
    constructor (g: Generation, s: seq<byte>)
      ensures Valid()
      ensures gen == g && src == s && pos == 0
    {
      gen, src, pos := g, s, 0;
    }

    /** `io.ReadFull` of n bytes: the next n bytes when there are that many;
        otherwise everything that is left is taken and the read reports end
        of stream if nothing was left, an unexpected end if something was. */
    method ReadFull(n: nat) returns (bs: seq<byte>, o: Outcome)
      requires Valid()
      modifies this`pos
      ensures Valid()
      ensures old(pos) + n <= |src| ==>
        o == Ok && bs == src[old(pos)..old(pos) + n] && pos == old(pos) + n
      ensures |src| < old(pos) + n ==>
        pos == |src| && o == (if old(pos) == |src| then Eof else UnexpectedEof)
    {
      if pos + n <= |src| {
        bs, o := src[pos..pos + n], Ok;
        pos := pos + n;
      } else {
        bs := src[pos..];
        o := if pos == |src| then Eof else UnexpectedEof;
        pos := |src|;
      }
    }

    /** The payload reads of a unit of type t, one per entry of
        `ReadSizes(t)`, stopping at the first that fails: the whole payload
        when the stream holds it, otherwise the error the failing read
        reports, with the stream used up. */
    method ReadPayload(t: Tag) returns (payload: seq<byte>, o: Outcome)
      requires Valid()
      modifies this`pos
      ensures Valid()
      ensures old(pos) + PayloadWidth(t) <= |src| ==>
        o == Ok && payload == src[old(pos)..old(pos) + PayloadWidth(t)] && pos == old(pos) + PayloadWidth(t)
      ensures |src| < old(pos) + PayloadWidth(t) ==>
        o == Uplink.Shortfall(ReadSizes(t), |src| - old(pos)) && pos == |src|
    {
      var sizes, w := ReadSizes(t), PayloadWidth(t);
      ghost var start := pos;
      payload, o := [], Ok;
      var i := 0;
      while i < |sizes|
        invariant 0 <= i <= |sizes|
        invariant start <= pos <= |src|
        invariant payload == src[start..pos]
        invariant pos - start + Sum(sizes[i..]) == w
        invariant |src| - start < w ==>
          Uplink.Shortfall(sizes, |src| - start) == Uplink.Shortfall(sizes[i..], |src| - pos)
      {
        assert sizes[i..][1..] == sizes[i + 1..];
        var bs, r := ReadFull(sizes[i]);
        if r != Ok {
          o := r;
          return;
        }
        payload := payload + bs;
        i := i + 1;
      }
    }

    /** One pass of the uplink loop up to the delivery: read a 2-byte
        header, dispatch on the type byte and read the payload. When the
        unit is complete it is returned, and the stream's framing has it
        ahead of whatever the rest of the stream frames to; otherwise the
        pass ends the framing the way the specification does (a stream that
        ends before a header ends it cleanly). */
    method ReadUnit() returns (f: Option<Uplink.Frame>, o: Outcome)
      requires Valid()
      modifies this`pos
      ensures Valid() && old(pos) <= pos
      ensures f.Some? ==> o == Ok && old(pos) < pos
      ensures var r, rest := Uplink.SplitFrames(src[old(pos)..]), Uplink.SplitFrames(src[pos..]);
        if f.Some? then r == Uplink.Framed([f.value] + rest.frames, rest.outcome, pos - old(pos) + rest.consumed)
        else r == Uplink.Framed([], o, pos - old(pos))
    {
      var head, err := ReadFull(2);
      if err == Eof {
        return None, Ok;
      } else if err != Ok {
        return None, err;
      }
      match TagOf(head[1]) {
        case None =>
          return None, InvalidChannelType;
        case Some(t) =>
          ghost var here := pos - 2;
          var payload, perr := ReadPayload(t);
          if perr != Ok {
            return None, perr;
          }
          assert src[here..][2 + PayloadWidth(t)..] == src[pos..];
          assert src[here..][2..2 + PayloadWidth(t)] == payload;
          return Some(Uplink.Frame(head[0], t, payload)), Ok;
      }
    }

    /** The uplink loop: read unit after unit, decoding the fields of each
        and delivering its event, until a pass reads no complete unit. What
        it delivers, how it ends and how far it reads are exactly the uplink
        specification of the bytes it found. */
    method DecodeUplink() returns (events: seq<Uplink.Event>, o: Outcome)
      requires Valid()
      modifies this`pos
      ensures Valid()
      ensures var r := Uplink.DecodeUplink(gen, src[old(pos)..]);
        events == r.events && o == r.outcome && pos == old(pos) + r.consumed
    {
      events := [];
      ghost var start := pos;
      ghost var frames: seq<Uplink.Frame> := [];
      while true
        invariant Valid() && start <= pos
        invariant forall i :: 0 <= i < |frames| ==> Uplink.Complete(frames[i])
        invariant events == Uplink.EventsOf(gen, frames)
        invariant var r := Uplink.SplitFrames(src[pos..]);
          Uplink.SplitFrames(src[start..])
            == Uplink.Framed(frames + r.frames, r.outcome, pos - start + r.consumed)
        decreases |src| - pos
      {
        var f, err := ReadUnit();
        if f.None? {
          assert frames + [] == frames;
          return events, err;
        }
        var rest := Uplink.SplitFrames(src[pos..]);
        assert frames + ([f.value] + rest.frames) == (frames + [f.value]) + rest.frames;
        assert Uplink.Complete(f.value) by {
          assert (frames + [f.value] + rest.frames)[|frames|] == f.value;
        }
        Uplink.EventsOfAppend(gen, frames, [f.value]);
        events := events + [Uplink.EventOf(gen, f.value)];
        frames := frames + [f.value];
      }
    }

    /** The downlink loop: read a channel byte, stop cleanly if the stream
        has ended there or (current generation) if the byte is the
        terminator, read the int16 value and deliver the port; the first
        error ends the loop. What it delivers, how it ends and how far it
        reads are exactly the downlink specification of the bytes it found. */
    method DecodeDownlink() returns (ports: seq<Downlink.Port>, o: Outcome)
      requires Valid()
      modifies this`pos
      ensures Valid()
      ensures var r := Downlink.DecodeDownlink(gen, src[old(pos)..]);
        ports == r.ports && o == r.outcome && pos == old(pos) + r.consumed
    {
      ports := [];
      ghost var start := pos;
      while true
        invariant Valid() && start <= pos
        invariant var r := Downlink.DecodeDownlink(gen, src[pos..]);
          Downlink.DecodeDownlink(gen, src[start..])
            == Downlink.PortsDecoded(ports + r.ports, r.outcome, pos - start + r.consumed)
        decreases |src| - pos
      {
        ghost var here := pos;
        var ch, err := ReadFull(1);
        if err == Eof {
          assert ports + [] == ports;
          return ports, Ok;
        }
        if gen == Current && ch[0] == Downlink.Terminator {
          assert ports + [] == ports;
          return ports, Ok;
        }
        var v, verr := ReadFull(2);
        if verr != Ok {
          assert ports + [] == ports;
          return ports, verr;
        }
        var p := Downlink.Port(ch[0], TwosComplement(v));
        assert src[here..][3..] == src[pos..];
        assert src[here..][1..3] == v;
        var rest := Downlink.DecodeDownlink(gen, src[pos..]);
        assert ports + ([p] + rest.ports) == (ports + [p]) + rest.ports;
        ports := ports + [p];
      }
    }
  }
}
