/** The growable byte buffer both encoders write into (Go's `bytes.Buffer`),
    reduced to what the encoders use: appending bytes, reading the contents,
    emptying it, and the big-endian writes of `encoding/binary`. */
module Buffers {
  import opened Wire

  class Buffer {
    /** The unread contents of the buffer. */
    var data: seq<byte>

    /** A new, empty buffer. */
    constructor ()
      ensures data == []
    {
      data := [];
    }

    /** Capacity is not part of the model, so growing changes nothing that
        can be observed; a negative count is a panic in Go. */
    method Grow(n: int)
      requires n >= 0
      ensures data == old(data)
    {
    }

    /** The contents, unchanged. */
    method Bytes() returns (bs: seq<byte>)
      ensures bs == data
    {
      bs := data;
    }

    /** Empties the buffer. */
    method Reset()
      modifies this
      ensures data == []
    {
      data := [];
    }

    /** Hands the whole contents to a writer and empties the buffer; the
        count is the number of bytes handed over. The writer is the caller's
        and is represented by the returned bytes. */
    method WriteTo() returns (written: seq<byte>, n: int)
      modifies this
      ensures written == old(data) && n == |written| && data == []
    {
      written, n := data, |data|;
      data := [];
    }

    /** Appends one byte. */
    method WriteByte(b: byte)
      modifies this
      ensures data == old(data) + [b]
    {
      data := data + [b];
    }

    /** `binary.Write(buf, binary.BigEndian, v)` for a 2-byte value v (an
        `int16` or a `uint16`): its low two bytes, high first. */
    method WriteBigEndian16(v: int)
      modifies this
      ensures data == old(data) + LowBytes(v, 2)
    {
      WriteByte(ShiftByte(v, 1));
      WriteByte(ShiftByte(v, 0));
      ShiftBytes2(v);
    }

    /** The three writes `byte(v >> 16)`, `byte(v >> 8)`, `byte(v)` with
        which both encoders store a GPS coordinate: the low three bytes of
        v, high first. */
    method WriteBigEndian24(v: int)
      modifies this
      ensures data == old(data) + LowBytes(v, 3)
    {
      WriteByte(ShiftByte(v, 2));
      WriteByte(ShiftByte(v, 1));
      WriteByte(ShiftByte(v, 0));
      ShiftBytes3(v);
    }
  }
}
