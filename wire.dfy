/** Bytes, big-endian integers of a fixed width, and the outcomes of reading
    a byte stream: the layer that the Cayenne LPP codec builds every unit from. */
module Wire {

  /** An octet of the stream (Go's `byte` / `uint8`). */
  type byte = x: int | 0 <= x < 0x100

  /** Go's `int16`, the type of every 2-byte signed field. */
  type int16 = x: int | -0x8000 <= x < 0x8000

  /** Go's `int32`, the type the current encoder scales GPS coordinates into. */
  type int32 = x: int | -0x8000_0000 <= x < 0x8000_0000

  /** Go's `uint16`, the type of the luminosity field and of every 2-byte
      value the legacy encoder writes. */
  type uint16 = x: int | 0 <= x < 0x1_0000

  /** Go's `uint32`, the type the legacy encoder scales GPS coordinates into. */
  type uint32 = x: int | 0 <= x < 0x1_0000_0000

  /** How a decode ends. `Eof` and `UnexpectedEof` are the errors `io.EOF`
      and `io.ErrUnexpectedEOF` that a read of N bytes reports when it finds
      none, respectively some but fewer than N, of them; `InvalidChannelType`
      is the decoder's own error for a type byte outside the registry. */
  datatype Outcome = Ok | Eof | UnexpectedEof | InvalidChannelType

  /** 256 to the power n: the number of distinct n-byte strings. */
  function Pow256(n: nat): (r: int)
    ensures r >= 1
  {
    if n == 0 then 1 else 256 * Pow256(n - 1)
  }

  /** The unsigned value of `bs`, most significant byte first. */
  function BigEndian(bs: seq<byte>): (r: nat)
    ensures r < Pow256(|bs|)
  {
    if bs == [] then 0 else BigEndian(bs[..|bs| - 1]) * 256 + bs[|bs| - 1]
  }

  /** The value of `bs` read as a big-endian two's-complement integer: the one
      integer of the signed range whose low bits are `bs`. */
  function TwosComplement(bs: seq<byte>): (r: int)
    requires |bs| > 0
    ensures -Pow256(|bs|) / 2 <= r < Pow256(|bs|) / 2
  {
    var p, u := Pow256(|bs|), BigEndian(bs);
    if u >= p / 2 then u - p else u
  }

  /** The two's-complement reading keeps the bits it was given: its low
      bytes are `bs`. */
  lemma TwosComplementResidue(bs: seq<byte>)
    requires |bs| > 0
    ensures TwosComplement(bs) % Pow256(|bs|) == BigEndian(bs)
  {
    var p, u := Pow256(|bs|), BigEndian(bs);
    if u >= p / 2 {
      DivModUnique(u - p, p, -1, u);
    } else {
      DivModUnique(u, p, 0, u);
    }
  }

  /** The low `w` bytes of the two's-complement representation of `x`, most
      significant first: what writing `x` into a `w`-byte big-endian field
      produces, wrapping silently when `x` does not fit. */
  function LowBytes(x: int, w: nat): (bs: seq<byte>)
    decreases w
    ensures |bs| == w
  {
    if w == 0 then [] else LowBytes(x / 256, w - 1) + [x % 256]
  }

  /** The bytes written for `x` are its residue modulo 256^w. */
  lemma {:induction false} LowBytesValue(x: int, w: nat)
    ensures BigEndian(LowBytes(x, w)) == x % Pow256(w)
    decreases w
  {
    if w > 0 {
      var hi := LowBytes(x / 256, w - 1);
      LowBytesValue(x / 256, w - 1);
      assert (hi + [x % 256])[..w - 1] == hi;
      ModSplit(x, Pow256(w - 1));
    }
  }

  /** Go's `int32(u)` for a 32-bit pattern `u`: the pattern read as two's complement. */
  function Int32(u: nat): (r: int)
    requires u < 0x1_0000_0000
    ensures -0x8000_0000 <= r < 0x8000_0000
    ensures r % 0x1_0000_0000 == u
  {
    if u >= 0x8000_0000 then
      DivModUnique(u - 0x1_0000_0000, 0x1_0000_0000, -1, u);
      u - 0x1_0000_0000
    else
      DivModUnique(u, 0x1_0000_0000, 0, u);
      u
  }

  /** Quotient and remainder are determined by the equation they satisfy. */
  lemma DivModUnique(x: int, d: int, q: int, r: int)
    requires d > 0 && 0 <= r < d && x == d * q + r
    ensures x / d == q && x % d == r
  {
    var q', r' := x / d, x % d;
    assert d * (q - q') == r' - r;
    MulSmall(d, q - q');
  }

  /** The only multiple of d strictly between -d and d is zero. */
  lemma MulSmall(d: int, k: int)
    requires d > 0 && -d < d * k < d
    ensures k == 0
  {
  }

  /** A remainder modulo 256 * b splits into the remainder modulo 256 and the
      remainder of the quotient modulo b. */
  lemma ModSplit(x: int, b: int)
    requires b > 0
    ensures x % (256 * b) == ((x / 256) % b) * 256 + x % 256
  {
    var q, r := x / 256, x % 256;
    var k, m := q / b, q % b;
    assert x == 256 * q + r;
    assert q == b * k + m;
    assert x == (256 * b) * k + (256 * m + r) by {
      assert 256 * q == 256 * (b * k) + 256 * m;
      assert (256 * b) * k == 256 * (b * k);
    }
    DivModUnique(x, 256 * b, k, 256 * m + r);
  }

  /** Two integers of one window of p consecutive values that leave the same
      remainder modulo p are equal. */
  lemma ResidueUnique(a: int, b: int, lo: int, p: int)
    requires p > 0 && lo <= a < lo + p && lo <= b < lo + p
    requires a % p == b % p
    ensures a == b
  {
    var qa, qb := a / p, b / p;
    assert p * (qa - qb) == a - b;
    MulSmall(p, qa - qb);
  }

  /** Writing any integer whose low bits are `bs` reproduces `bs`. */
  lemma {:induction false} LowBytesOfBigEndian(x: int, bs: seq<byte>)
    requires x % Pow256(|bs|) == BigEndian(bs)
    ensures LowBytes(x, |bs|) == bs
    decreases |bs|
  {
    if bs != [] {
      var n := |bs|;
      var pre, last := bs[..n - 1], bs[n - 1];
      var p := Pow256(n - 1);
      ModSplit(x, p);
      var y := x % (256 * p);
      DivModUnique(y, 256, (x / 256) % p, x % 256);
      DivModUnique(y, 256, BigEndian(pre), last);
      LowBytesOfBigEndian(x / 256, pre);
      assert bs == pre + [last];
    }
  }

  /** Integers congruent modulo 256^w are written as the same `w` bytes. */
  lemma LowBytesCongruent(x: int, y: int, w: nat)
    requires x % Pow256(w) == y % Pow256(w)
    ensures LowBytes(x, w) == LowBytes(y, w)
  {
    LowBytesValue(x, w);
    LowBytesOfBigEndian(y, LowBytes(x, w));
  }

  /** A signed value that fits `w` bytes is read back from its `w` bytes unchanged. */
  lemma TwosComplementRoundTrip(x: int, w: nat)
    requires w > 0 && -Pow256(w) / 2 <= x < Pow256(w) / 2
    ensures TwosComplement(LowBytes(x, w)) == x
  {
    var p := Pow256(w);
    assert p == 256 * Pow256(w - 1);
    LowBytesValue(x, w);
    TwosComplementResidue(LowBytes(x, w));
    ResidueUnique(TwosComplement(LowBytes(x, w)), x, -p / 2, p);
  }

  /** An unsigned value that fits `w` bytes is read back from its `w` bytes unchanged. */
  lemma BigEndianRoundTrip(x: int, w: nat)
    requires 0 <= x < Pow256(w)
    ensures BigEndian(LowBytes(x, w)) == x
  {
    LowBytesValue(x, w);
    DivModUnique(x, Pow256(w), 0, x);
  }

  /** Go's GPS decoding in the current generation: copy the three bytes into
      the top of a 4-byte buffer, read it as a big-endian uint32, convert to
      int32 and shift right arithmetically by 8. The shift is floor division. */
  function ShiftedInt24(bs: seq<byte>): (r: int)
    requires |bs| == 3
    ensures -0x80_0000 <= r < 0x80_0000
  {
    Int32(BigEndian(bs + [0])) / 256
  }

  /** The shift brings the sign bit of the 24-bit field down with it: the
      result is the field read as 24-bit two's complement. */
  lemma ShiftedInt24SignExtends(bs: seq<byte>)
    requires |bs| == 3
    ensures ShiftedInt24(bs) == TwosComplement(bs)
  {
    assert (bs + [0])[..3] == bs;
    var u := BigEndian(bs);
    assert BigEndian(bs + [0]) == u * 256;
    assert Pow256(3) == 0x100_0000;
    if u >= 0x80_0000 {
      DivModUnique(u as int * 256 - 0x1_0000_0000, 256, u as int - 0x100_0000, 0);
    } else {
      DivModUnique(u * 256, 256, u, 0);
    }
  }

  /** Go's GPS decoding in the legacy generation:
      `int32(b0)<<16 | int32(b1)<<8 | int32(b2)`. The three shifted bytes
      occupy disjoint bit ranges, so each `|` is an addition. */
  function OredInt24(bs: seq<byte>): (r: int)
    requires |bs| == 3
    ensures 0 <= r < 0x100_0000
  {
    (bs[0] as int) * 0x1_0000 + (bs[1] as int) * 0x100 + bs[2]
  }

  /** Without a sign extension, the legacy reading is the unsigned value of the field. */
  lemma OredInt24IsUnsigned(bs: seq<byte>)
    requires |bs| == 3
    ensures OredInt24(bs) == BigEndian(bs)
  {
    assert BigEndian(bs) == BigEndian(bs[..2]) * 256 + bs[2];
    assert bs[..2][..1] == bs[..1];
    assert BigEndian(bs[..2]) == BigEndian(bs[..1]) * 256 + bs[1];
    assert bs[..1][..0] == [];
    assert BigEndian(bs[..1]) == bs[0];
  }

  /** Go's `byte(x >> (8 * k))`: byte k of `x`, counting from the least
      significant. The shift of a signed integer is arithmetic, which is
      floor division. */
  function ShiftByte(x: int, k: nat): byte
  {
    (x / Pow256(k)) % 256
  }

  /** Writing the two bytes of a 16-bit value one by one, high first, is
      writing its low two bytes. */
  lemma ShiftBytes2(x: int)
    ensures [ShiftByte(x, 1), ShiftByte(x, 0)] == LowBytes(x, 2)
  {
    assert LowBytes(x / 256, 1) == LowBytes(x / 256 / 256, 0) + [(x / 256) % 256];
  }

  /** Writing the three low bytes of a value one by one, high first, is
      writing its low three bytes. */
  lemma ShiftBytes3(x: int)
    ensures [ShiftByte(x, 2), ShiftByte(x, 1), ShiftByte(x, 0)] == LowBytes(x, 3)
  {
    ShiftBytes2(x / 256);
    DivDiv(x);
    assert Pow256(2) == 256 * 256;
  }

  /** Shifting right by 8 twice is shifting right by 16. */
  lemma DivDiv(x: int)
    ensures x / 256 / 256 == x / 0x1_0000
  {
    var q, r := x / 256, x % 256;
    var q2, r2 := q / 256, q % 256;
    assert x == 0x1_0000 * q2 + (256 * r2 + r);
    DivModUnique(x, 0x1_0000, q2, 256 * r2 + r);
  }

  // ---------------------------------------------------------------------
  // Sequence helpers.

  lemma SliceConcat<T>(s: seq<T>, i: nat, j: nat)
    requires i <= j <= |s|
    ensures s[..i] + s[i..][..j - i] == s[..j]
  {
  }

  lemma DropDrop<T>(s: seq<T>, i: nat, j: nat)
    requires i + j <= |s|
    ensures s[i..][j..] == s[i + j..]
  {
  }

  /** Two single appends followed by a block are one append of the pair
      and the block. */
  lemma AppendPair<T>(a: seq<T>, x: T, y: T, u: seq<T>)
    ensures a + [x] + [y] + u == a + ([x, y] + u)
  {
    assert a + [x] + [y] == a + [x, y];
  }

  lemma ConsAppend<T>(xs: seq<T>, ys: seq<T>)
    requires xs != []
    ensures [xs[0]] + (xs[1..] + ys) == xs + ys
  {
    assert xs == [xs[0]] + xs[1..];
  }
}
