/**
 * Wire primitives of the Bitcoin protocol: bytes, fixed-width little-endian
 * unsigned integers, the variable-length integer (VarInt, also called
 * CompactSize) and a predicate saying that a buffer holds given bytes at a
 * given offset.
 */
module Bytes {
  import opened Wrappers

  type byte = x: int | 0 <= x < 256

  /** A 32-byte SHA-256 digest, used as block id and transaction id. */
  type Hash = seq<byte>

  const HASH_SIZE: nat := 32
  const ZERO_HASH: Hash := [0, 0, 0, 0, 0, 0, 0, 0, 0, 0, 0, 0, 0, 0, 0, 0, 0, 0, 0, 0, 0, 0, 0, 0, 0, 0, 0, 0, 0, 0, 0, 0]

  /** Message.UNKNOWN_LENGTH, Integer.MIN_VALUE: a message whose cached length is not known. */
  const UNKNOWN_LENGTH: int := -0x8000_0000

  const UINT32_LIMIT: nat := 0x1_0000_0000
  const UINT64_LIMIT: nat := 0x1_0000_0000_0000_0000

  function Pow256(n: nat): (r: nat)
    ensures r >= 1
  {
    if n == 0 then 1 else 256 * Pow256(n - 1)
  }

  /** The `width` low-order bytes of `v`, least significant first (truncating, like uint32ToByteStreamLE). */
  function ToLE(v: nat, width: nat): (r: seq<byte>)
    ensures |r| == width
  {
    if width == 0 then [] else [v % 256] + ToLE(v / 256, width - 1)
  }

  /** The unsigned value of little-endian bytes. */
  function FromLE(s: seq<byte>): nat
  {
    if s == [] then 0 else s[0] + 256 * FromLE(s[1..])
  }

  lemma {:induction false} FromLEBound(s: seq<byte>)
    ensures FromLE(s) < Pow256(|s|)
  {
    if s != [] {
      FromLEBound(s[1..]);
      assert FromLE(s) <= 255 + 256 * (Pow256(|s| - 1) - 1);
    }
  }

  /** Reading back `width` little-endian bytes gives the value written, for every value that fits. */
  lemma {:induction false} LERoundTrip(v: nat, width: nat)
    requires v < Pow256(width)
    ensures FromLE(ToLE(v, width)) == v
  {
    if width > 0 {
      var q := v / 256;
      assert q < Pow256(width - 1) by {
        assert v == 256 * q + v % 256;
      }
      LERoundTrip(q, width - 1);
      var s := ToLE(v, width);
      assert s[0] == v % 256 && s[1..] == ToLE(q, width - 1);
    }
  }

  /** The unsigned little-endian value of the `width` bytes of `buf` from `at` (Utils.readUint32 and its siblings). */
  function ReadLE(buf: seq<byte>, at: nat, width: nat): nat
    requires at + width <= |buf|
    decreases width
  {
    if width == 0 then 0 else buf[at] as int + 256 * ReadLE(buf, at + 1, width - 1)
  }

  /** Utils.readUint32, written out byte by byte. */
  function ReadUint32(buf: seq<byte>, at: nat): (r: nat)
    requires at + 4 <= |buf|
  {
    buf[at] as int + 0x100 * buf[at + 1] as int + 0x1_0000 * buf[at + 2] as int + 0x100_0000 * buf[at + 3] as int
  }

  /** Utils.readInt64 on a non-negative value: two 32-bit halves, low half first. */
  function ReadUint64(buf: seq<byte>, at: nat): (r: nat)
    requires at + 8 <= |buf|
  {
    ReadUint32(buf, at) + UINT32_LIMIT * ReadUint32(buf, at + 4)
  }

  lemma {:induction false} ReadLEIsFromLE(buf: seq<byte>, at: nat, width: nat)
    requires at + width <= |buf|
    ensures ReadLE(buf, at, width) == FromLE(buf[at..at + width])
    decreases width
  {
    if width > 0 {
      ReadLEIsFromLE(buf, at + 1, width - 1);
      assert buf[at..at + width][1..] == buf[at + 1..at + width];
    }
  }

  /** A value written with ToLE is read back by the reader of that width. */
  lemma ReadLERoundTrip(buf: seq<byte>, at: nat, v: nat, width: nat)
    requires v < Pow256(width) && At(buf, at, ToLE(v, width))
    ensures ReadLE(buf, at, width) == v
  {
    AtSlice(buf, at, ToLE(v, width));
    ReadLEIsFromLE(buf, at, width);
    LERoundTrip(v, width);
  }

  lemma ReadUint32IsReadLE(buf: seq<byte>, at: nat)
    requires at + 4 <= |buf|
    ensures ReadUint32(buf, at) == ReadLE(buf, at, 4)
  {
    assert ReadLE(buf, at + 3, 1) == buf[at + 3] as int + 256 * ReadLE(buf, at + 4, 0);
  }

  /** Utils.uint32ToByteStreamLE followed by Utils.readUint32 gives back the value. */
  lemma ReadUint32RoundTrip(buf: seq<byte>, at: nat, v: nat)
    requires v < UINT32_LIMIT && At(buf, at, ToLE(v, 4))
    ensures ReadUint32(buf, at) == v
  {
    Pow256Values();
    ReadUint32IsReadLE(buf, at);
    ReadLERoundTrip(buf, at, v, 4);
  }

  /** Utils.uint64ToByteStreamLE followed by Utils.readInt64 gives back every value below 2^64. */
  lemma ReadUint64RoundTrip(buf: seq<byte>, at: nat, v: nat)
    requires v < UINT64_LIMIT && At(buf, at, ToLE(v, 8))
    ensures ReadUint64(buf, at) == v
  {
    Pow256Values();
    ReadUint32IsReadLE(buf, at);
    ReadUint32IsReadLE(buf, at + 4);
    ReadLESplit(buf, at, 4, 4);
    ReadLERoundTrip(buf, at, v, 8);
  }

  lemma ShiftDistributes(b: int, x: int, p: int, tail: int)
    ensures b + 256 * (x + p * tail) == (b + 256 * x) + (256 * p) * tail
  {
  }

  lemma {:induction false} ReadLESplit(buf: seq<byte>, at: nat, w1: nat, w2: nat)
    requires at + w1 + w2 <= |buf|
    ensures ReadLE(buf, at, w1 + w2) == ReadLE(buf, at, w1) + Pow256(w1) * ReadLE(buf, at + w1, w2)
    decreases w1
  {
    if w1 > 0 {
      ReadLESplit(buf, at + 1, w1 - 1, w2);
      var b, x, p, tail := buf[at] as int, ReadLE(buf, at + 1, w1 - 1), Pow256(w1 - 1), ReadLE(buf, at + w1, w2);
      assert ReadLE(buf, at, w1 + w2) == b + 256 * (x + p * tail);
      ShiftDistributes(b, x, p, tail);
    }
  }

  lemma Pow256Values()
    ensures Pow256(2) == 0x1_0000 && Pow256(4) == UINT32_LIMIT && Pow256(8) == UINT64_LIMIT
  {
  }

  /** Big-endian 16-bit encoding, used only for the port of a network address. */
  function ToBE16(v: nat): (r: seq<byte>)
    ensures |r| == 2
  {
    [(v / 256) % 256, v % 256]
  }

  function FromBE16(s: seq<byte>): nat
    requires |s| == 2
  {
    (s[0] as int) * 256 + s[1] as int
  }

  lemma BE16RoundTrip(v: nat)
    requires v < 0x1_0000
    ensures FromBE16(ToBE16(v)) == v
  {
  }

  /** The bytes of `s` in the opposite order (Utils.reverseBytes). */
  function Reverse(s: seq<byte>): (r: seq<byte>)
    ensures |r| == |s|
    ensures forall i :: 0 <= i < |s| ==> r[i] == s[|s| - 1 - i]
  {
    if s == [] then [] else Reverse(s[1..]) + [s[0]]
  }

  lemma ReverseInvolution(s: seq<byte>)
    ensures Reverse(Reverse(s)) == s
  {
    var r := Reverse(Reverse(s));
    assert |r| == |s|;
    forall i | 0 <= i < |s| ensures r[i] == s[i] {
    }
  }

  // ---------------------------------------------------------------------
  // VarInt

  /** Number of bytes of the minimal VarInt encoding of `v` (VarInt.sizeOf). */
  function VarIntSize(v: nat): (r: nat)
    ensures r == 1 || r == 3 || r == 5 || r == 9
  {
    if v < 253 then 1 else if v <= 0xFFFF then 3 else if v <= 0xFFFF_FFFF then 5 else 9
  }

  /** The minimal VarInt encoding: one byte below 253, else a 0xFD/0xFE/0xFF marker and 2/4/8 LE bytes. */
  function EncodeVarInt(v: nat): (r: seq<byte>)
    ensures |r| == VarIntSize(v)
  {
    if v < 253 then [v]
    else if v <= 0xFFFF then [253] + ToLE(v, 2)
    else if v <= 0xFFFF_FFFF then [254] + ToLE(v, 4)
    else [255] + ToLE(v, 8)
  }

  /**
   * Reads a VarInt at `at`: the value, and the number of bytes the reader
   * then moves past, or None when the buffer ends before the encoding does.
   * The readers advance by VarInt.getSizeInBytes, the size of the value's
   * minimal encoding, so after a non-minimal encoding they stop short of
   * the bytes actually read.
   */
  function ReadVarInt(buf: seq<byte>, at: nat): (r: Option<(nat, nat)>)
    ensures r.Some? ==> at + r.value.1 <= |buf| && r.value.1 > 0
    ensures r.Some? ==> at + 1 + VarIntPayloadWidth(buf[at]) <= |buf| && r.value.1 <= 1 + VarIntPayloadWidth(buf[at])
  {
    if at >= |buf| then None
    else
      var width := VarIntPayloadWidth(buf[at]);
      if at + 1 + width > |buf| then None
      else
        var value := if width == 0 then buf[at] as nat else ReadLE(buf, at + 1, width);
        assert VarIntSize(value) <= 1 + width by {
          if width > 0 {
            ReadLEIsFromLE(buf, at + 1, width);
            FromLEBound(buf[at + 1..at + 1 + width]);
            Pow256Values();
          }
        }
        Some((value, VarIntSize(value)))
  }

  /** The number of bytes that follow a VarInt's first byte. */
  function VarIntPayloadWidth(first: byte): nat
  {
    if first < 253 then 0 else if first == 253 then 2 else if first == 254 then 4 else 8
  }

  // ---------------------------------------------------------------------
  // Reading at an offset

  /**
   * `buf` holds exactly `e` starting at offset `at`. Stated byte by byte, so
   * that a proof unfolds only the bytes it looks at.
   */
  ghost predicate At(buf: seq<byte>, at: nat, e: seq<byte>)
    decreases |e|
  {
    at + |e| <= |buf| && (e == [] || (buf[at] == e[0] && At(buf, at + 1, e[1..])))
  }

  lemma {:induction false} AtSlice(buf: seq<byte>, at: nat, e: seq<byte>)
    requires At(buf, at, e)
    ensures at + |e| <= |buf| && buf[at..at + |e|] == e
    decreases |e|
  {
    if e != [] {
      AtSlice(buf, at + 1, e[1..]);
      assert buf[at..at + |e|] == [buf[at]] + buf[at + 1..at + |e|];
    }
  }

  lemma {:induction false} SliceAt(buf: seq<byte>, at: nat, e: seq<byte>)
    requires at + |e| <= |buf| && buf[at..at + |e|] == e
    ensures At(buf, at, e)
    decreases |e|
  {
    if e != [] {
      assert buf[at] == e[0];
      assert buf[at + 1..at + |e|] == e[1..];
      SliceAt(buf, at + 1, e[1..]);
    }
  }

  lemma {:induction false} AtSplit(buf: seq<byte>, at: nat, a: seq<byte>, b: seq<byte>)
    requires At(buf, at, a + b)
    ensures At(buf, at, a) && At(buf, at + |a|, b)
    decreases |a|
  {
    if a == [] {
      assert a + b == b;
    } else {
      assert (a + b)[1..] == a[1..] + b;
      AtSplit(buf, at + 1, a[1..], b);
    }
  }

  lemma AtFirst(buf: seq<byte>, at: nat, e: seq<byte>)
    requires At(buf, at, e) && |e| > 0
    ensures at < |buf| && buf[at] == e[0]
  {
  }

  /** A non-minimal encoding of 5 (marker 0xFD, then 5 as two bytes) is read as 5, but the reader moves past one byte only. */
  lemma NonMinimalVarIntAdvance(rest: seq<byte>)
    ensures ReadVarInt([253, 5, 0] + rest, 0) == Some((5, 1))
  {
    var buf: seq<byte> := [253, 5, 0] + rest;
    assert buf[0] == 253 && buf[1] == 5 && buf[2] == 0;
    assert ReadLE(buf, 1, 2) == 5;
  }

  /** A minimally encoded VarInt is read back as the value it encodes, occupying its size. */
  lemma VarIntRoundTrip(buf: seq<byte>, at: nat, v: nat)
    requires v < UINT64_LIMIT && At(buf, at, EncodeVarInt(v))
    ensures ReadVarInt(buf, at) == Some((v, VarIntSize(v)))
  {
    var e := EncodeVarInt(v);
    AtFirst(buf, at, e);
    Pow256Values();
    if v >= 253 {
      AtSplit(buf, at, e[..1], e[1..]);
      assert e == e[..1] + e[1..];
      if v <= 0xFFFF {
        ReadLERoundTrip(buf, at + 1, v, 2);
      } else if v <= 0xFFFF_FFFF {
        ReadLERoundTrip(buf, at + 1, v, 4);
      } else {
        ReadLERoundTrip(buf, at + 1, v, 8);
      }
    }
  }
}
