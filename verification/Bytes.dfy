/** Bytes and the fixed-width integer codecs of BytesReader and BytesWriter. */
module Bytes {
  type byte = b: int | 0 <= b < 256

  /** Big-endian 16-bit write (BytesWriter::WriteUint16T keeps the low 16 bits). */
  function PutU16(v: nat): (s: seq<byte>)
    ensures |s| == 2
  {
    [v / 256 % 256, v % 256]
  }

  function PutU24(v: nat): (s: seq<byte>)
    ensures |s| == 3
  {
    [v / 65536 % 256, v / 256 % 256, v % 256]
  }

  function PutU32(v: nat): (s: seq<byte>)
    ensures |s| == 4
  {
    [v / 16777216 % 256, v / 65536 % 256, v / 256 % 256, v % 256]
  }

  /** Host byte order on the little-endian machines the server runs on. */
  function PutHost32(v: nat): (s: seq<byte>)
    ensures |s| == 4
  {
    [v % 256, v / 256 % 256, v / 65536 % 256, v / 16777216 % 256]
  }

  function U16(s: seq<byte>): (v: nat)
    requires |s| >= 2
    ensures v < 0x10000
  {
    s[0] as int * 256 + s[1] as int
  }

  function U24(s: seq<byte>): (v: nat)
    requires |s| >= 3
    ensures v < 0x100_0000
  {
    s[0] as int * 65536 + s[1] as int * 256 + s[2] as int
  }

  function U32(s: seq<byte>): (v: nat)
    requires |s| >= 4
    ensures v < 0x1_0000_0000
  {
    s[0] as int * 16777216 + s[1] as int * 65536 + s[2] as int * 256 + s[3] as int
  }

  function Host32(s: seq<byte>): (v: nat)
    requires |s| >= 4
    ensures v < 0x1_0000_0000
  {
    s[0] as int + s[1] as int * 256 + s[2] as int * 65536 + s[3] as int * 16777216
  }

  /** A 32-bit pattern read back as a signed int32. */
  function AsInt32(v: nat): (r: int)
    requires v < 0x1_0000_0000
    ensures -0x8000_0000 <= r < 0x8000_0000
  {
    if v < 0x8000_0000 then v else v - 0x1_0000_0000
  }

  lemma U16RoundTrip(v: nat)
    requires v < 0x10000
    ensures U16(PutU16(v)) == v
  {
  }

  lemma U24RoundTrip(v: nat)
    requires v < 0x100_0000
    ensures U24(PutU24(v)) == v
  {
    assert v / 65536 == v / 256 / 256;
  }

  lemma U32RoundTrip(v: nat)
    requires v < 0x1_0000_0000
    ensures U32(PutU32(v)) == v
    ensures Host32(PutHost32(v)) == v
  {
    var a := v / 256;
    var b := a / 256;
    assert v / 65536 == b;
    assert v / 16777216 == b / 256;
  }

  /** Reading depends on the leading bytes only. */
  lemma ReadPrefix(s: seq<byte>, t: seq<byte>)
    ensures |s| >= 3 ==> U24(s + t) == U24(s)
    ensures |s| >= 4 ==> U32(s + t) == U32(s) && Host32(s + t) == Host32(s)
  {
  }

  /** `dst` with `src` written at `at`. */
  function Overlay(dst: seq<byte>, at: nat, src: seq<byte>): (r: seq<byte>)
    requires at + |src| <= |dst|
    ensures |r| == |dst|
  {
    dst[..at] + src + dst[at + |src|..]
  }

  /** memcpy, and memmove when `src` was read from `dst` itself. */
  method MemCopy(dst: array<byte>, at: nat, src: seq<byte>)
    requires at + |src| <= dst.Length
    modifies dst
    ensures dst[..] == Overlay(old(dst[..]), at, src)
  {
    forall i | at <= i < at + |src| {
      dst[i] := src[i - at];
    }
  }

  lemma OverlayAppend(s: seq<byte>, at: nat, a: seq<byte>, b: seq<byte>)
    requires at + |a| + |b| <= |s|
    ensures Overlay(Overlay(s, at, a), at + |a|, b) == Overlay(s, at, a + b)
  {
  }
}
