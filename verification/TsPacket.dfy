/**
 * Transport stream packets and PES headers (ISO/IEC 13818-1, sections 2.4.3.2 to 2.4.3.7): the layout the encoders
 * write, and a demultiplexer that reads it back.
 */
module TsPackets {
  import opened Bytes
  import opened Options

  const PACKET_SIZE := 188
  const TWO33 := 0x2_0000_0000

  /** TsTool::WritePts: a 33-bit time stamp in five bytes with marker bits. */
  function PutPts(fourbits: nat, pts: int): (s: seq<byte>)
    requires fourbits < 16
    ensures |s| == 5
  {
    var hi := pts / 0x4000_0000 % 8;
    var mid := pts / 0x8000 % 0x8000 * 2 + 1;
    var lo := pts % 0x8000 * 2 + 1;
    [fourbits * 16 + hi * 2 + 1, mid / 256, mid % 256, lo / 256, lo % 256]
  }

  function GetPts(s: seq<byte>): nat
    requires |s| >= 5
  {
    s[0] as int / 2 % 8 * 0x4000_0000 + (s[1] as int * 256 + s[2] as int) / 2 * 0x8000 +
    (s[3] as int * 256 + s[4] as int) / 2
  }

  lemma PtsRoundTrip(fourbits: nat, pts: int)
    requires fourbits < 16
    ensures GetPts(PutPts(fourbits, pts)) == pts % TWO33
    ensures PutPts(fourbits, pts)[0] as int / 16 == fourbits
  {
    var hi := pts / 0x4000_0000 % 8;
    var mid := pts / 0x8000 % 0x8000;
    var lo := pts % 0x8000;
    Digits(pts);
    HighByte(fourbits, hi);
    var s := PutPts(fourbits, pts);
    assert s[0] as int == fourbits * 16 + hi * 2 + 1;
    assert (s[1] as int * 256 + s[2] as int) == mid * 2 + 1;
    assert (s[3] as int * 256 + s[4] as int) == lo * 2 + 1;
  }

  /** The bits of a time stamp: 3, 15 and 15, each group followed by a marker bit of 1. */
  lemma PtsLayout(fourbits: nat, pts: int)
    requires fourbits < 16
    ensures PutPts(fourbits, pts) ==
            [16 * fourbits + 2 * (pts / 0x4000_0000 % 8) + 1,
             pts / 0x40_0000 % 256, 2 * (pts / 0x8000 % 128) + 1, pts / 128 % 256, 2 * (pts % 128) + 1]
  {
    PairLayout(pts / 0x8000 % 0x8000);
    PairLayout(pts % 0x8000);
    var a := pts / 0x8000;
    assert pts / 0x40_0000 == a / 128;
    Part7(a);
    Part7(pts);
  }

  lemma PairLayout(x: nat)
    requires x < 0x8000
    ensures (2 * x + 1) / 256 == x / 128 && (2 * x + 1) % 256 == 2 * (x % 128) + 1
  {
    assert 2 * x + 1 == x / 128 * 256 + (2 * (x % 128) + 1);
  }

  lemma Part7(a: int)
    ensures a % 0x8000 / 128 == a / 128 % 256 && a % 0x8000 % 128 == a % 128
  {
    var q := a / 128;
    assert a == q * 128 + a % 128 && q == q / 256 * 256 + q % 256;
    assert a == q / 256 * 0x8000 + (q % 256 * 128 + a % 128);
    assert a % 0x8000 == q % 256 * 128 + a % 128;
  }

  lemma HighByte(fourbits: nat, hi: nat)
    requires hi < 8
    ensures (fourbits * 16 + hi * 2 + 1) / 2 % 8 == hi && (fourbits * 16 + hi * 2 + 1) / 16 == fourbits
  {
  }

  /** A number modulo 2^33 from its three groups of 3, 15 and 15 bits. */
  lemma Digits(pts: int)
    ensures pts % TWO33 == pts / 0x4000_0000 % 8 * 0x4000_0000 + pts / 0x8000 % 0x8000 * 0x8000 + pts % 0x8000
  {
    var a := pts / 0x8000;
    var b := a / 0x8000;
    assert pts / 0x4000_0000 == b;
    assert pts == a * 0x8000 + pts % 0x8000;
    assert a == b * 0x8000 + a % 0x8000;
    assert b == b / 8 * 8 + b % 8;
    var low := b % 8 * 0x4000_0000 + a % 0x8000 * 0x8000 + pts % 0x8000;
    assert pts == b / 8 * TWO33 + low;
    assert 0 <= low < TWO33;
  }

  /** WritePcr: 33 bits of base, six reserved bits set, nine bits of extension zero. */
  function PutPcr(pcr: int): (s: seq<byte>)
    ensures |s| == 6
  {
    var v := pcr % TWO33 * 0x8000 + 0x7E00;
    [v / 0x100_0000_0000, v / 0x1_0000_0000 % 256, v / 0x100_0000 % 256, v / 0x1_0000 % 256, v / 256 % 256, v % 256]
  }

  function GetPcr(s: seq<byte>): nat
    requires |s| >= 6
  {
    s[0] as int * 0x200_0000 + s[1] as int * 0x2_0000 + s[2] as int * 0x200 + s[3] as int * 2 + s[4] as int / 128
  }

  lemma PcrRoundTrip(pcr: int)
    ensures GetPcr(PutPcr(pcr)) == pcr % TWO33
  {
    var v := pcr % TWO33 * 0x8000 + 0x7E00;
    var v1 := v / 256;
    var v2 := v1 / 256;
    var v3 := v2 / 256;
    var v4 := v3 / 256;
    var v5 := v4 / 256;
    assert v / 0x1_0000 == v2 && v / 0x100_0000 == v3 && v / 0x1_0000_0000 == v4 && v / 0x100_0000_0000 == v5;
    assert v == ((((v5 * 256 + v4 % 256) * 256 + v3 % 256) * 256 + v2 % 256) * 256 + v1 % 256) * 256 + v % 256;
    assert pcr % TWO33 == v / 0x8000;
  }

  /** 33 bits of base, six reserved bits set, nine bits of extension zero. */
  lemma PcrLayout(pcr: int)
    ensures var base := pcr % 0x2_0000_0000;
            PutPcr(pcr) ==
            [base / 0x200_0000, base / 0x2_0000 % 256, base / 0x200 % 256, base / 2 % 256, 128 * (base % 2) + 126, 0]
  {
    var base := pcr % TWO33;
    var v := base * 0x8000 + 0x7E00;
    var h := base / 2;
    assert v / 256 == base * 128 + 126;
    var v1 := base * 128 + 126;
    assert v1 == h * 256 + (128 * (base % 2) + 126);
    assert v1 / 256 == h && v1 % 256 == 128 * (base % 2) + 126;
    assert v / 0x1_0000 == h && v % 256 == 0;
    assert v / 0x100_0000 == h / 256 && v / 0x1_0000_0000 == h / 0x1_0000 && v / 0x100_0000_0000 == h / 0x100_0000;
    assert base / 0x200 == h / 256 && base / 0x2_0000 == h / 0x1_0000 && base / 0x200_0000 == h / 0x100_0000;
  }

  /** `x | 0x40` for a byte. */
  function Or40(x: nat): (r: nat)
    requires x < 256
    ensures r < 256
  {
    if x / 64 % 2 == 1 then x else x + 64
  }

  function TsHeader(pid: nat, start: bool, af: bool, cc: nat): (s: seq<byte>)
    requires pid < 0x10000 && cc < 16
    ensures |s| == 4
  {
    [0x47, if start then Or40(pid / 256) else pid / 256, pid % 256, (if af then 0x30 else 0x10) + cc]
  }

  function Fill(n: nat, b: byte): (s: seq<byte>)
    ensures |s| == n
  {
    seq(n, i => b)
  }

  /** Adaptation field, its length byte included: absent, stuffing only, or a PCR followed by stuffing. */
  function Adaptation(pcr: Option<int>, stuffing: nat): (s: seq<byte>)
    requires stuffing <= 183
    ensures |s| == stuffing + if pcr.Some? then 8 else 0
  {
    if pcr.Some? then [7 + stuffing, 0x10] + PutPcr(pcr.value) + Fill(stuffing, 0xff)
    else if stuffing == 0 then []
    else if stuffing == 1 then [0]
    else [stuffing - 1, 0] + Fill(stuffing - 2, 0xff)
  }

  /** PES header: start code, stream id, packet length (0 when it does not fit), flags and time stamps. */
  function PesHeader(sid: byte, size: nat, pts: int, dts: int): (s: seq<byte>)
    ensures |s| == (if pts != dts then 19 else 14) && s[1] == 0
  {
    var optional := if pts != dts then 10 else 5;
    var len := if size + optional + 3 > 0xffff then 0 else size + optional + 3;
    [0, 0, 1, sid, len / 256, len % 256, 0x80, if pts != dts then 0xc0 else 0x80, optional] +
    if pts != dts then PutPts(3, pts) + PutPts(1, dts) else PutPts(2, pts)
  }

  /** Sync byte, start flag over the pid, adaptation and payload flags over the counter. */
  lemma TsHeaderLayout(pid: nat, start: bool, af: bool, cc: nat)
    requires pid < 0x2000 && cc < 16
    ensures TsHeader(pid, start, af, cc) ==
            [0x47, (if start then 0x40 else 0) + pid / 256, pid % 256, (if af then 0x30 else 0x10) + cc]
  {
  }

  /** Start code, stream id, length, fixed bits '10', the flags for one time stamp or two, and their bytes. */
  lemma PesLayout(sid: byte, size: nat, pts: int, dts: int)
    ensures var m, n := if size <= 65527 then size + 8 else 0, if size <= 65522 then size + 13 else 0;
            PesHeader(sid, size, pts, dts) ==
            if pts == dts then [0, 0, 1, sid, m / 256, m % 256, 0x80, 0x80, 5] + PutPts(2, pts)
            else [0, 0, 1, sid, n / 256, n % 256, 0x80, 0xc0, 10] + PutPts(3, pts) + PutPts(1, dts)
  {
    hide PutPts;
    if pts != dts {
      var n := if size <= 65522 then size + 13 else 0;
      var a: seq<byte> := [0, 0, 1, sid, n / 256, n % 256, 0x80, 0xc0, 10];
      assert a + (PutPts(3, pts) + PutPts(1, dts)) == a + PutPts(3, pts) + PutPts(1, dts);
    }
  }

  /** Room for payload in a packet without stuffing. */
  function Room(pcr: Option<int>, pes: seq<byte>): nat
    requires |pes| <= 19
  {
    PACKET_SIZE - 4 - (if pcr.Some? then 8 else 0) - |pes|
  }

  function Take(pcr: Option<int>, pes: seq<byte>, data: seq<byte>): (n: nat)
    requires |pes| <= 19
    ensures n <= |data| && n <= Room(pcr, pes) && (data != [] ==> n > 0)
  {
    if |data| < Room(pcr, pes) then |data| else Room(pcr, pes)
  }

  /** Everything before the payload: TS header, adaptation field with `stuffing` filler bytes, PES header. */
  function Head(pid: nat, start: bool, cc: nat, pcr: Option<int>, pes: seq<byte>, stuffing: nat): (s: seq<byte>)
    requires pid < 0x10000 && cc < 16 && |pes| <= 19 && stuffing <= Room(pcr, pes) && stuffing <= 183
    ensures |s| == PACKET_SIZE - Room(pcr, pes) + stuffing
  {
    TsHeader(pid, start, pcr.Some? || stuffing > 0, cc) + Adaptation(pcr, stuffing) + pes
  }

  /** One packet: as much of `data` as fits, the rest of the packet stuffed in the adaptation field. */
  function Packet(pid: nat, start: bool, cc: nat, pcr: Option<int>, pes: seq<byte>, data: seq<byte>): (s: seq<byte>)
    requires pid < 0x10000 && cc < 16 && |pes| <= 19 && data != [] && (start || pcr.None?)
    ensures |s| == PACKET_SIZE
  {
    var n := Take(pcr, pes, data);
    Head(pid, start, cc, pcr, pes, Room(pcr, pes) - n) + data[..n]
  }

  function NextCc(cc: int): (r: nat)
    ensures r < 16
  {
    (cc + 1) % 16
  }

  /** All packets of one PES packet; `cc` is the continuity counter of the packet before. */
  function Packets(pid: nat, start: bool, cc: int, pcr: Option<int>, pes: seq<byte>,
                   data: seq<byte>): (ps: seq<seq<byte>>)
    requires pid < 0x10000 && |pes| <= 19 && (start || pcr.None?)
    ensures forall p :: p in ps ==> |p| == PACKET_SIZE
    decreases |data|
  {
    if data == [] then []
    else
      [Packet(pid, start, NextCc(cc), pcr, pes, data)] +
      Packets(pid, false, NextCc(cc), None, [], data[Take(pcr, pes, data)..])
  }
}
