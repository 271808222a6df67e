/**
 * The chunk format byte by byte (section 5.3.1 of Adobe's RTMP Specification 1.0): what the parser reads and the writer
 * writes, in plain numbers.
 */
module RtmpWire {
  import opened Bytes
  import opened Options
  import opened RtmpParser
  import opened RtmpWriter

  // ---- Reading ----

  /** The three basic headers of chunk stream `csid` with format `fmt`, as they are read. */
  ghost predicate BasicOf(s: seq<byte>, fmt: nat, csid: nat) {
    (|s| == 1 && s[0] as int == 64 * fmt + csid && 2 <= csid < 64) ||
    (|s| == 2 && s[0] as int == 64 * fmt && csid == 64 + s[1] as int) ||
    (|s| == 3 && s[0] as int == 64 * fmt + 1 && csid == 64 + s[1] as int + 256 * s[2] as int)
  }

  /** Full header: timestamp and length in three bytes each, type, stream id with its low byte first. */
  lemma ReadFull(s: seq<byte>, csid: nat, t2: byte, t1: byte, t0: byte, l2: byte, l1: byte, l0: byte, typ: byte,
                 s0: byte, s1: byte, s2: byte, s3: byte, rest: seq<byte>)
    requires BasicOf(s, 0, csid)
    ensures ReadHead(s + [t2, t1, t0, l2, l1, l0, typ, s0, s1, s2, s3] + rest) ==
            Some(Head(0, csid, |s| + 11, 65536 * t2 as int + 256 * t1 as int + t0 as int,
                      65536 * l2 as int + 256 * l1 as int + l0 as int, typ as int,
                      s0 as int + 256 * s1 as int + 65536 * s2 as int + 16777216 * s3 as int))
  {
    var f := [t2, t1, t0, l2, l1, l0, typ, s0, s1, s2, s3] + rest;
    assert s + [t2, t1, t0, l2, l1, l0, typ, s0, s1, s2, s3] + rest == s + f;
    assert (s + f)[|s|..] == f;
    assert f[3..][0] == l2 && f[3..][1] == l1 && f[3..][2] == l0;
    assert f[7..][0] == s0 && f[7..][1] == s1 && f[7..][2] == s2 && f[7..][3] == s3;
  }

  /** Without the stream id. */
  lemma ReadShorter(s: seq<byte>, csid: nat, t2: byte, t1: byte, t0: byte, l2: byte, l1: byte, l0: byte, typ: byte,
                    rest: seq<byte>)
    requires BasicOf(s, 1, csid)
    ensures ReadHead(s + [t2, t1, t0, l2, l1, l0, typ] + rest) ==
            Some(Head(1, csid, |s| + 7, 65536 * t2 as int + 256 * t1 as int + t0 as int,
                      65536 * l2 as int + 256 * l1 as int + l0 as int, typ as int, 0))
  {
    var f := [t2, t1, t0, l2, l1, l0, typ] + rest;
    assert s + [t2, t1, t0, l2, l1, l0, typ] + rest == s + f;
    assert (s + f)[|s|..] == f;
    assert f[3..][0] == l2 && f[3..][1] == l1 && f[3..][2] == l0;
  }

  /** With the timestamp delta only, and with nothing. */
  lemma ReadShortest(s: seq<byte>, csid: nat, t2: byte, t1: byte, t0: byte, rest: seq<byte>)
    ensures BasicOf(s, 2, csid) ==>
              ReadHead(s + [t2, t1, t0] + rest) ==
              Some(Head(2, csid, |s| + 3, 65536 * t2 as int + 256 * t1 as int + t0 as int, 0, 0, 0))
    ensures BasicOf(s, 3, csid) && rest != [] ==> ReadHead(s + rest) == Some(Head(3, csid, |s|, 0, 0, 0, 0))
  {
    var f := [t2, t1, t0] + rest;
    assert s + [t2, t1, t0] + rest == s + f;
    assert (s + f)[|s|..] == f && (s + rest)[|s|..] == rest;
  }

  /**
   * The timestamp rules, for a message in one chunk on a stream that last had the header `ch.prev` and the distance
   * `ch.delta`: a full header has the timestamp itself, a shorter one its distance from the last, and without a header
   * it is the last distance again. 0xFFFFFF announces four more bytes, most significant first, which replace the
   * distance; without a header they are there if they were the last time, after a full header they are skipped.
   */
  lemma TimestampRules(ch: Chan, chunk: int, h: Head, rest: seq<byte>, n: nat)
    requires ch.pkt == None && h.fmt < 4 && n > 0 && chunk >= n
    requires n == if h.fmt <= 1 then h.len else ch.prev.len
    requires |rest| >= n + 4
    ensures var long := if h.fmt == 3 then ch.ext else h.ts == 0xFFFFFF;
            var at := if long then 4 else 0;
            var x := 16777216 * rest[0] as int + 65536 * rest[1] as int + 256 * rest[2] as int + rest[3] as int;
            var d := if long then x else if h.fmt == 3 then ch.delta else h.ts;
            var ts := if h.fmt == 0 then h.ts else (ch.prev.ts + d) % 0x1_0000_0000;
            var typ := if h.fmt <= 1 then h.typ else ch.prev.typ;
            var sid := if h.fmt == 0 then h.sid else ch.prev.sid;
            StepChan(ch, chunk, h, rest) ==
            Took(h.size + at + n, Chan(Header(ts, n, typ, sid), None, if h.fmt == 0 then 0 else d, long),
                 Some(Message(h.csid, ts, typ, sid, rest[at..at + n])))
  {
    hide Touch, TakeBody, Extend;
    var c := Touch(ch, chunk, h);
    TouchRule(ch, chunk, h, n);
    if c.ext {
      var x := U32(rest);
      ExtendRule(c, h, x);
      TakesAll(Extend(c, h, x), chunk, h.csid, h.size + 4, rest[4..], n);
      assert rest[4..][..n] == rest[4..4 + n];
    } else {
      TakesAll(c, chunk, h.csid, h.size, rest, n);
      assert rest[..n] == rest[0..0 + n];
    }
  }

  lemma TouchRule(ch: Chan, chunk: int, h: Head, n: nat)
    requires ch.pkt == None && h.fmt < 4 && n > 0 && n == if h.fmt <= 1 then h.len else ch.prev.len
    ensures var d := if h.fmt == 3 then ch.delta else h.ts;
            Touch(ch, chunk, h) ==
            Chan(ch.prev,
                 Some(Packet(n, [], Header(if h.fmt == 0 then h.ts else (ch.prev.ts + d) % 0x1_0000_0000, n,
                                           if h.fmt <= 1 then h.typ else ch.prev.typ,
                                           if h.fmt == 0 then h.sid else ch.prev.sid))),
                 if h.fmt == 0 then 0 else d, if h.fmt == 3 then ch.ext else h.ts == 0xFFFFFF)
  {
  }

  lemma ExtendRule(c: Chan, h: Head, x: nat)
    requires c.pkt.Some?
    ensures Extend(c, h, x) ==
            if h.fmt == 0 then c
            else
              var hdr := c.pkt.value.hdr.(ts := (c.prev.ts + x) % 0x1_0000_0000);
              c.(pkt := Some(c.pkt.value.(hdr := hdr)), delta := x)
  {
  }

  lemma TakesAll(c: Chan, chunk: int, csid: nat, at: nat, rest: seq<byte>, n: nat)
    requires c.pkt.Some? && c.pkt.value.cap == n && c.pkt.value.data == [] && chunk >= n && |rest| >= n
    ensures var h := c.pkt.value.hdr;
            TakeBody(c, chunk, csid, at, rest) ==
            Took(at + n, Chan(h, None, c.delta, c.ext), Some(Message(csid, h.ts, h.typ, h.sid, rest[..n])))
  {
    assert [] + rest[..n] == rest[..n];
  }

  /** A message of type 1 with four bytes or more sets the chunk size, high byte first; no other chunk changes it. */
  lemma ChunkSizeRule(p: Parser, b: seq<byte>)
    requires OneChunk(p, b).Next?
    ensures var s := OneChunk(p, b);
            s.p.chunk ==
            if s.msg.Some? && s.msg.value.typ == 1 && |s.msg.value.data| >= 4 then
              var d := s.msg.value.data;
              var v := 16777216 * d[0] as int + 65536 * d[1] as int + 256 * d[2] as int + d[3] as int;
              if v < 0x8000_0000 then v else v - 0x1_0000_0000
            else p.chunk
  {
  }

  /** The message that sets it, as it is sent on chunk stream 2, and the same bytes with another type. */
  lemma SetChunkSizeOnWire(typ: byte, a: byte, b: byte, c: byte, d: byte, tail: seq<byte>)
    requires a < 128
    ensures var s := OneChunk(Parser(map[], 128), [2, 0, 0, 0, 0, 0, 4, typ, 0, 0, 0, 0, a, b, c, d] + tail);
            s.Next? && s.n == 16 && s.msg == Some(Message(2, 0, typ as int, 0, [a, b, c, d])) &&
            s.p.chunk == if typ == 1 then 16777216 * a as int + 65536 * b as int + 256 * c as int + d as int else 128
  {
    var x := [2, 0, 0, 0, 0, 0, 4, typ, 0, 0, 0, 0, a, b, c, d] + tail;
    var rest := [a, b, c, d] + tail;
    assert x == [2] + [0, 0, 0, 0, 0, 4, typ, 0, 0, 0, 0] + rest;
    ReadFull([2], 2, 0, 0, 0, 0, 0, 4, typ, 0, 0, 0, 0, rest);
    hide ReadHead;
    assert x[12..] == rest && rest[..4] == [a, b, c, d];
    var none: seq<byte> := [];
    assert none + rest[..4] == [a, b, c, d];
  }

  // ---- Writing ----

  /** The writer's basic headers. */
  lemma BasicWritten(fmt: nat, csid: nat)
    requires fmt < 4 && 2 <= csid < 65600
    ensures BasicOf(Basic(fmt, csid), fmt, csid)
    ensures |Basic(fmt, csid)| == if csid < 64 then 1 else if csid < 320 then 2 else 3
  {
  }

  lemma NumberWritten(v: nat)
    requires v < 0x100_0000
    ensures PutU24(v) == [v / 65536, v / 256 % 256, v % 256]
  {
  }

  lemma FieldsWritten(fmt: nat, x: nat, m: Message)
    requires fmt < 4 && |m.data| < 0x100_0000 && m.typ < 256 && x < 0xFFFFFF
    ensures var l := |m.data|;
            MessageHeader(fmt, x, m) ==
            if fmt == 0 then
              [x / 65536, x / 256 % 256, x % 256, l / 65536, l / 256 % 256, l % 256, m.typ,
               m.sid % 256, m.sid / 256 % 256, m.sid / 65536 % 256, m.sid / 16777216 % 256]
            else if fmt == 1 then [x / 65536, x / 256 % 256, x % 256, l / 65536, l / 256 % 256, l % 256, m.typ]
            else if fmt == 2 then [x / 65536, x / 256 % 256, x % 256]
            else []
  {
    hide PutU24;
    NumberWritten(x);
    NumberWritten(|m.data|);
  }

  /** One chunk: the header, and the body behind it. */
  lemma OneChunkWritten(w: Writer, size: nat, g: Outgoing)
    requires size >= 1 && |g.msg.data| <= size && Stamp(OutOf(w, g.msg.csid), g.msg, g.fmt0) < 0xFFFFFF
    ensures var o := OutOf(w, g.msg.csid); var fmt := Fmt(o, g.msg, g.fmt0);
            Encode(w, size, g) ==
            Basic(fmt, g.msg.csid) + MessageHeader(fmt, Stamp(o, g.msg, g.fmt0), g.msg) + g.msg.data
  {
    hide Basic, MessageHeader, Stamp, Fmt;
    var o := OutOf(w, g.msg.csid);
    var fmt := Fmt(o, g.msg, g.fmt0);
    var x := Stamp(o, g.msg, g.fmt0);
    assert FirstHeader(o, g.msg, g.fmt0) == Basic(fmt, g.msg.csid) + MessageHeader(fmt, x, g.msg);
  }

  /** A full header. */
  lemma WrittenFull(w: Writer, size: nat, m: Message)
    requires size >= 1 && |m.data| <= size && |m.data| < 0x100_0000 && m.ts < 0xFFFFFF && m.typ < 256
    ensures var t, l := m.ts, |m.data|;
            Encode(w, size, Outgoing(m, true)) ==
            Basic(0, m.csid) +
            [t / 65536, t / 256 % 256, t % 256, l / 65536, l / 256 % 256, l % 256, m.typ,
             m.sid % 256, m.sid / 256 % 256, m.sid / 65536 % 256, m.sid / 16777216 % 256] + m.data
  {
    hide Basic, MessageHeader;
    OneChunkWritten(w, size, Outgoing(m, true));
    FieldsWritten(0, m.ts, m);
  }

  /**
   * The header chosen after a message `p` on the stream, sent with distance `d`: nothing if type, length, stream id and
   * distance are the same, only the distance if just that is another, all but the stream id if that is the same, and a
   * full header otherwise or when the time went back.
   */
  lemma WrittenNext(p: Header, d: nat, size: nat, m: Message)
    requires size >= 1 && |m.data| <= size && |m.data| < 0x100_0000 && m.ts < 0xFFFFFF && m.typ < 256
    ensures var w: Writer := map[m.csid := OutChan(Some(p), d)];
            var x, l := m.ts - p.ts, |m.data|;
            Encode(w, size, Outgoing(m, false)) ==
            (if m.ts < p.ts || m.sid != p.sid then
               Basic(0, m.csid) +
               [m.ts / 65536, m.ts / 256 % 256, m.ts % 256, l / 65536, l / 256 % 256, l % 256, m.typ,
                m.sid % 256, m.sid / 256 % 256, m.sid / 65536 % 256, m.sid / 16777216 % 256]
             else if m.typ != p.typ || l != p.len then
               Basic(1, m.csid) + [x / 65536, x / 256 % 256, x % 256, l / 65536, l / 256 % 256, l % 256, m.typ]
             else if x != d then Basic(2, m.csid) + [x / 65536, x / 256 % 256, x % 256]
             else Basic(3, m.csid)) + m.data
  {
    hide Basic, MessageHeader, Encode, FirstHeader;
    var o := OutChan(Some(p), d);
    var w: Writer := map[m.csid := o];
    OneChunkWritten(w, size, Outgoing(m, false));
    FieldsWritten(Fmt(o, m, false), Stamp(o, m, false), m);
    assert Basic(3, m.csid) + [] == Basic(3, m.csid);
  }

  /** An extended timestamp follows the header of every chunk, low byte first. */
  lemma WrittenLong(w: Writer, m: Message)
    requires 4096 < |m.data| <= 8192 && 0xFFFFFF <= m.ts < 0x1_0000_0000 && m.typ < 256
    ensures var t, l := m.ts, |m.data|;
            var x: seq<byte> := [t % 256, t / 256 % 256, t / 65536 % 256, t / 16777216];
            Encode(w, 4096, Outgoing(m, true)) ==
            Basic(0, m.csid) +
            [255, 255, 255, l / 65536, l / 256 % 256, l % 256, m.typ,
             m.sid % 256, m.sid / 256 % 256, m.sid / 65536 % 256, m.sid / 16777216 % 256] + x + m.data[..4096] +
            Basic(3, m.csid) + x + m.data[4096..]
  {
    hide Basic, MessageHeader, PutHost32, Body;
    var x := PutHost32(m.ts);
    LongFields(m);
    TwoPieces(Basic(3, m.csid) + x, m.data);
    var o := OutOf(w, m.csid);
    assert FirstHeader(o, m, true) == Basic(0, m.csid) + MessageHeader(0, m.ts, m) + x;
    assert NextHeader(m.csid, m.ts) == Basic(3, m.csid) + x;
    var a, b, c, n := FirstHeader(o, m, true), m.data[..4096], m.data[4096..], NextHeader(m.csid, m.ts);
    assert a + (b + n + c) == a + b + n + c;
  }

  lemma LongFields(m: Message)
    requires |m.data| < 0x100_0000 && m.typ < 256 && 0xFFFFFF <= m.ts < 0x1_0000_0000
    ensures var l := |m.data|;
            MessageHeader(0, m.ts, m) ==
            [255, 255, 255, l / 65536, l / 256 % 256, l % 256, m.typ,
             m.sid % 256, m.sid / 256 % 256, m.sid / 65536 % 256, m.sid / 16777216 % 256]
    ensures PutHost32(m.ts) == [m.ts % 256, m.ts / 256 % 256, m.ts / 65536 % 256, m.ts / 16777216]
  {
    NumberWritten(|m.data|);
    NumberWritten(0xFFFFFF);
    hide PutU24;
  }

  lemma TwoPieces(next: seq<byte>, data: seq<byte>)
    requires 4096 < |data| <= 8192
    ensures Body(4096, next, data) == data[..4096] + next + data[4096..]
  {
  }
}
