/** Parsing what the writer produced gives back the messages that were sent. */
module RtmpRoundTrip {
  import opened Bytes
  import opened Options
  import opened RtmpParser
  import opened RtmpSegmentation
  import opened RtmpWriter

  /** Field ranges of a message that the wire format can carry, but for its timestamp. */
  ghost predicate Framed(m: Message) {
    2 <= m.csid < 65600 && m.typ < 256 && m.sid < TWO32 && |m.data| < 0x100_0000
  }

  ghost predicate WellFormed(m: Message) {
    Framed(m) && m.ts < TWO32
  }

  /** The header number is one that needs no extended timestamp. */
  ghost predicate Short(o: OutChan, g: Outgoing) {
    Stamp(o, g.msg, g.fmt0) < TS_EXTENDED
  }

  /**
   * The header says how long the message is. Short headers leave the length to the parser, which takes the length of
   * the message before, but a whole chunk if that message was empty.
   */
  ghost predicate Spelled(o: OutChan, m: Message, fmt0: bool) {
    m.data == [] ==> Fmt(o, m, fmt0) <= 1
  }

  /** Writer and parser agree on a chunk stream that is between messages. */
  ghost predicate Synced(o: OutChan, ch: Chan) {
    ch.pkt == None && !ch.ext && ch.delta == o.delta && ch.prev == PrevOf(o) && PrevOf(o).ts < TWO32
  }

  /**
   * What a message needs of that: a full header nothing, a shorter one the fields it leaves out and, if it leaves out
   * all of them, the delta and whether an extended timestamp follows.
   */
  ghost predicate Agrees(o: OutChan, ch: Chan, m: Message, fmt0: bool) {
    ch.pkt == None &&
    (Fmt(o, m, fmt0) != 0 ==> ch.prev == PrevOf(o)) &&
    (Fmt(o, m, fmt0) == 3 ==> if Stamp(o, m, fmt0) < TS_EXTENDED then !ch.ext && ch.delta == o.delta else ch.ext)
  }

  /** The timestamp as the parser adds it up. */
  function Wrapped(m: Message): Message {
    m.(ts := m.ts % TWO32)
  }

  ghost predicate InSync(w: Writer, p: Parser) {
    forall csid :: Synced(OutOf(w, csid), ChanOf(p, csid))
  }

  /** The chunk sizes agree as far as this message can tell. */
  ghost predicate SizesAgree(chunk: int, size: nat, m: Message) {
    chunk == size || (|m.data| <= chunk && |m.data| <= size)
  }

  lemma BasicRead(fmt: nat, csid: nat, rest: seq<byte>)
    requires fmt < 4 && 2 <= csid < 65600 && rest != []
    ensures var b := Basic(fmt, csid);
            var s := b + rest;
            |s| > 1 && s[0] / 64 == fmt && BasicSize(s[0]) == |b| && BasicCsid(s) == csid && s[|b|..] == rest
  {
  }

  lemma U24Front(v: nat, x: seq<byte>)
    requires v < 0x100_0000
    ensures U24(PutU24(v) + x) == v && (PutU24(v) + x)[3..] == x
  {
    U24RoundTrip(v);
    ReadPrefix(PutU24(v), x);
    hide PutU24, U24;
  }

  lemma Host32Front(v: nat, x: seq<byte>)
    requires v < TWO32
    ensures Host32(PutHost32(v) + x) == v
  {
    U32RoundTrip(v);
    ReadPrefix(PutHost32(v), x);
  }

  /** The message header is read back field by field, a long number as 0xFFFFFF. */
  lemma FieldsRead(o: OutChan, m: Message, fmt0: bool, at: nat, rest: seq<byte>)
    requires Framed(m)
    ensures var fmt := Fmt(o, m, fmt0);
            var stamp := Stamp(o, m, fmt0);
            var mh := MessageHeader(fmt, stamp, m);
            |mh| == HeadNeed(fmt) &&
            Fields(fmt, m.csid, at, mh + rest) ==
            Head(fmt, m.csid, at + |mh|,
                 if fmt <= 2 then Min24(stamp) else 0,
                 if fmt <= 1 then |m.data| else 0,
                 if fmt <= 1 then m.typ else 0,
                 if fmt == 0 then m.sid else 0)
  {
    hide PutU24, PutHost32, U24, Host32, Fmt, Stamp;
    var fmt := Fmt(o, m, fmt0);
    var ts := Min24(Stamp(o, m, fmt0));
    var a, b, c := PutU24(ts), PutU24(|m.data|), PutHost32(m.sid);
    var f := MessageHeader(fmt, Stamp(o, m, fmt0), m) + rest;
    if fmt == 0 {
      var x := [m.typ] + (c + rest);
      assert f == a + (b + x);
      U24Front(ts, b + x);
      U24Front(|m.data|, x);
      assert f[6] == f[3..][3..][0] && f[7..] == x[1..] == c + rest;
      Host32Front(m.sid, rest);
    } else if fmt == 1 {
      assert f == a + (b + ([m.typ] + rest));
      U24Front(ts, b + ([m.typ] + rest));
      U24Front(|m.data|, [m.typ] + rest);
      assert f[6] == f[3..][3..][0];
    } else if fmt == 2 {
      U24Front(ts, rest);
    }
  }

  /** The head the parser reads off a first chunk. */
  function FirstHead(o: OutChan, m: Message, fmt0: bool): Head {
    var fmt := Fmt(o, m, fmt0);
    Head(fmt, m.csid, |FirstHeader(o, m, fmt0)|,
         if fmt <= 2 then Stamp(o, m, fmt0) else 0,
         if fmt <= 1 then |m.data| else 0,
         if fmt <= 1 then m.typ else 0,
         if fmt == 0 then m.sid else 0)
  }

  lemma FirstHeadRead(o: OutChan, m: Message, fmt0: bool, rest: seq<byte>)
    requires Framed(m) && Stamp(o, m, fmt0) < TS_EXTENDED && (rest != [] || Fmt(o, m, fmt0) <= 2)
    ensures ReadHead(FirstHeader(o, m, fmt0) + rest) == Some(FirstHead(o, m, fmt0))
  {
    var fmt := Fmt(o, m, fmt0);
    var b := Basic(fmt, m.csid);
    var mh := MessageHeader(fmt, Stamp(o, m, fmt0), m);
    assert FirstHeader(o, m, fmt0) + rest == b + (mh + rest);
    BasicRead(fmt, m.csid, mh + rest);
    FieldsRead(o, m, fmt0, |b|, rest);
  }

  lemma NextHeadRead(csid: nat, rest: seq<byte>)
    requires 2 <= csid < 65600 && rest != []
    ensures ReadHead(Basic(3, csid) + rest) == Some(Head(3, csid, |Basic(3, csid)|, 0, 0, 0, 0))
  {
    BasicRead(3, csid, rest);
  }

  /** The stream state while the body of `m` is arriving, `done` bytes of it received. */
  function Midway(m: Message, delta: nat, done: nat): Chan
    requires done <= |m.data|
  {
    Chan(HeaderOf(m), Some(Packet(|m.data|, m.data[..done], HeaderOf(m))), delta, false)
  }

  lemma FirstTouch(o: OutChan, ch: Chan, chunk: int, m: Message, fmt0: bool)
    requires Framed(m) && Stamp(o, m, fmt0) < TS_EXTENDED && Agrees(o, ch, m, fmt0) && Spelled(o, m, fmt0)
    ensures var t := Touch(ch, chunk, FirstHead(o, m, fmt0));
            t == Midway(Wrapped(m), OutAfter(o, m, fmt0).delta, 0).(prev := ch.prev)
  {
  }

  /** Filling from a midway point with the next piece of the body. */
  lemma FillMidway(m: Message, prev: Header, delta: nat, done: nat, n: nat, at: nat, rest: seq<byte>)
    requires done + n <= |m.data| && |rest| >= n && rest[..n] == m.data[done..done + n]
    ensures Fill(Midway(m, delta, done).(prev := prev), m.csid, at, rest[..n]) ==
            if done + n == |m.data|
            then Took(at, Chan(HeaderOf(m), None, delta, false), Some(m))
            else Took(at, Midway(m, delta, done + n), None)
  {
    assert m.data[..done] + m.data[done..done + n] == m.data[..done + n];
    assert m.data[..|m.data|] == m.data;
  }

  /** The parser after `m` has been delivered. */
  function After(p: Parser, m: Message, delta: nat): Parser {
    Parser(p.chans[m.csid := Chan(HeaderOf(m), None, delta, false)], ChunkAfter(p.chunk, Some(m)))
  }

  function MidParser(p: Parser, m: Message, delta: nat, done: nat): Parser
    requires done <= |m.data|
  {
    p.(chans := p.chans[m.csid := Midway(m, delta, done)])
  }

  /** Size of the next piece of a body. */
  function Piece(size: nat, left: nat): nat {
    if left <= size then left else size
  }

  /** The first chunk of a message with a short header number, from any stream state that agrees. */
  lemma ShortFirst(p: Parser, o: OutChan, size: nat, m: Message, fmt0: bool, tail: seq<byte>)
    requires Framed(m) && Stamp(o, m, fmt0) < TS_EXTENDED && Agrees(o, ChanOf(p, m.csid), m, fmt0)
    requires size >= 1 && SizesAgree(p.chunk, size, m) && Spelled(o, m, fmt0)
    ensures var n := Piece(size, |m.data|);
            var delta := OutAfter(o, m, fmt0).delta;
            var head := FirstHeader(o, m, fmt0);
            var v := Wrapped(m);
            OneChunk(p, head + (m.data[..n] + tail)) ==
            if n == |m.data| then Next(After(p, v, delta), |head| + n, Some(v))
            else Next(MidParser(p, v, delta, n), |head| + n, None)
  {
    hide OneChunk, ReadHead, Touch, Fill, FirstHeader, OutAfter, Fmt, Stamp;
    var n := Piece(size, |m.data|);
    var ch := ChanOf(p, m.csid);
    var h := FirstHead(o, m, fmt0);
    var rest := m.data[..n] + tail;
    var delta := OutAfter(o, m, fmt0).delta;
    var v := Wrapped(m);
    FirstHeadRead(o, m, fmt0, rest);
    FirstTouch(o, ch, p.chunk, m, fmt0);
    assert (FirstHeader(o, m, fmt0) + rest)[h.size..] == rest;
    assert rest[..n] == v.data[0..0 + n];
    FillMidway(v, ch.prev, delta, 0, n, h.size + n, rest);
    var mid := Midway(v, delta, 0).(prev := ch.prev);
    assert mid.pkt.Some? && !mid.ext && BodySize(mid, p.chunk) == n;
    ShortChunk(p, FirstHeader(o, m, fmt0) + rest, h, mid, n);
  }

  /** The first chunk of a message from a synchronised pair, followed by anything. */
  lemma FirstChunk(p: Parser, o: OutChan, size: nat, m: Message, fmt0: bool, tail: seq<byte>)
    requires WellFormed(m) && Stamp(o, m, fmt0) < TS_EXTENDED && Synced(o, ChanOf(p, m.csid))
    requires size >= 1 && SizesAgree(p.chunk, size, m) && Spelled(o, m, fmt0)
    ensures var n := Piece(size, |m.data|);
            var delta := OutAfter(o, m, fmt0).delta;
            var head := FirstHeader(o, m, fmt0);
            OneChunk(p, head + (m.data[..n] + tail)) ==
            if n == |m.data| then Next(After(p, m, delta), |head| + n, Some(m))
            else Next(MidParser(p, m, delta, n), |head| + n, None)
  {
    hide OneChunk, FirstHeader, After, MidParser, OutAfter;
    ShortFirst(p, o, size, m, fmt0, tail);
    assert Wrapped(m) == m;
  }

  /** A chunk without an extended timestamp, given what its header does to the stream. */
  lemma ShortChunk(p: Parser, b: seq<byte>, h: Head, mid: Chan, n: nat)
    requires ReadHead(b) == Some(h) && Touch(ChanOf(p, h.csid), p.chunk, h) == mid && !mid.ext
    requires mid.pkt.Some? && BodySize(mid, p.chunk) == n <= |b| - h.size
    ensures var f := Fill(mid, h.csid, h.size + n, b[h.size..][..n]);
            OneChunk(p, b) == Next(Parser(p.chans[h.csid := f.chan], ChunkAfter(p.chunk, f.msg)), f.n, f.msg)
  {
    hide Touch, Fill, ReadHead, BodySize, ChunkAfter;
  }

  /** A continuation chunk takes a timestamp of 0 for one not set yet and adds the delta. */
  function Resumed(m: Message, delta: nat): Message {
    if m.ts == 0 then m.(ts := delta % TWO32) else m
  }

  /** Otherwise it leaves the message header alone. */
  lemma NextTouch(chunk: int, m: Message, delta: nat, done: nat)
    requires Framed(m) && done <= |m.data|
    ensures Touch(Midway(m, delta, done), chunk, Head(3, m.csid, |Basic(3, m.csid)|, 0, 0, 0, 0)) ==
            Midway(Resumed(m, delta), delta, done).(prev := HeaderOf(m))
  {
  }

  /** Any later chunk of a message, followed by anything. */
  lemma LaterChunk(p: Parser, size: nat, m: Message, delta: nat, done: nat, tail: seq<byte>)
    requires Framed(m) && done < |m.data|
    requires size >= 1 && p.chunk == size && ChanOf(p, m.csid) == Midway(m, delta, done)
    ensures var n := Piece(size, |m.data| - done);
            var head := Basic(3, m.csid);
            var v := Resumed(m, delta);
            OneChunk(p, head + (m.data[done..done + n] + tail)) ==
            if done + n == |m.data| then Next(After(p, v, delta), |head| + n, Some(v))
            else Next(MidParser(p, v, delta, done + n), |head| + n, None)
  {
    hide OneChunk, ReadHead, Touch, Fill, Basic;
    var n := Piece(size, |m.data| - done);
    var b := Basic(3, m.csid);
    var v := Resumed(m, delta);
    var rest := m.data[done..done + n] + tail;
    NextHeadRead(m.csid, rest);
    NextTouch(p.chunk, m, delta, done);
    assert (b + rest)[|b|..] == rest;
    assert rest[..n] == v.data[done..done + n];
    FillMidway(v, HeaderOf(m), delta, done, n, |b| + n, rest);
    var mid := Midway(v, delta, done).(prev := HeaderOf(m));
    assert mid.pkt.Some? && !mid.ext && BodySize(mid, p.chunk) == n;
    ShortChunk(p, b + rest, Head(3, m.csid, |b|, 0, 0, 0, 0), mid, n);
  }

  /** A later chunk when the timestamp is settled. */
  lemma NextChunk(p: Parser, size: nat, m: Message, delta: nat, done: nat, tail: seq<byte>)
    requires WellFormed(m) && done < |m.data| && (m.ts == 0 ==> delta == 0)
    requires size >= 1 && p.chunk == size && ChanOf(p, m.csid) == Midway(m, delta, done)
    ensures var n := Piece(size, |m.data| - done);
            var head := Basic(3, m.csid);
            OneChunk(p, head + (m.data[done..done + n] + tail)) ==
            if done + n == |m.data| then Next(After(p, m, delta), |head| + n, Some(m))
            else Next(MidParser(p, m, delta, done + n), |head| + n, None)
  {
    hide OneChunk, Basic, After, MidParser;
    LaterChunk(p, size, m, delta, done, tail);
    assert Resumed(m, delta) == m;
  }

  /** `bytes` delivers exactly `m` and takes `p` to `q`, whatever follows. */
  ghost predicate Delivers(p: Parser, bytes: seq<byte>, m: Message, q: Parser, tail: seq<byte>) {
    var o := Run(q, tail);
    Run(p, bytes + tail) == o.(msgs := [m] + o.msgs)
  }

  lemma DeliversNow(p: Parser, bytes: seq<byte>, m: Message, q: Parser, tail: seq<byte>)
    requires OneChunk(p, bytes + tail) == Next(q, |bytes|, Some(m))
    ensures Delivers(p, bytes, m, q, tail)
  {
    hide OneChunk;
    RunNext(p, bytes + tail);
    assert (bytes + tail)[|bytes|..] == tail;
  }

  lemma DeliversLater(p: Parser, a: seq<byte>, mid: Parser, b: seq<byte>, m: Message, q: Parser, tail: seq<byte>)
    requires OneChunk(p, a + b + tail) == Next(mid, |a|, None)
    requires Delivers(mid, b, m, q, tail)
    ensures Delivers(p, a + b, m, q, tail)
  {
    hide OneChunk;
    RunNext(p, a + b + tail);
    assert (a + b + tail)[|a|..] == b + tail;
  }

  lemma MidFacts(p: Parser, m: Message, delta: nat, done: nat)
    requires done <= |m.data|
    ensures var mid := MidParser(p, m, delta, done);
            mid.chunk == p.chunk && After(mid, m, delta) == After(p, m, delta) &&
            ChanOf(mid, m.csid) == Midway(m, delta, done)
  {
  }

  lemma Assoc(a: seq<byte>, b: seq<byte>, c: seq<byte>)
    ensures (a + b) + c == a + (b + c)
  {
  }

  lemma BodySplit(size: nat, head: seq<byte>, next: seq<byte>, data: seq<byte>)
    requires 1 <= size < |data|
    ensures head + Body(size, next, data) == head + data[..size] + (next + Body(size, next, data[size..]))
  {
    var more := next + Body(size, next, data[size..]);
    assert Body(size, next, data) == data[..size] + more;
  }

  /** What is left of a message's chunks once `done` bytes of its body have been taken. */
  function Remaining(size: nat, m: Message, done: nat): seq<byte>
    requires size >= 1 && done <= |m.data|
  {
    Basic(3, m.csid) + Body(size, Basic(3, m.csid), m.data[done..])
  }

  lemma BodyLast(p: Parser, size: nat, m: Message, delta: nat, done: nat, tail: seq<byte>)
    requires Framed(m) && done < |m.data| <= done + size
    requires size >= 1 && p.chunk == size && ChanOf(p, m.csid) == Midway(m, delta, done)
    ensures var v := Resumed(m, delta);
            Delivers(p, Remaining(size, m, done), v, After(p, v, delta), tail)
  {
    hide OneChunk, Delivers, After, Midway, ChanOf, Basic, Resumed;
    var left := m.data[done..];
    var v := Resumed(m, delta);
    LaterChunk(p, size, m, delta, done, tail);
    assert m.data[done..|m.data|] == left;
    Assoc(Basic(3, m.csid), left, tail);
    DeliversNow(p, Basic(3, m.csid) + left, v, After(p, v, delta), tail);
  }

  lemma BodyMore(p: Parser, size: nat, m: Message, delta: nat, done: nat, tail: seq<byte>)
    requires Framed(m) && done + size < |m.data|
    requires size >= 1 && p.chunk == size && ChanOf(p, m.csid) == Midway(m, delta, done)
    requires var v := Resumed(m, delta);
             Delivers(MidParser(p, v, delta, done + size), Remaining(size, m, done + size), v, After(p, v, delta), tail)
    ensures var v := Resumed(m, delta);
            Delivers(p, Remaining(size, m, done), v, After(p, v, delta), tail)
  {
    hide OneChunk, Delivers, After, Midway, MidParser, ChanOf, Basic, Resumed;
    var v := Resumed(m, delta);
    ResumedOnce(size, m, delta, done + size);
    var head := Basic(3, m.csid);
    var left := m.data[done..];
    var piece := m.data[done..done + size];
    var more := Remaining(size, m, done + size);
    LaterChunk(p, size, m, delta, done, more + tail);
    Assoc(head, piece, more + tail);
    Assoc(head + piece, more, tail);
    DeliversLater(p, head + piece, MidParser(p, v, delta, done + size), more, v, After(p, v, delta), tail);
    assert left[..size] == piece && left[size..] == m.data[done + size..];
    BodySplit(size, head, head, left);
  }

  lemma ResumedOnce(size: nat, m: Message, delta: nat, done: nat)
    requires size >= 1 && done <= |m.data|
    ensures var v := Resumed(m, delta);
            Resumed(v, delta) == v && v.data == m.data && v.csid == m.csid &&
            Remaining(size, v, done) == Remaining(size, m, done)
  {
  }

  lemma {:induction false} BodyParsed(p: Parser, size: nat, m: Message, delta: nat, done: nat, tail: seq<byte>)
    requires Framed(m) && done < |m.data|
    requires size >= 1 && p.chunk == size && ChanOf(p, m.csid) == Midway(m, delta, done)
    ensures var v := Resumed(m, delta);
            Delivers(p, Remaining(size, m, done), v, After(p, v, delta), tail)
    decreases |m.data| - done
  {
    hide Delivers, Remaining, Resumed, MidParser, Midway, After, ChanOf;
    if |m.data| <= done + size {
      BodyLast(p, size, m, delta, done, tail);
    } else {
      var v := Resumed(m, delta);
      ResumedOnce(size, m, delta, done + size);
      MidFacts(p, v, delta, done + size);
      ResumedFramed(m, delta);
      BodyParsed(MidParser(p, v, delta, done + size), size, v, delta, done + size, tail);
      BodyMore(p, size, m, delta, done, tail);
    }
  }

  lemma ResumedFramed(m: Message, delta: nat)
    requires Framed(m)
    ensures Framed(Resumed(m, delta))
  {
  }

  /** The message as delivered, from any stream state that agrees. */
  function Settled(o: OutChan, m: Message, fmt0: bool, size: nat): Message {
    if |m.data| <= size then Wrapped(m) else Resumed(Wrapped(m), OutAfter(o, m, fmt0).delta)
  }

  /** What both cases of ShortMessage need. */
  ghost predicate ShortCase(p: Parser, w: Writer, size: nat, g: Outgoing) {
    Framed(g.msg) && Short(OutOf(w, g.msg.csid), g) && Spelled(OutOf(w, g.msg.csid), g.msg, g.fmt0) &&
    Agrees(OutOf(w, g.msg.csid), ChanOf(p, g.msg.csid), g.msg, g.fmt0) &&
    size >= 1 && SizesAgree(p.chunk, size, g.msg)
  }

  lemma ShortSingle(p: Parser, w: Writer, size: nat, g: Outgoing, tail: seq<byte>)
    requires ShortCase(p, w, size, g) && |g.msg.data| <= size
    ensures var o := OutOf(w, g.msg.csid);
            Delivers(p, Encode(w, size, g), Wrapped(g.msg),
                     After(p, Wrapped(g.msg), OutAfter(o, g.msg, g.fmt0).delta), tail)
  {
    hide OneChunk, Delivers, After, ChanOf, FirstHeader, OutAfter, Stamp, Agrees, NextHeader, Spelled, Framed, Wrapped;
    var m := g.msg;
    var o := OutOf(w, m.csid);
    var head := FirstHeader(o, m, g.fmt0);
    ShortFirst(p, o, size, m, g.fmt0, tail);
    assert m.data[..|m.data|] == m.data;
    Assoc(head, m.data, tail);
    DeliversNow(p, head + m.data, Wrapped(m), After(p, Wrapped(m), OutAfter(o, m, g.fmt0).delta), tail);
  }

  lemma ShortSeveral(p: Parser, w: Writer, size: nat, g: Outgoing, tail: seq<byte>)
    requires ShortCase(p, w, size, g) && |g.msg.data| > size
    ensures var o := OutOf(w, g.msg.csid);
            var delta := OutAfter(o, g.msg, g.fmt0).delta;
            var v := Resumed(Wrapped(g.msg), delta);
            Delivers(p, Encode(w, size, g), v, After(p, v, delta), tail)
  {
    hide OneChunk, Delivers, After, Midway, MidParser, ChanOf, Basic, FirstHeader, OutAfter, Agrees, Resumed, Spelled,
         NextHeader, Body;
    var m := g.msg;
    var o := OutOf(w, m.csid);
    var head := FirstHeader(o, m, g.fmt0);
    var delta := OutAfter(o, m, g.fmt0).delta;
    var v := Wrapped(m);
    var mid := MidParser(p, v, delta, size);
    var more := Remaining(size, m, size);
    BareNext(o, m, g.fmt0);
    MidFacts(p, v, delta, size);
    ShortFirst(p, o, size, m, g.fmt0, more + tail);
    Assoc(head, m.data[..size], more + tail);
    Assoc(head + m.data[..size], more, tail);
    BodyParsed(mid, size, v, delta, size, tail);
    MidAfter(p, v, Resumed(v, delta), delta, size);
    DeliversLater(p, head + m.data[..size], mid, more, Resumed(v, delta), After(p, Resumed(v, delta), delta), tail);
    BodySplit(size, head, Basic(3, m.csid), m.data);
  }

  lemma BareNext(o: OutChan, m: Message, fmt0: bool)
    requires Stamp(o, m, fmt0) < TS_EXTENDED
    ensures NextHeader(m.csid, Stamp(o, m, fmt0)) == Basic(3, m.csid)
    ensures Resumed(Wrapped(m), OutAfter(o, m, fmt0).delta).csid == m.csid
  {
    hide Basic, Stamp;
    assert Basic(3, m.csid) + [] == Basic(3, m.csid);
  }

  /** One message with a short header number is delivered whole, whichever header compression was chosen. */
  lemma ShortMessage(p: Parser, w: Writer, size: nat, g: Outgoing, tail: seq<byte>)
    requires ShortCase(p, w, size, g)
    ensures var o := OutOf(w, g.msg.csid);
            var v := Settled(o, g.msg, g.fmt0, size);
            Delivers(p, Encode(w, size, g), v, After(p, v, OutAfter(o, g.msg, g.fmt0).delta), tail)
  {
    hide Delivers, Encode, After, OutAfter, Wrapped, Resumed, ShortCase;
    if |g.msg.data| <= size {
      ShortSingle(p, w, size, g, tail);
    } else {
      ShortSeveral(p, w, size, g, tail);
    }
  }

  lemma MidAfter(p: Parser, m: Message, v: Message, delta: nat, done: nat)
    requires done <= |m.data| && v.csid == m.csid
    ensures After(MidParser(p, m, delta, done), v, delta) == After(p, v, delta)
  {
  }

  /** One encoded message is delivered whole and unchanged if writer and parser are synchronised. */
  lemma MessageParsed(p: Parser, w: Writer, size: nat, g: Outgoing, tail: seq<byte>)
    requires WellFormed(g.msg) && Short(OutOf(w, g.msg.csid), g) && Spelled(OutOf(w, g.msg.csid), g.msg, g.fmt0)
    requires Synced(OutOf(w, g.msg.csid), ChanOf(p, g.msg.csid))
    requires size >= 1 && SizesAgree(p.chunk, size, g.msg)
    ensures Delivers(p, Encode(w, size, g), g.msg,
                     After(p, g.msg, OutAfter(OutOf(w, g.msg.csid), g.msg, g.fmt0).delta), tail)
  {
    hide Delivers, Encode, After;
    ShortMessage(p, w, size, g, tail);
    assert Settled(OutOf(w, g.msg.csid), g.msg, g.fmt0, size) == g.msg;
  }

  lemma SyncKept(p: Parser, w: Writer, g: Outgoing)
    requires WellFormed(g.msg) && InSync(w, p)
    ensures InSync(WriterAfter(w, g), After(p, g.msg, OutAfter(OutOf(w, g.msg.csid), g.msg, g.fmt0).delta))
  {
    var q := After(p, g.msg, OutAfter(OutOf(w, g.msg.csid), g.msg, g.fmt0).delta);
    forall csid ensures Synced(OutOf(WriterAfter(w, g), csid), ChanOf(q, csid)) {
      assert Synced(OutOf(w, csid), ChanOf(p, csid));
    }
  }

  /**
   * Every message can be carried: it is well formed, its header has a short number and says its length, and the chunk
   * sizes agree when it is sent.
   */
  ghost predicate Sendable(w: Writer, chunk: int, size: nat, gs: seq<Outgoing>)
    decreases |gs|
  {
    gs == [] ||
    (WellFormed(gs[0].msg) && Short(OutOf(w, gs[0].msg.csid), gs[0]) &&
     Spelled(OutOf(w, gs[0].msg.csid), gs[0].msg, gs[0].fmt0) && SizesAgree(chunk, size, gs[0].msg) &&
     Sendable(WriterAfter(w, gs[0]), ChunkAfter(chunk, Some(gs[0].msg)), size, gs[1..]))
  }

  function Messages(gs: seq<Outgoing>): (ms: seq<Message>)
    ensures |ms| == |gs|
  {
    seq(|gs|, i requires 0 <= i < |gs| => gs[i].msg)
  }

  /** Parsing the chunks of any list of sendable messages delivers exactly these messages and leaves nothing over. */
  lemma {:induction false} RoundTrip(w: Writer, p: Parser, size: nat, gs: seq<Outgoing>)
    requires size >= 1 && InSync(w, p) && Sendable(w, p.chunk, size, gs)
    ensures var o := Run(p, EncodeAll(w, size, gs));
            o.msgs == Messages(gs) && o.rest == [] && InSync(WriterAfterAll(w, gs), o.p)
    decreases |gs|
  {
    hide OneChunk, Encode, Fmt, OutAfter, ChunkAfter;
    if gs == [] {
      assert Run(p, []) == Outcome(p, [], []) by { RunEmpty(p); }
    } else {
      var g := gs[0];
      var q := After(p, g.msg, OutAfter(OutOf(w, g.msg.csid), g.msg, g.fmt0).delta);
      var tail := EncodeAll(WriterAfter(w, g), size, gs[1..]);
      assert Synced(OutOf(w, g.msg.csid), ChanOf(p, g.msg.csid));
      MessageParsed(p, w, size, g, tail);
      SyncKept(p, w, g);
      RoundTrip(WriterAfter(w, g), q, size, gs[1..]);
      assert Messages(gs) == [g.msg] + Messages(gs[1..]);
    }
  }

  lemma RunEmpty(p: Parser)
    ensures Run(p, []) == Outcome(p, [], [])
  {
  }
}
