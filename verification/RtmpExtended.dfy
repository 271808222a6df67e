/**
 * Timestamps of 0xFFFFFF and more. The writer stores them in host byte order, the parser reads them in network
 * order, ignores them on fmt 0 and adds them again on every continuation chunk; this file says what arrives.
 */
module RtmpExtended {
  import opened Bytes
  import opened Options
  import opened RtmpParser
  import opened RtmpWriter
  import opened RtmpRoundTrip

  /** The number the parser reads where the writer stored `stamp`. */
  function Swapped(stamp: nat): (v: nat)
    ensures v < TWO32
  {
    U32(PutHost32(stamp))
  }

  function Add32(x: nat, t: nat): (r: nat)
    ensures r < TWO32
  {
    (x + t) % TWO32
  }

  /** `n` more chunks each add `x` to the timestamp. */
  function Drift(t: nat, x: nat, n: nat): nat
    decreases n
  {
    if n == 0 then t else Drift(Add32(x, t), x, n - 1)
  }

  /** Timestamp after the first chunk. */
  function FirstTs(o: OutChan, m: Message, fmt0: bool): nat {
    if Fmt(o, m, fmt0) == 0 then TS_EXTENDED
    else Add32(Swapped(Stamp(o, m, fmt0)), o.prev.value.ts)
  }

  /** The timestamp with which a message of a long stamp is delivered. */
  function DecodedTs(o: OutChan, m: Message, fmt0: bool, size: nat): nat
    requires size >= 1
  {
    Drift(FirstTs(o, m, fmt0), Swapped(Stamp(o, m, fmt0)), Continuations(size, |m.data|))
  }

  lemma {:induction false} DriftClosed(t: nat, x: nat, n: nat)
    requires t < TWO32
    ensures Drift(t, x, n) == (t + n * x) % TWO32
    decreases n
  {
    if n > 0 {
      var u := Add32(x, t);
      DriftClosed(u, x, n - 1);
      var q := (t + x) / TWO32;
      assert t + n * x == q * TWO32 + (u + (n - 1) * x) by {
        assert n * x == (n - 1) * x + x;
      }
      ModShift(u + (n - 1) * x, q);
    }
  }

  lemma ModShift(a: nat, q: nat)
    ensures (q * TWO32 + a) % TWO32 == a % TWO32
  {
  }

  /** Chunks after the first, counted. */
  function ChunksAfterFirst(size: nat, len: nat): nat
    requires size >= 1
  {
    if len == 0 then 0 else (len - 1) / size
  }

  lemma {:induction false} ContinuationsClosed(size: nat, len: nat)
    requires size >= 1
    ensures Continuations(size, len) == ChunksAfterFirst(size, len)
    decreases len
  {
    if len == 0 {
    } else if len > size {
      ContinuationsClosed(size, len - size);
      var q := (len - size - 1) / size;
      var r := (len - size - 1) % size;
      assert (q + 1) * size == q * size + size;
      DivUnique(len - 1, size, q + 1, r);
    } else {
      DivUnique(len - 1, size, 0, len - 1);
    }
  }

  lemma DivUnique(a: nat, s: nat, q: nat, r: nat)
    requires 0 <= r < s && a == q * s + r
    ensures a / s == q
  {
    var k := a / s;
    assert a == k * s + a % s;
    MulGap(k, q, s);
    MulGap(q, k, s);
  }

  lemma {:induction false} MulGap(a: nat, b: nat, s: nat)
    ensures a > b ==> a * s >= b * s + s
    decreases a
  {
    if a > b {
      assert a * s == (a - 1) * s + s;
      MulGap(a - 1, b, s);
    }
  }

  function LateHeader(m: Message, t: nat): Header {
    HeaderOf(m).(ts := t)
  }

  /** The stream state while such a message is arriving. */
  function LateMid(m: Message, t: nat, delta: nat, done: nat): Chan
    requires done <= |m.data|
  {
    Chan(LateHeader(m, t), Some(Packet(|m.data|, m.data[..done], LateHeader(m, t))), delta, true)
  }

  function LateParser(p: Parser, m: Message, t: nat, delta: nat, done: nat): Parser
    requires done <= |m.data|
  {
    p.(chans := p.chans[m.csid := LateMid(m, t, delta, done)])
  }

  function LateAfter(p: Parser, m: Message, t: nat, delta: nat): Parser {
    Parser(p.chans[m.csid := Chan(LateHeader(m, t), None, delta, true)], ChunkAfter(p.chunk, Some(m.(ts := t))))
  }

  lemma FillLate(m: Message, prev: Header, t: nat, delta: nat, done: nat, n: nat, at: nat, rest: seq<byte>)
    requires done + n <= |m.data| && |rest| >= n && rest[..n] == m.data[done..done + n]
    ensures Fill(LateMid(m, t, delta, done).(prev := prev), m.csid, at, rest[..n]) ==
            if done + n == |m.data|
            then Took(at, Chan(LateHeader(m, t), None, delta, true), Some(m.(ts := t)))
            else Took(at, LateMid(m, t, delta, done + n), None)
  {
    assert m.data[..done] + m.data[done..done + n] == m.data[..done + n];
    assert m.data[..|m.data|] == m.data;
  }

  /** The header without its extended timestamp, and how it is read. */
  function ShortPart(o: OutChan, m: Message, fmt0: bool): seq<byte> {
    Basic(Fmt(o, m, fmt0), m.csid) + MessageHeader(Fmt(o, m, fmt0), Stamp(o, m, fmt0), m)
  }

  function LateHead(o: OutChan, m: Message, fmt0: bool): Head {
    var fmt := Fmt(o, m, fmt0);
    Head(fmt, m.csid, |ShortPart(o, m, fmt0)|, if fmt <= 2 then TS_EXTENDED else 0,
         if fmt <= 1 then |m.data| else 0, if fmt <= 1 then m.typ else 0, if fmt == 0 then m.sid else 0)
  }

  lemma LateHeadRead(o: OutChan, m: Message, fmt0: bool, rest: seq<byte>)
    requires Framed(m) && Stamp(o, m, fmt0) >= TS_EXTENDED && rest != []
    ensures ReadHead(ShortPart(o, m, fmt0) + rest) == Some(LateHead(o, m, fmt0))
  {
    var fmt := Fmt(o, m, fmt0);
    var b := Basic(fmt, m.csid);
    var mh := MessageHeader(fmt, Stamp(o, m, fmt0), m);
    assert ShortPart(o, m, fmt0) + rest == b + (mh + rest);
    BasicRead(fmt, m.csid, mh + rest);
    FieldsRead(o, m, fmt0, |b|, rest);
  }

  function LateDelta(o: OutChan, m: Message, fmt0: bool): nat {
    if Fmt(o, m, fmt0) == 0 then 0 else Swapped(Stamp(o, m, fmt0))
  }

  lemma LateTouch(o: OutChan, ch: Chan, chunk: int, m: Message, fmt0: bool)
    requires Framed(m) && Stamp(o, m, fmt0) >= TS_EXTENDED && Agrees(o, ch, m, fmt0)
    requires Spelled(o, m, fmt0)
    ensures var h := LateHead(o, m, fmt0);
            var t := Touch(ch, chunk, h);
            t.ext && Extend(t, h, Swapped(Stamp(o, m, fmt0))) ==
                     LateMid(m, FirstTs(o, m, fmt0), LateDelta(o, m, fmt0), 0).(prev := ch.prev)
  {
  }

  /** A chunk with an extended timestamp, given what its header does to the stream. */
  lemma LateChunk(p: Parser, x: seq<byte>, h: Head, stamp: nat, body: seq<byte>, mid: Chan, n: nat, chan: Chan,
                  msg: Option<Message>)
    requires ReadHead(x) == Some(h) && x[h.size..] == PutHost32(stamp) + body
    requires var c := Touch(ChanOf(p, h.csid), p.chunk, h);
             c.ext && Extend(c, h, Swapped(stamp)) == mid
    requires mid.pkt.Some? && BodySize(mid, p.chunk) == n <= |body|
    requires Fill(mid, h.csid, h.size + 4 + n, body[..n]) == Took(h.size + 4 + n, chan, msg)
    ensures OneChunk(p, x) == Next(Parser(p.chans[h.csid := chan], ChunkAfter(p.chunk, msg)), h.size + 4 + n, msg)
  {
    hide Touch, Extend, Fill, ReadHead, BodySize;
    ReadPrefix(PutHost32(stamp), body);
    assert (PutHost32(stamp) + body)[4..] == body;
    hide PutHost32;
  }

  lemma LateFirst(p: Parser, o: OutChan, size: nat, m: Message, fmt0: bool, tail: seq<byte>)
    requires Framed(m) && Stamp(o, m, fmt0) >= TS_EXTENDED
    requires Agrees(o, ChanOf(p, m.csid), m, fmt0) && size >= 1 && SizesAgree(p.chunk, size, m) && Spelled(o, m, fmt0)
    ensures var n := Piece(size, |m.data|);
            var head := FirstHeader(o, m, fmt0);
            var t := FirstTs(o, m, fmt0);
            var delta := LateDelta(o, m, fmt0);
            OneChunk(p, head + (m.data[..n] + tail)) ==
            if n == |m.data| then Next(LateAfter(p, m, t, delta), |head| + n, Some(m.(ts := t)))
            else Next(LateParser(p, m, t, delta, n), |head| + n, None)
  {
    hide ReadHead, Touch, Extend, Fill, OneChunk, BodySize, FirstHeader, ShortPart, Fmt, Stamp, LateMid, FirstTs,
         LateDelta, PutHost32, Agrees, Spelled;
    var n := Piece(size, |m.data|);
    var ch := ChanOf(p, m.csid);
    var h := LateHead(o, m, fmt0);
    var stamp := Stamp(o, m, fmt0);
    var body := m.data[..n] + tail;
    var rest := PutHost32(stamp) + body;
    var mid := LateMid(m, FirstTs(o, m, fmt0), LateDelta(o, m, fmt0), 0).(prev := ch.prev);
    LateMidBody(m, FirstTs(o, m, fmt0), LateDelta(o, m, fmt0), 0, ch.prev, p.chunk, size);
    LateSplit(o, m, fmt0, body);
    LateHeadRead(o, m, fmt0, rest);
    LateTouch(o, ch, p.chunk, m, fmt0);
    assert body[..n] == m.data[0..0 + n];
    FillLate(m, ch.prev, FirstTs(o, m, fmt0), LateDelta(o, m, fmt0), 0, n, h.size + 4 + n, body);
    var f := Fill(mid, m.csid, h.size + 4 + n, body[..n]);
    LateChunk(p, FirstHeader(o, m, fmt0) + body, h, stamp, body, mid, n, f.chan, f.msg);
  }

  lemma LateMidBody(m: Message, t: nat, delta: nat, done: nat, prev: Header, chunk: int, size: nat)
    requires done <= |m.data| && size >= 1 && (chunk == size || (done == 0 && SizesAgree(chunk, size, m)))
    ensures var mid := LateMid(m, t, delta, done).(prev := prev);
            mid.pkt.Some? && BodySize(mid, chunk) == Piece(size, |m.data| - done)
  {
  }

  lemma LateSplit(o: OutChan, m: Message, fmt0: bool, body: seq<byte>)
    requires Stamp(o, m, fmt0) >= TS_EXTENDED
    ensures var rest := PutHost32(Stamp(o, m, fmt0)) + body; var short := ShortPart(o, m, fmt0);
            FirstHeader(o, m, fmt0) + body == short + rest && (short + rest)[|short|..] == rest &&
            |FirstHeader(o, m, fmt0)| == |short| + 4 && rest != []
  {
    hide Basic, MessageHeader, Fmt, Stamp, PutHost32;
  }

  lemma LateNextTouch(chunk: int, m: Message, t: nat, delta: nat, done: nat, x: nat)
    requires Framed(m) && done <= |m.data|
    ensures var h := Head(3, m.csid, |Basic(3, m.csid)|, 0, 0, 0, 0);
            var c := Touch(LateMid(m, t, delta, done), chunk, h);
            c.ext && Extend(c, h, x) == LateMid(m, Add32(x, t), x, done).(prev := LateHeader(m, t))
  {
  }

  lemma LateNext(p: Parser, size: nat, m: Message, t: nat, delta: nat, stamp: nat, done: nat, tail: seq<byte>)
    requires Framed(m) && done < |m.data| && stamp >= TS_EXTENDED
    requires size >= 1 && p.chunk == size && ChanOf(p, m.csid) == LateMid(m, t, delta, done)
    ensures var n := Piece(size, |m.data| - done);
            var x := Swapped(stamp);
            var u := Add32(x, t);
            var head := NextHeader(m.csid, stamp);
            OneChunk(p, head + (m.data[done..done + n] + tail)) ==
            if done + n == |m.data| then Next(LateAfter(p, m, u, x), |head| + n, Some(m.(ts := u)))
            else Next(LateParser(p, m, u, x, done + n), |head| + n, None)
  {
    hide ReadHead, Touch, Extend, Fill, OneChunk, BodySize, NextHeader, Basic, LateMid, PutHost32, Add32, Swapped;
    var n := Piece(size, |m.data| - done);
    var b := Basic(3, m.csid);
    var body := m.data[done..done + n] + tail;
    var rest := PutHost32(stamp) + body;
    var x := Swapped(stamp);
    var u := Add32(x, t);
    var mid := LateMid(m, u, x, done).(prev := LateHeader(m, t));
    LateMidBody(m, u, x, done, LateHeader(m, t), p.chunk, size);
    LateNextSplit(m.csid, stamp, body);
    NextHeadRead(m.csid, rest);
    LateNextTouch(p.chunk, m, t, delta, done, x);
    assert body[..n] == m.data[done..done + n];
    FillLate(m, LateHeader(m, t), u, x, done, n, |b| + 4 + n, body);
    var f := Fill(mid, m.csid, |b| + 4 + n, body[..n]);
    LateChunk(p, b + rest, Head(3, m.csid, |b|, 0, 0, 0, 0), stamp, body, mid, n, f.chan, f.msg);
  }

  lemma LateNextSplit(csid: nat, stamp: nat, body: seq<byte>)
    requires stamp >= TS_EXTENDED
    ensures var rest := PutHost32(stamp) + body; var b := Basic(3, csid);
            NextHeader(csid, stamp) + body == b + rest && (b + rest)[|b|..] == rest &&
            |NextHeader(csid, stamp)| == |b| + 4 && rest != []
  {
    hide Basic, PutHost32;
  }

  /** The chunks still to come once `done` bytes of the body have been taken. */
  function LateRemaining(size: nat, m: Message, stamp: nat, done: nat): seq<byte>
    requires size >= 1 && done <= |m.data|
  {
    NextHeader(m.csid, stamp) + Body(size, NextHeader(m.csid, stamp), m.data[done..])
  }

  /** Timestamp and state after the rest of the message. */
  function LateTs(size: nat, m: Message, t: nat, stamp: nat, done: nat): nat
    requires size >= 1 && done < |m.data|
  {
    Drift(Add32(Swapped(stamp), t), Swapped(stamp), Continuations(size, |m.data| - done))
  }

  lemma LateLast(p: Parser, size: nat, m: Message, t: nat, delta: nat, stamp: nat, done: nat, tail: seq<byte>)
    requires Framed(m) && done < |m.data| <= done + size && stamp >= TS_EXTENDED
    requires size >= 1 && p.chunk == size && ChanOf(p, m.csid) == LateMid(m, t, delta, done)
    ensures var u := LateTs(size, m, t, stamp, done);
            Delivers(p, LateRemaining(size, m, stamp, done), m.(ts := u), LateAfter(p, m, u, Swapped(stamp)), tail)
  {
    hide OneChunk, Delivers, LateAfter, LateMid, ChanOf, NextHeader, Swapped;
    var left := m.data[done..];
    var u := Add32(Swapped(stamp), t);
    LateNext(p, size, m, t, delta, stamp, done, tail);
    assert m.data[done..|m.data|] == left;
    Assoc(NextHeader(m.csid, stamp), left, tail);
    DeliversNow(p, NextHeader(m.csid, stamp) + left, m.(ts := u), LateAfter(p, m, u, Swapped(stamp)), tail);
  }

  lemma LateFacts(p: Parser, m: Message, t: nat, delta: nat, done: nat)
    requires done <= |m.data|
    ensures var mid := LateParser(p, m, t, delta, done);
            mid.chunk == p.chunk && ChanOf(mid, m.csid) == LateMid(m, t, delta, done) &&
            forall u: nat, d: nat :: LateAfter(mid, m, u, d) == LateAfter(p, m, u, d)
  {
  }

  lemma LateMore(p: Parser, size: nat, m: Message, t: nat, delta: nat, stamp: nat, done: nat, v: nat, tail: seq<byte>)
    requires Framed(m) && done + size < |m.data| && stamp >= TS_EXTENDED
    requires size >= 1 && p.chunk == size && ChanOf(p, m.csid) == LateMid(m, t, delta, done)
    requires var x := Swapped(stamp);
             Delivers(LateParser(p, m, Add32(x, t), x, done + size), LateRemaining(size, m, stamp, done + size),
                      m.(ts := v), LateAfter(p, m, v, x), tail)
    ensures Delivers(p, LateRemaining(size, m, stamp, done), m.(ts := v), LateAfter(p, m, v, Swapped(stamp)), tail)
  {
    hide OneChunk, Delivers, LateAfter, LateMid, LateParser, ChanOf, NextHeader, Swapped, Add32;
    var head := NextHeader(m.csid, stamp);
    var left := m.data[done..];
    var piece := m.data[done..done + size];
    var more := LateRemaining(size, m, stamp, done + size);
    var x := Swapped(stamp);
    LateNext(p, size, m, t, delta, stamp, done, more + tail);
    Assoc(head, piece, more + tail);
    Assoc(head + piece, more, tail);
    DeliversLater(p, head + piece, LateParser(p, m, Add32(x, t), x, done + size), more, m.(ts := v),
                  LateAfter(p, m, v, x), tail);
    assert left[..size] == piece && left[size..] == m.data[done + size..];
    BodySplit(size, head, head, left);
  }

  lemma LateTsStep(size: nat, m: Message, t: nat, stamp: nat, done: nat)
    requires size >= 1 && done + size < |m.data|
    ensures LateTs(size, m, Add32(Swapped(stamp), t), stamp, done + size) == LateTs(size, m, t, stamp, done)
  {
    hide Swapped;
    var x := Swapped(stamp);
    var u := Add32(x, t);
    var left := |m.data| - done;
    assert Continuations(size, left) == 1 + Continuations(size, left - size);
  }

  lemma {:induction false} LateBody(p: Parser, size: nat, m: Message, t: nat, delta: nat, stamp: nat, done: nat,
                                    tail: seq<byte>)
    requires Framed(m) && done < |m.data| && stamp >= TS_EXTENDED
    requires size >= 1 && p.chunk == size && ChanOf(p, m.csid) == LateMid(m, t, delta, done)
    ensures var u := LateTs(size, m, t, stamp, done);
            Delivers(p, LateRemaining(size, m, stamp, done), m.(ts := u), LateAfter(p, m, u, Swapped(stamp)), tail)
    decreases |m.data| - done
  {
    hide Delivers, LateRemaining, Swapped, LateMid, LateParser, LateAfter, ChanOf, LateTs, Continuations, Drift, Add32;
    if |m.data| <= done + size {
      LateLast(p, size, m, t, delta, stamp, done, tail);
    } else {
      var x := Swapped(stamp);
      var u := Add32(x, t);
      LateFacts(p, m, u, x, done + size);
      LateTsStep(size, m, t, stamp, done);
      LateBody(LateParser(p, m, u, x, done + size), size, m, u, x, stamp, done + size, tail);
      LateMore(p, size, m, t, delta, stamp, done, LateTs(size, m, t, stamp, done), tail);
    }
  }

  /** The state after a long-stamped message. */
  function LateEnd(p: Parser, o: OutChan, size: nat, m: Message, fmt0: bool): Parser
    requires size >= 1
  {
    LateAfter(p, m, DecodedTs(o, m, fmt0, size),
              if |m.data| <= size then LateDelta(o, m, fmt0) else Swapped(Stamp(o, m, fmt0)))
  }

  ghost predicate LateCase(p: Parser, w: Writer, size: nat, g: Outgoing) {
    Framed(g.msg) && !Short(OutOf(w, g.msg.csid), g) &&
    Agrees(OutOf(w, g.msg.csid), ChanOf(p, g.msg.csid), g.msg, g.fmt0) &&
    size >= 1 && SizesAgree(p.chunk, size, g.msg) &&
    Spelled(OutOf(w, g.msg.csid), g.msg, g.fmt0)
  }

  lemma LateSingle(p: Parser, w: Writer, size: nat, g: Outgoing, tail: seq<byte>)
    requires LateCase(p, w, size, g) && |g.msg.data| <= size
    ensures var o := OutOf(w, g.msg.csid);
            Delivers(p, Encode(w, size, g), g.msg.(ts := FirstTs(o, g.msg, g.fmt0)),
                     LateAfter(p, g.msg, FirstTs(o, g.msg, g.fmt0), LateDelta(o, g.msg, g.fmt0)), tail)
  {
    var m := g.msg;
    var o := OutOf(w, m.csid);
    var t := FirstTs(o, m, g.fmt0);
    var head := FirstHeader(o, m, g.fmt0);
    hide OneChunk, Delivers, LateAfter, LateMid, LateParser, ChanOf, NextHeader, FirstHeader, Swapped, Stamp, Fmt,
         FirstTs, LateDelta, Agrees;
    LateFirst(p, o, size, m, g.fmt0, tail);
    assert m.data[..|m.data|] == m.data;
    Assoc(head, m.data, tail);
    DeliversNow(p, head + m.data, m.(ts := t), LateAfter(p, m, t, LateDelta(o, m, g.fmt0)), tail);
  }

  lemma LateSeveral(p: Parser, w: Writer, size: nat, g: Outgoing, tail: seq<byte>)
    requires LateCase(p, w, size, g) && size < |g.msg.data|
    ensures var o := OutOf(w, g.msg.csid);
            var stamp := Stamp(o, g.msg, g.fmt0);
            var u := LateTs(size, g.msg, FirstTs(o, g.msg, g.fmt0), stamp, size);
            Delivers(p, Encode(w, size, g), g.msg.(ts := u), LateAfter(p, g.msg, u, Swapped(stamp)), tail)
  {
    var m := g.msg;
    var o := OutOf(w, m.csid);
    var stamp := Stamp(o, m, g.fmt0);
    var t := FirstTs(o, m, g.fmt0);
    var delta := LateDelta(o, m, g.fmt0);
    var head := FirstHeader(o, m, g.fmt0);
    var more := LateRemaining(size, m, stamp, size);
    hide OneChunk, Delivers, LateAfter, LateMid, LateParser, ChanOf, NextHeader, FirstHeader, Swapped, Stamp, Fmt,
         FirstTs, LateDelta, Agrees, LateTs;
    LateFirst(p, o, size, m, g.fmt0, more + tail);
    Assoc(head, m.data[..size], more + tail);
    Assoc(head + m.data[..size], more, tail);
    LateFacts(p, m, t, delta, size);
    LateBody(LateParser(p, m, t, delta, size), size, m, t, delta, stamp, size, tail);
    var u := LateTs(size, m, t, stamp, size);
    DeliversLater(p, head + m.data[..size], LateParser(p, m, t, delta, size), more, m.(ts := u),
                  LateAfter(p, m, u, Swapped(stamp)), tail);
    BodySplit(size, head, NextHeader(m.csid, stamp), m.data);
  }

  lemma DecodedTsCases(o: OutChan, m: Message, fmt0: bool, size: nat)
    requires size >= 1
    ensures DecodedTs(o, m, fmt0, size) ==
            if |m.data| <= size then FirstTs(o, m, fmt0)
            else LateTs(size, m, FirstTs(o, m, fmt0), Stamp(o, m, fmt0), size)
  {
    hide FirstTs, Stamp, Swapped;
    var t := FirstTs(o, m, fmt0);
    var x := Swapped(Stamp(o, m, fmt0));
  }

  /** A message whose header number is 0xFFFFFF or more arrives with its payload, but with the timestamp `DecodedTs`. */
  lemma LateDelivery(p: Parser, w: Writer, size: nat, g: Outgoing, tail: seq<byte>)
    requires LateCase(p, w, size, g)
    ensures var o := OutOf(w, g.msg.csid);
            Delivers(p, Encode(w, size, g), g.msg.(ts := DecodedTs(o, g.msg, g.fmt0, size)),
                     LateEnd(p, o, size, g.msg, g.fmt0), tail)
  {
    hide Delivers, LateAfter, FirstTs, Stamp, Swapped, LateTs, DecodedTs, Encode, Agrees;
    DecodedTsCases(OutOf(w, g.msg.csid), g.msg, g.fmt0, size);
    if |g.msg.data| <= size {
      LateSingle(p, w, size, g, tail);
    } else {
      LateSeveral(p, w, size, g, tail);
    }
  }

  lemma DeliversAlone(p: Parser, e: seq<byte>, m: Message, q: Parser)
    requires Delivers(p, e, m, q, [])
    ensures Run(p, e).msgs == [m]
  {
    RunEmpty(q);
    hide Run, OneChunk;
    assert e + [] == e;
  }

  /** `DecodedTs` in closed form. */
  function LandsOn(o: OutChan, m: Message, fmt0: bool, size: nat): nat
    requires size >= 1
  {
    (FirstTs(o, m, fmt0) + ChunksAfterFirst(size, |m.data|) * Swapped(Stamp(o, m, fmt0))) % TWO32
  }

  lemma DecodedTsClosed(o: OutChan, m: Message, fmt0: bool, size: nat)
    requires size >= 1
    ensures DecodedTs(o, m, fmt0, size) == LandsOn(o, m, fmt0, size)
  {
    assert FirstTs(o, m, fmt0) < TWO32;
    hide FirstTs, Swapped, Stamp;
    DriftClosed(FirstTs(o, m, fmt0), Swapped(Stamp(o, m, fmt0)), Continuations(size, |m.data|));
    ContinuationsClosed(size, |m.data|);
  }

  /** A key frame stamped 0x1000001 ms (about 4 h 40 min) into a stream is delivered stamped 0xFFFFFF. */
  lemma LongStreamExample(data: seq<byte>)
    requires |data| <= 4096
    ensures var m := Message(6, 0x1000001, 9, 1, data);
            Run(Parser(map[], 4096), Encode(map[], 4096, Outgoing(m, true))).msgs == [m.(ts := 0xFFFFFF)]
  {
    var m := Message(6, 0x1000001, 9, 1, data);
    var p := Parser(map[], 4096);
    var g := Outgoing(m, true);
    LateDelivery(p, map[], 4096, g, []);
    DeliversAlone(p, Encode(map[], 4096, g), m.(ts := DecodedTs(FRESH_OUT, m, true, 4096)),
      LateEnd(p, FRESH_OUT, 4096, m, true));
  }
}
