/**
 * Messages of any time stamp with any headers, on streams with any past: what arrives, and when it is what was sent.
 * The parser's idea of a stream's last timestamp may have drifted away from the writer's.
 */
module RtmpAnyHeaders {
  import opened Bytes
  import opened Options
  import opened RtmpParser
  import opened RtmpSegmentation
  import opened RtmpWriter
  import opened RtmpRoundTrip
  import opened RtmpExtended

  /** A stream between messages, however the earlier ones arrived: only the timestamps may differ. */
  ghost predicate Tracks(o: OutChan, ch: Chan) {
    ch.pkt == None &&
    (o.prev.Some? ==>
       ch.prev == o.prev.value.(ts := ch.prev.ts) && ch.prev.ts < TWO32 &&
       if ch.ext then o.delta == 0 || o.delta >= TS_EXTENDED else ch.delta == o.delta < TS_EXTENDED)
  }

  ghost predicate AllTrack(w: Writer, p: Parser) {
    forall csid: nat :: Tracks(OutOf(w, csid), ChanOf(p, csid))
  }

  /**
   * After a full header with an extended timestamp, a message with the same timestamp, type and length goes without
   * header and without extended timestamp, but the parser still expects one and takes four bytes of the body for it.
   */
  predicate Confused(o: OutChan, ext: bool, m: Message, fmt0: bool) {
    Fmt(o, m, fmt0) == 3 && Stamp(o, m, fmt0) < TS_EXTENDED && ext
  }

  /** The timestamp read from a header number `s` after the timestamp `q`, with `n` more chunks. */
  function ReadTs(q: nat, fmt: nat, s: nat, n: nat): (t: nat)
    requires q < TWO32
    ensures t < TWO32
  {
    if s >= TS_EXTENDED then
      ((if fmt == 0 then TS_EXTENDED else Add32(Swapped(s), q)) + n * Swapped(s)) % TWO32
    else
      var t := if fmt == 0 then s else (q + s) % TWO32;
      if t == 0 && n > 0 && fmt != 0 then s else t
  }

  /** The timestamp a message arrives with if the last one on its stream arrived with `q`. */
  function ArrivalTs(o: OutChan, q: nat, m: Message, fmt0: bool, size: nat): nat
    requires q < TWO32 && size >= 1
  {
    ReadTs(q, Fmt(o, m, fmt0), Stamp(o, m, fmt0), ChunksAfterFirst(size, |m.data|))
  }

  // ---- One message ----

  /** The writer's memory of a stream with the parser's timestamp, and the message that then has the same header. */
  function Rebased(o: OutChan, q: nat): OutChan {
    if o.prev.Some? then OutChan(Some(o.prev.value.(ts := q)), o.delta) else o
  }

  function Restamped(o: OutChan, q: nat, g: Outgoing): Outgoing {
    if Fmt(o, g.msg, g.fmt0) == 0 then Outgoing(g.msg, true)
    else Outgoing(g.msg.(ts := q + Stamp(o, g.msg, g.fmt0)), false)
  }

  lemma SameHeader(o: OutChan, q: nat, g: Outgoing)
    ensures var v := Restamped(o, q, g);
            Fmt(Rebased(o, q), v.msg, v.fmt0) == Fmt(o, g.msg, g.fmt0) &&
            Stamp(Rebased(o, q), v.msg, v.fmt0) == Stamp(o, g.msg, g.fmt0) && v.msg == g.msg.(ts := v.msg.ts)
  {
  }

  lemma SameBytes(w: Writer, q: nat, size: nat, g: Outgoing)
    requires size >= 1
    ensures var o := OutOf(w, g.msg.csid);
            Encode(w[g.msg.csid := Rebased(o, q)], size, Restamped(o, q, g)) == Encode(w, size, g)
  {
    var o := OutOf(w, g.msg.csid);
    var v := Restamped(o, q, g);
    hide Fmt, Stamp, Restamped, Rebased, Basic, Body, NextHeader;
    SameHeader(o, q, g);
    assert FirstHeader(Rebased(o, q), v.msg, v.fmt0) == FirstHeader(o, g.msg, g.fmt0);
  }

  lemma Agreed(o: OutChan, ch: Chan, g: Outgoing)
    requires Tracks(o, ch) && !Confused(o, ch.ext, g.msg, g.fmt0)
    ensures var v := Restamped(o, ch.prev.ts, g);
            Agrees(Rebased(o, ch.prev.ts), ch, v.msg, v.fmt0)
  {
    SameHeader(o, ch.prev.ts, g);
  }

  lemma SpelledToo(o: OutChan, q: nat, g: Outgoing)
    requires Spelled(o, g.msg, g.fmt0)
    ensures var v := Restamped(o, q, g); Spelled(Rebased(o, q), v.msg, v.fmt0)
  {
    SameHeader(o, q, g);
  }

  /** The parser afterwards: the stream has the message's header with the timestamp it arrived with. */
  ghost predicate Arrived(p: Parser, o: OutChan, g: Outgoing, t: nat, r: Parser) {
    r.chunk == ChunkAfter(p.chunk, Some(g.msg)) &&
    (forall csid: nat :: csid != g.msg.csid ==> ChanOf(r, csid) == ChanOf(p, csid)) &&
    var ch := ChanOf(r, g.msg.csid);
    ch.prev.ts == t && ch.ext == (Stamp(o, g.msg, g.fmt0) >= TS_EXTENDED) && Tracks(OutAfter(o, g.msg, g.fmt0), ch)
  }

  /** One message that is not confused arrives whole, with a timestamp in closed form, whatever follows. */
  lemma OneMessage(p: Parser, w: Writer, size: nat, g: Outgoing, tail: seq<byte>) returns (r: Parser)
    requires WellFormed(g.msg) && size >= 1 && SizesAgree(p.chunk, size, g.msg)
    requires var o, ch := OutOf(w, g.msg.csid), ChanOf(p, g.msg.csid);
             Tracks(o, ch) && ch.prev.ts < TWO32 && Spelled(o, g.msg, g.fmt0) && !Confused(o, ch.ext, g.msg, g.fmt0)
    ensures var o := OutOf(w, g.msg.csid);
            var t := ArrivalTs(o, ChanOf(p, g.msg.csid).prev.ts, g.msg, g.fmt0, size);
            Delivers(p, Encode(w, size, g), g.msg.(ts := t), r, tail) && Arrived(p, o, g, t, r)
  {
    hide Delivers, Encode, Fmt, Stamp, After, LateEnd, Agrees, Spelled, ChanOf, Tracks, Settled, DecodedTs, OutAfter,
         SizesAgree, ChunksAfterFirst, Rebased, Restamped, Arrived, ArrivalTs, Framed;
    var o, ch := OutOf(w, g.msg.csid), ChanOf(p, g.msg.csid);
    var q := ch.prev.ts;
    var o1, v := Rebased(o, q), Restamped(o, q, g);
    var w1 := w[g.msg.csid := o1];
    SameHeader(o, q, g);
    SameBytes(w, q, size, g);
    Agreed(o, ch, g);
    SpelledToo(o, q, g);
    SameLength(p.chunk, size, g.msg, v.msg);
    if Stamp(o, g.msg, g.fmt0) < TS_EXTENDED {
      ShortMessage(p, w1, size, v, tail);
      ShortArrival(p, o, g, q, size);
      r := After(p, Settled(o1, v.msg, v.fmt0, size), OutAfter(o1, v.msg, v.fmt0).delta);
    } else {
      LateDelivery(p, w1, size, v, tail);
      LateArrival(p, o, g, q, size);
      r := LateEnd(p, o1, size, v.msg, v.fmt0);
    }
  }

  lemma SameLength(chunk: int, size: nat, m: Message, v: Message)
    requires WellFormed(m) && SizesAgree(chunk, size, m) && v == m.(ts := v.ts)
    ensures Framed(v) && SizesAgree(chunk, size, v)
  {
  }

  lemma ShortArrival(p: Parser, o: OutChan, g: Outgoing, q: nat, size: nat)
    requires Tracks(o, ChanOf(p, g.msg.csid)) && q < TWO32 && size >= 1 && WellFormed(g.msg)
    requires Stamp(o, g.msg, g.fmt0) < TS_EXTENDED
    ensures var o1, v := Rebased(o, q), Restamped(o, q, g);
            var t := ArrivalTs(o, q, g.msg, g.fmt0, size);
            var s := Settled(o1, v.msg, v.fmt0, size);
            s == g.msg.(ts := t) && Arrived(p, o, g, t, After(p, s, OutAfter(o1, v.msg, v.fmt0).delta))
  {
    hide Fmt, Stamp, ChunksAfterFirst, Restamped;
    SameHeader(o, q, g);
    Several(size, |g.msg.data|);
    FullStamp(o, q, g);
    assert g.msg.(ts := g.msg.ts) == g.msg;
  }

  lemma FullStamp(o: OutChan, q: nat, g: Outgoing)
    ensures Fmt(o, g.msg, g.fmt0) == 0 ==> Restamped(o, q, g).msg.ts == Stamp(o, g.msg, g.fmt0)
    ensures Fmt(o, g.msg, g.fmt0) != 0 ==> Restamped(o, q, g).msg.ts == q + Stamp(o, g.msg, g.fmt0)
  {
  }

  lemma Several(size: nat, len: nat)
    requires size >= 1
    ensures ChunksAfterFirst(size, len) > 0 <==> len > size
  {
    hide ChunksAfterFirst;
    ContinuationsClosed(size, len);
  }

  lemma LateArrival(p: Parser, o: OutChan, g: Outgoing, q: nat, size: nat)
    requires Tracks(o, ChanOf(p, g.msg.csid)) && q < TWO32 && size >= 1 && WellFormed(g.msg)
    requires Stamp(o, g.msg, g.fmt0) >= TS_EXTENDED
    requires o.prev.Some? || Fmt(o, g.msg, g.fmt0) == 0
    ensures var o1, v := Rebased(o, q), Restamped(o, q, g);
            var t := ArrivalTs(o, q, g.msg, g.fmt0, size);
            DecodedTs(o1, v.msg, v.fmt0, size) == t && v.msg.(ts := t) == g.msg.(ts := t) &&
            Arrived(p, o, g, t, LateEnd(p, o1, size, v.msg, v.fmt0))
  {
    var o1, v := Rebased(o, q), Restamped(o, q, g);
    SameHeader(o, q, g);
    DecodedTsClosed(o1, v.msg, v.fmt0, size);
    hide Stamp, ChunksAfterFirst, Restamped, Swapped, DecodedTs;
  }

  // ---- Lists of messages ----

  type Ticks = t: int | 0 <= t < TWO32

  /** What a parser remembers of a stream, as far as it matters here. */
  datatype Shadow = Shadow(ts: Ticks, ext: bool)

  function ShadowOf(v: map<nat, Shadow>, csid: nat): Shadow {
    if csid in v then v[csid] else Shadow(0, false)
  }

  ghost predicate Seen(v: map<nat, Shadow>, p: Parser) {
    forall csid: nat :: ShadowOf(v, csid).ts == ChanOf(p, csid).prev.ts && ShadowOf(v, csid).ext == ChanOf(p, csid).ext
  }

  function ShadowAfter(v: map<nat, Shadow>, o: OutChan, size: nat, g: Outgoing): map<nat, Shadow>
    requires size >= 1
  {
    v[g.msg.csid := Shadow(ArrivalTs(o, ShadowOf(v, g.msg.csid).ts, g.msg, g.fmt0, size),
                           Stamp(o, g.msg, g.fmt0) >= TS_EXTENDED)]
  }

  /** Every message is well formed, says its length, does not confuse the parser, and meets the right chunk size. */
  ghost predicate Carries(w: Writer, v: map<nat, Shadow>, chunk: int, size: nat, gs: seq<Outgoing>)
    requires size >= 1
    decreases |gs|
  {
    gs == [] ||
    var g := gs[0];
    var o, s := OutOf(w, g.msg.csid), ShadowOf(v, g.msg.csid);
    WellFormed(g.msg) && SizesAgree(chunk, size, g.msg) && Spelled(o, g.msg, g.fmt0) &&
    !Confused(o, s.ext, g.msg, g.fmt0) &&
    Carries(WriterAfter(w, g), ShadowAfter(v, o, size, g), ChunkAfter(chunk, Some(g.msg)), size, gs[1..])
  }

  function ArriveAll(w: Writer, v: map<nat, Shadow>, size: nat, gs: seq<Outgoing>): (ms: seq<Message>)
    requires size >= 1
    ensures |ms| == |gs|
    decreases |gs|
  {
    if gs == [] then []
    else
      var g := gs[0];
      var o, s := OutOf(w, g.msg.csid), ShadowOf(v, g.msg.csid);
      [g.msg.(ts := ArrivalTs(o, s.ts, g.msg, g.fmt0, size))] +
      ArriveAll(WriterAfter(w, g), ShadowAfter(v, o, size, g), size, gs[1..])
  }

  lemma TrackKept(p: Parser, w: Writer, v: map<nat, Shadow>, size: nat, g: Outgoing, r: Parser)
    requires AllTrack(w, p) && Seen(v, p) && size >= 1
    requires var o := OutOf(w, g.msg.csid);
             Arrived(p, o, g, ArrivalTs(o, ShadowOf(v, g.msg.csid).ts, g.msg, g.fmt0, size), r)
    ensures AllTrack(WriterAfter(w, g), r) && Seen(ShadowAfter(v, OutOf(w, g.msg.csid), size, g), r)
  {
    hide Tracks, OutAfter, Stamp, ArrivalTs, ChanOf, ShadowAfter, WriterAfter, ChunkAfter;
    var o := OutOf(w, g.msg.csid);
    var w1, v1 := WriterAfter(w, g), ShadowAfter(v, o, size, g);
    forall csid: nat
      ensures Tracks(OutOf(w1, csid), ChanOf(r, csid))
      ensures ShadowOf(v1, csid).ts == ChanOf(r, csid).prev.ts && ShadowOf(v1, csid).ext == ChanOf(r, csid).ext
    {
      Updated(w, v, o, size, g, csid);
      assert Tracks(OutOf(w, csid), ChanOf(p, csid));
      assert ShadowOf(v, csid).ts == ChanOf(p, csid).prev.ts && ShadowOf(v, csid).ext == ChanOf(p, csid).ext;
    }
  }

  lemma Updated(w: Writer, v: map<nat, Shadow>, o: OutChan, size: nat, g: Outgoing, csid: nat)
    requires size >= 1 && o == OutOf(w, g.msg.csid)
    ensures OutOf(WriterAfter(w, g), csid) == if csid == g.msg.csid then OutAfter(o, g.msg, g.fmt0) else OutOf(w, csid)
    ensures ShadowOf(ShadowAfter(v, o, size, g), csid) ==
            if csid != g.msg.csid then ShadowOf(v, csid)
            else Shadow(ArrivalTs(o, ShadowOf(v, csid).ts, g.msg, g.fmt0, size), Stamp(o, g.msg, g.fmt0) >= TS_EXTENDED)
  {
    hide OutAfter, ReadTs, Stamp, Fmt, ChunksAfterFirst;
  }

  /**
   * Any list of messages, with any headers and time stamps and from any tracked state: exactly these messages arrive,
   * in order and whole, each with a timestamp in closed form, and no byte is left over.
   */
  lemma {:induction false} AnyRun(p: Parser, w: Writer, v: map<nat, Shadow>, size: nat, gs: seq<Outgoing>)
    requires size >= 1 && AllTrack(w, p) && Seen(v, p) && Carries(w, v, p.chunk, size, gs)
    ensures var o := Run(p, EncodeAll(w, size, gs));
            o.msgs == ArriveAll(w, v, size, gs) && o.rest == []
    decreases |gs|
  {
    hide OneChunk, Encode, ArrivalTs, ChunkAfter, Tracks, WriterAfter, ShadowAfter, Arrived, Confused, Spelled,
         SizesAgree;
    if gs == [] {
      RunEmpty(p);
    } else {
      var g := gs[0];
      var tail := EncodeAll(WriterAfter(w, g), size, gs[1..]);
      var r := OneMessage(p, w, size, g, tail);
      TrackKept(p, w, v, size, g, r);
      var o := OutOf(w, g.msg.csid);
      ArrivedChunk(p, o, g, ArrivalTs(o, ShadowOf(v, g.msg.csid).ts, g.msg, g.fmt0, size), r);
      AnyRun(r, WriterAfter(w, g), ShadowAfter(v, o, size, g), size, gs[1..]);
    }
  }

  lemma ArrivedChunk(p: Parser, o: OutChan, g: Outgoing, t: nat, r: Parser)
    requires Arrived(p, o, g, t, r)
    ensures r.chunk == ChunkAfter(p.chunk, Some(g.msg))
  {
  }

  /** The parser's timestamps are the writer's. */
  ghost predicate Together(w: Writer, v: map<nat, Shadow>) {
    forall csid: nat :: OutOf(w, csid).prev.Some? ==> ShadowOf(v, csid).ts == OutOf(w, csid).prev.value.ts
  }

  /** Every message is read with its own timestamp when those before it were. */
  ghost predicate AllLand(w: Writer, size: nat, gs: seq<Outgoing>)
    requires size >= 1
    decreases |gs|
  {
    gs == [] ||
    (var o := OutOf(w, gs[0].msg.csid);
     PrevOf(o).ts < TWO32 && ArrivalTs(o, PrevOf(o).ts, gs[0].msg, gs[0].fmt0, size) == gs[0].msg.ts &&
     AllLand(WriterAfter(w, gs[0]), size, gs[1..]))
  }

  /** A full header does not read the timestamp before. */
  lemma FullReads(o: OutChan, q: nat, q1: nat, m: Message, fmt0: bool, size: nat)
    requires q < TWO32 && q1 < TWO32 && size >= 1 && (o.prev.Some? ==> q == q1)
    ensures ArrivalTs(o, q, m, fmt0, size) == ArrivalTs(o, q1, m, fmt0, size)
  {
    hide ReadTs, ChunksAfterFirst, Stamp;
    FullReadTs(q, q1, Stamp(o, m, fmt0), ChunksAfterFirst(size, |m.data|));
  }

  lemma FullReadTs(q: nat, q1: nat, s: nat, n: nat)
    requires q < TWO32 && q1 < TWO32
    ensures ReadTs(q, 0, s, n) == ReadTs(q1, 0, s, n)
  {
  }

  lemma {:induction false} ArriveAsSent(w: Writer, v: map<nat, Shadow>, chunk: int, size: nat, gs: seq<Outgoing>)
    requires size >= 1 && Together(w, v) && Carries(w, v, chunk, size, gs)
    ensures ArriveAll(w, v, size, gs) == Messages(gs) <==> AllLand(w, size, gs)
    decreases |gs|
  {
    hide ArrivalTs, ChunkAfter, Confused, Spelled, SizesAgree, WriterAfter, ShadowAfter;
    if gs != [] {
      var g := gs[0];
      var o, s := OutOf(w, g.msg.csid), ShadowOf(v, g.msg.csid);
      assert Messages(gs) == [g.msg] + Messages(gs[1..]);
      FullReads(o, s.ts, PrevOf(o).ts, g.msg, g.fmt0, size);
      var t := ArrivalTs(o, s.ts, g.msg, g.fmt0, size);
      if t == g.msg.ts {
        assert g.msg.(ts := t) == g.msg;
        FrontOff(g.msg, ArriveAll(WriterAfter(w, g), ShadowAfter(v, o, size, g), size, gs[1..]), Messages(gs[1..]));
        TogetherKept(w, v, size, g);
        ArriveAsSent(WriterAfter(w, g), ShadowAfter(v, o, size, g), ChunkAfter(chunk, Some(g.msg)), size, gs[1..]);
      } else {
        assert ArriveAll(w, v, size, gs)[0].ts == t;
      }
    }
  }

  lemma TogetherKept(w: Writer, v: map<nat, Shadow>, size: nat, g: Outgoing)
    requires Together(w, v) && size >= 1
    requires ArrivalTs(OutOf(w, g.msg.csid), ShadowOf(v, g.msg.csid).ts, g.msg, g.fmt0, size) == g.msg.ts
    ensures Together(WriterAfter(w, g), ShadowAfter(v, OutOf(w, g.msg.csid), size, g))
  {
    hide ArrivalTs, Stamp, Fmt, ShadowAfter, WriterAfter;
    var o := OutOf(w, g.msg.csid);
    var w1, v1 := WriterAfter(w, g), ShadowAfter(v, o, size, g);
    forall csid: nat | OutOf(w1, csid).prev.Some?
      ensures ShadowOf(v1, csid).ts == OutOf(w1, csid).prev.value.ts
    {
      Updated(w, v, o, size, g, csid);
    }
  }

  lemma FrontOff(m: Message, a: seq<Message>, b: seq<Message>)
    ensures [m] + a == [m] + b <==> a == b
  {
    assert ([m] + a)[1..] == a && ([m] + b)[1..] == b;
  }

  /** Such a list arrives exactly as it was sent if and only if every message lands on its own timestamp. */
  lemma AllSurvive(p: Parser, w: Writer, v: map<nat, Shadow>, size: nat, gs: seq<Outgoing>)
    requires size >= 1 && AllTrack(w, p) && Seen(v, p) && Together(w, v) && Carries(w, v, p.chunk, size, gs)
    ensures Run(p, EncodeAll(w, size, gs)).msgs == Messages(gs) <==> AllLand(w, size, gs)
  {
    hide Run, EncodeAll, Carries, ArriveAll, AllLand, AllTrack, Seen, Together;
    AnyRun(p, w, v, size, gs);
    ArriveAsSent(w, v, p.chunk, size, gs);
  }

  // ---- Full headers ----

  /** No stream is in the middle of a message; what it remembers of earlier ones is arbitrary, in 32-bit timestamps. */
  ghost predicate Idle(p: Parser) {
    forall csid: nat :: ChanOf(p, csid).pkt == None && ChanOf(p, csid).prev.ts < TWO32
  }

  /** Well-formed messages with full headers, and chunk sizes that agree when each of them is sent. */
  ghost predicate FullHeaders(chunk: int, size: nat, gs: seq<Outgoing>)
    decreases |gs|
  {
    gs == [] ||
    (WellFormed(gs[0].msg) && gs[0].fmt0 && SizesAgree(chunk, size, gs[0].msg) &&
     FullHeaders(ChunkAfter(chunk, Some(gs[0].msg)), size, gs[1..]))
  }

  /** The message that arrives. */
  function Arrives(size: nat, m: Message): Message
    requires size >= 1
  {
    if m.ts < TS_EXTENDED then m
    else m.(ts := (TS_EXTENDED + ChunksAfterFirst(size, |m.data|) * Swapped(m.ts)) % TWO32)
  }

  function ArriveFull(size: nat, gs: seq<Outgoing>): (ms: seq<Message>)
    requires size >= 1
    ensures |ms| == |gs|
  {
    seq(|gs|, i requires 0 <= i < |gs| => Arrives(size, gs[i].msg))
  }

  lemma FullArrival(o: OutChan, q: nat, g: Outgoing, size: nat)
    requires g.fmt0 && q < TWO32 && size >= 1
    ensures g.msg.(ts := ArrivalTs(o, q, g.msg, g.fmt0, size)) == Arrives(size, g.msg)
    ensures Spelled(o, g.msg, g.fmt0) && forall ext: bool :: !Confused(o, ext, g.msg, g.fmt0)
  {
    hide Swapped, ChunksAfterFirst;
    assert g.msg.(ts := g.msg.ts) == g.msg;
  }

  /** With full headers everything is carried, and what arrives does not depend on what either side remembers. */
  lemma {:induction false} FullCarried(w: Writer, v: map<nat, Shadow>, chunk: int, size: nat, gs: seq<Outgoing>)
    requires size >= 1 && FullHeaders(chunk, size, gs)
    ensures Carries(w, v, chunk, size, gs) && ArriveAll(w, v, size, gs) == ArriveFull(size, gs)
    decreases |gs|
  {
    hide ArrivalTs, ChunkAfter, Confused, Spelled, SizesAgree, WriterAfter, ShadowAfter, Arrives;
    if gs != [] {
      var g := gs[0];
      var o := OutOf(w, g.msg.csid);
      FullArrival(o, ShadowOf(v, g.msg.csid).ts, g, size);
      FullCarried(WriterAfter(w, g), ShadowAfter(v, o, size, g), ChunkAfter(chunk, Some(g.msg)), size, gs[1..]);
      assert ArriveFull(size, gs) == [Arrives(size, g.msg)] + ArriveFull(size, gs[1..]);
    }
  }

  /** The writer's memory does not matter either. */
  lemma {:induction false} FullWritten(w: Writer, w1: Writer, chunk: int, size: nat, gs: seq<Outgoing>)
    requires size >= 1 && FullHeaders(chunk, size, gs)
    ensures EncodeAll(w, size, gs) == EncodeAll(w1, size, gs)
    decreases |gs|
  {
    hide ChunkAfter, SizesAgree, WriterAfter, Body, Basic, MessageHeader, NextHeader;
    if gs != [] {
      assert Encode(w, size, gs[0]) == Encode(w1, size, gs[0]);
      FullWritten(WriterAfter(w, gs[0]), WriterAfter(w1, gs[0]), ChunkAfter(chunk, Some(gs[0].msg)), size, gs[1..]);
    }
  }

  function ShadowIn(p: Parser, csid: nat): Shadow
    requires Idle(p)
  {
    Shadow(ChanOf(p, csid).prev.ts, ChanOf(p, csid).ext)
  }

  function ShadowsOf(p: Parser): map<nat, Shadow>
    requires Idle(p)
  {
    map csid | csid in p.chans :: ShadowIn(p, csid)
  }

  lemma IdleTracks(p: Parser)
    requires Idle(p)
    ensures AllTrack(map[], p) && Seen(ShadowsOf(p), p)
  {
    forall csid: nat ensures Tracks(OutOf(map[], csid), ChanOf(p, csid)) {
      assert ChanOf(p, csid).pkt == None;
    }
  }

  /** Any list of messages with full headers, from any idle state: exactly these messages arrive. */
  lemma FullHeaderRun(p: Parser, w: Writer, size: nat, gs: seq<Outgoing>)
    requires Idle(p) && size >= 1 && FullHeaders(p.chunk, size, gs)
    ensures var o := Run(p, EncodeAll(w, size, gs));
            o.msgs == ArriveFull(size, gs) && o.rest == []
  {
    hide Run, EncodeAll, Carries, ArriveAll, ArriveFull, AllTrack, Seen, Idle, FullHeaders, ShadowsOf;
    IdleTracks(p);
    FullCarried(map[], ShadowsOf(p), p.chunk, size, gs);
    FullWritten(w, map[], p.chunk, size, gs);
    AnyRun(p, map[], ShadowsOf(p), size, gs);
  }

  /** The timestamp is short, or it is where the byte-swapped additions land. */
  predicate Unharmed(size: nat, m: Message)
    requires size >= 1
  {
    m.ts < TS_EXTENDED || m.ts == (TS_EXTENDED + ChunksAfterFirst(size, |m.data|) * Swapped(m.ts)) % TWO32
  }

  /** A list of messages with full headers arrives as sent if and only if every one of them is unharmed. */
  lemma FullHeadersSurvive(p: Parser, w: Writer, size: nat, gs: seq<Outgoing>)
    requires Idle(p) && size >= 1 && FullHeaders(p.chunk, size, gs)
    ensures Run(p, EncodeAll(w, size, gs)).msgs == Messages(gs) <==> forall g :: g in gs ==> Unharmed(size, g.msg)
  {
    hide OneChunk, Run, EncodeAll, FullHeaders, Idle, Swapped, ChunksAfterFirst;
    FullHeaderRun(p, w, size, gs);
    forall m: Message ensures Arrives(size, m) == m <==> Unharmed(size, m) {
      ArrivesUnharmed(size, m);
    }
    assert forall i :: 0 <= i < |gs| ==>
           ArriveFull(size, gs)[i] == Arrives(size, gs[i].msg) && Messages(gs)[i] == gs[i].msg;
    if forall g :: g in gs ==> Unharmed(size, g.msg) {
      forall i | 0 <= i < |gs| ensures ArriveFull(size, gs)[i] == Messages(gs)[i] {
        assert gs[i] in gs;
      }
    }
  }

  lemma ArrivesUnharmed(size: nat, m: Message)
    requires size >= 1
    ensures Arrives(size, m) == m <==> Unharmed(size, m)
  {
    hide Swapped, ChunksAfterFirst;
  }

  // ---- The exact condition for one message ----

  /** An empty message whose length the header leaves out makes the parser wait for a whole chunk. */
  lemma UnspelledWaits(p: Parser, w: Writer, size: nat, g: Outgoing)
    requires WellFormed(g.msg) && Tracks(OutOf(w, g.msg.csid), ChanOf(p, g.msg.csid))
    requires size >= 1 && p.chunk >= 1 && !Spelled(OutOf(w, g.msg.csid), g.msg, g.fmt0)
    ensures Run(p, Encode(w, size, g)).msgs == []
  {
    hide ReadHead, StepChan, Touch, FirstHeader, Basic, PutHost32, OneChunk;
    var m := g.msg;
    var o, ch := OutOf(w, m.csid), ChanOf(p, m.csid);
    var e := Encode(w, size, g);
    assert e == FirstHeader(o, m, g.fmt0);
    UnspelledRead(o, m, g.fmt0);
    if ReadHead(e).Some? {
      var h := ReadHead(e).value;
      UnspelledStep(ch, p.chunk, h, e[h.size..]);
    }
    Stops(p, e);
    RunStop(p, e);
  }

  lemma Stops(p: Parser, b: seq<byte>)
    requires ReadHead(b).Some? ==>
               var h := ReadHead(b).value; StepChan(ChanOf(p, h.csid), p.chunk, h, b[h.size..]).Wait?
    ensures OneChunk(p, b).Stop?
  {
    hide ReadHead, StepChan;
  }

  lemma UnspelledStep(ch: Chan, chunk: int, h: Head, rest: seq<byte>)
    requires ch.pkt == None && 2 <= h.fmt <= 3 && ch.prev.len == 0 && chunk >= 1
    requires |rest| == 0 || (|rest| == 4 && if h.fmt == 2 then h.ts == TS_EXTENDED else ch.ext)
    ensures StepChan(ch, chunk, h, rest).Wait?
  {
    hide Absorb;
  }

  /** Its bytes are a header, with an extended timestamp or without. */
  lemma UnspelledRead(o: OutChan, m: Message, fmt0: bool)
    requires WellFormed(m) && 2 <= Fmt(o, m, fmt0)
    ensures var e := FirstHeader(o, m, fmt0);
            var r := ReadHead(e);
            r.Some? ==>
              r.value.fmt == Fmt(o, m, fmt0) && r.value.csid == m.csid &&
              (|e| - r.value.size == 0 ||
               (|e| - r.value.size == 4 && Stamp(o, m, fmt0) >= TS_EXTENDED &&
                (r.value.fmt == 2 ==> r.value.ts == TS_EXTENDED)))
  {
    hide ReadHead, Basic, PutHost32, Fmt, Stamp, PutU24;
    var e := FirstHeader(o, m, fmt0);
    if Stamp(o, m, fmt0) >= TS_EXTENDED {
      LateHeadRead(o, m, fmt0, PutHost32(Stamp(o, m, fmt0)));
      assert e == ShortPart(o, m, fmt0) + PutHost32(Stamp(o, m, fmt0));
    } else if Fmt(o, m, fmt0) == 2 {
      assert e + [] == e;
      FirstHeadRead(o, m, fmt0, []);
    } else {
      assert e == Basic(3, m.csid);
      BareHead(m.csid);
    }
  }

  lemma BareHead(csid: nat)
    requires 2 <= csid < 65600
    ensures ReadHead(Basic(3, csid)) == None
  {
  }

  /** No basic header of a chunk stream is shorter than the writer's. */
  lemma MinHead(b: seq<byte>, csid: nat)
    requires 2 <= csid < 65600 && ReadHead(b).Some? && ReadHead(b).value.csid == csid
    ensures ReadHead(b).value.size >= |Basic(3, csid)|
  {
  }

  /** Room a half-built packet has left. */
  function Missing(p: Parser, csid: nat): int {
    if ChanOf(p, csid).pkt.Some? then ChanOf(p, csid).pkt.value.Space() else 0
  }

  /** What a chunk can do for a half-built packet: at most a chunk of bytes, for at least its basic header and them. */
  lemma ChunkPays(p: Parser, b: seq<byte>, csid: nat)
    requires 2 <= csid < 65600 && p.chunk >= 1 && Missing(p, csid) > 0 && OneChunk(p, b).Next?
    ensures var s := OneChunk(p, b);
            var k := if Missing(p, csid) <= p.chunk then Missing(p, csid) else p.chunk;
            (s.msg.None? ==> s.p.chunk == p.chunk) &&
            (s.msg.Some? && s.msg.value.csid == csid ==> k == Missing(p, csid) && s.n >= |Basic(3, csid)| + k) &&
            (s.msg.None? ==>
               s.p.chunk == p.chunk &&
               ((Missing(s.p, csid) == Missing(p, csid)) ||
                (Missing(s.p, csid) == Missing(p, csid) - k > 0 && s.n >= |Basic(3, csid)| + k)))
  {
    var h := ReadHead(b).value;
    if h.csid == csid {
      MinHead(b, csid);
      var ch := ChanOf(p, csid);
      var c := Touch(ch, p.chunk, h);
      assert c.pkt.value.Space() == Missing(p, csid);
      StepPays(ch, p.chunk, h, b[h.size..]);
    }
    hide ReadHead, StepChan, Basic;
  }

  lemma StepPays(ch: Chan, chunk: int, h: Head, rest: seq<byte>)
    requires ch.pkt.Some? && ch.pkt.value.Space() > 0 && chunk >= 1 && StepChan(ch, chunk, h, rest).Took?
    ensures var s := StepChan(ch, chunk, h, rest);
            var left := ch.pkt.value.Space();
            var k := if left <= chunk then left else chunk;
            s.n >= h.size + k && (s.msg.Some? <==> k == left) &&
            (s.msg.None? ==> s.chan.pkt.Some? && s.chan.pkt.value.Space() == left - k)
  {
    hide Absorb;
  }

  /** Too few bytes for the rest of a packet and its headers: its message does not come first, if any comes at all. */
  lemma {:induction false} Starved(p: Parser, b: seq<byte>, csid: nat)
    requires 2 <= csid < 65600 && p.chunk >= 1 && Missing(p, csid) > 0
    requires |b| < Missing(p, csid) + (1 + Continuations(p.chunk, Missing(p, csid))) * |Basic(3, csid)|
    ensures Run(p, b).msgs == [] || Run(p, b).msgs[0].csid != csid
    decreases |b|
  {
    hide OneChunk, Basic, Missing;
    var s := OneChunk(p, b);
    if s.Next? {
      ChunkPays(p, b, csid);
      if s.msg.None? {
        var left, k := Missing(p, csid), |Basic(3, csid)|;
        if Missing(s.p, csid) != left {
          assert Continuations(p.chunk, left) == 1 + Continuations(p.chunk, left - p.chunk);
          OneLess(1 + Continuations(p.chunk, left), k);
        }
        Starved(s.p, b[s.n..], csid);
      } else {
        assert Continuations(p.chunk, Missing(p, csid)) == 0 || Missing(p, csid) > p.chunk;
      }
    }
  }

  lemma OneLess(n: nat, k: nat)
    requires n >= 1
    ensures n * k == (n - 1) * k + k
  {
  }

  /** A confused parser does not deliver the message. */
  lemma ConfusedFails(p: Parser, w: Writer, size: nat, g: Outgoing)
    requires WellFormed(g.msg) && size >= 1 && p.chunk >= 1 && SizesAgree(p.chunk, size, g.msg)
    requires var o, ch := OutOf(w, g.msg.csid), ChanOf(p, g.msg.csid);
             Tracks(o, ch) && Confused(o, ch.ext, g.msg, g.fmt0) && Spelled(o, g.msg, g.fmt0)
    ensures Run(p, Encode(w, size, g)).msgs != [g.msg]
  {
    hide OneChunk, Continuations;
    var m := g.msg;
    var e := Encode(w, size, g);
    ConfusedFirst(p, w, size, g);
    var s := OneChunk(p, e);
    if s.Next? {
      Starved(s.p, e[s.n..], m.csid);
      RunNext(p, e);
      assert [] + Run(s.p, e[s.n..]).msgs == Run(s.p, e[s.n..]).msgs;
    } else {
      RunStop(p, e);
    }
  }

  lemma BareBytes(w: Writer, size: nat, g: Outgoing)
    requires size >= 1 && Confused(OutOf(w, g.msg.csid), true, g.msg, g.fmt0)
    ensures Encode(w, size, g) == Basic(3, g.msg.csid) + Body(size, Basic(3, g.msg.csid), g.msg.data)
  {
    hide Basic, Body, Stamp, Fmt;
    var o := OutOf(w, g.msg.csid);
    assert FirstHeader(o, g.msg, g.fmt0) == Basic(3, g.msg.csid);
    assert NextHeader(g.msg.csid, Stamp(o, g.msg, g.fmt0)) == Basic(3, g.msg.csid);
  }

  /** Its first chunk: it waits, or what is left is too short. */
  lemma ConfusedFirst(p: Parser, w: Writer, size: nat, g: Outgoing)
    requires WellFormed(g.msg) && size >= 1 && p.chunk >= 1 && SizesAgree(p.chunk, size, g.msg)
    requires var o, ch := OutOf(w, g.msg.csid), ChanOf(p, g.msg.csid);
             Tracks(o, ch) && Confused(o, ch.ext, g.msg, g.fmt0) && Spelled(o, g.msg, g.fmt0)
    ensures var e, csid := Encode(w, size, g), g.msg.csid;
            var s := OneChunk(p, e);
            s.Next? ==>
              s.msg.None? && s.p.chunk == p.chunk && Missing(s.p, csid) > 0 &&
              |e| - s.n < Missing(s.p, csid) +
                          (1 + Continuations(p.chunk, Missing(s.p, csid))) * |Basic(3, csid)|
  {
    hide Basic, Body, Continuations, ReadHead, StepChan, Encode, OneChunk, Tracks, Confused, Spelled;
    var m := g.msg;
    var ch := ChanOf(p, m.csid);
    var head := Basic(3, m.csid);
    var body := Body(size, head, m.data);
    var e := Encode(w, size, g);
    var h := Head(3, m.csid, |head|, 0, 0, 0, 0);
    ConfusedFacts(OutOf(w, m.csid), ch, g);
    BareBytes(w, size, g);
    BodyLength(size, head, m.data);
    NextHeadRead(m.csid, body);
    assert (head + body)[|head|..] == body;
    ConfusedStep(ch, p.chunk, h, body, |m.data|);
    ChunkIs(p, e, h);
    CountLess(size, |m.data|, |head|);
  }

  lemma ConfusedFacts(o: OutChan, ch: Chan, g: Outgoing)
    requires Tracks(o, ch) && Confused(o, ch.ext, g.msg, g.fmt0) && Spelled(o, g.msg, g.fmt0)
    ensures ch.pkt == None && ch.ext && ch.prev.len == |g.msg.data| > 0 && Confused(o, true, g.msg, g.fmt0)
  {
  }

  lemma ChunkIs(p: Parser, b: seq<byte>, h: Head)
    requires ReadHead(b) == Some(h) && h.size <= |b|
    ensures var c := StepChan(ChanOf(p, h.csid), p.chunk, h, b[h.size..]);
            if c.Wait? then OneChunk(p, b).Stop?
            else OneChunk(p, b) == Next(Parser(p.chans[h.csid := c.chan], ChunkAfter(p.chunk, c.msg)), c.n, c.msg)
  {
    hide ReadHead, StepChan;
  }

  lemma CountLess(size: nat, len: nat, k: nat)
    requires size >= 1
    ensures len > size ==> Continuations(size, len) * k == (1 + Continuations(size, len - size)) * k
    ensures len <= size ==> Continuations(size, len) * k == 0
  {
  }

  lemma {:induction false} BodyLength(size: nat, next: seq<byte>, data: seq<byte>)
    requires size >= 1
    ensures |Body(size, next, data)| == |data| + Continuations(size, |data|) * |next|
    decreases |data|
  {
    if |data| > size {
      BodyLength(size, next, data[size..]);
      OneLess(Continuations(size, |data|), |next|);
    }
  }

  lemma ConfusedStep(ch: Chan, chunk: int, h: Head, body: seq<byte>, len: nat)
    requires ch.pkt == None && ch.ext && h.fmt == 3 && ch.prev.len == len > 0 && chunk >= 1
    ensures var s := StepChan(ch, chunk, h, body);
            s.Took? ==>
              var k := if len <= chunk then len else chunk;
              s.n == h.size + 4 + k && s.n <= h.size + |body| &&
              (len > chunk ==> s.msg.None? && s.chan.pkt.Some? && s.chan.pkt.value.Space() == len - chunk)
  {
    hide Absorb;
  }

  /**
   * Exactly when a single message survives, whatever headers and timestamps its stream has carried before: its header
   * says its length, the parser does not take four bytes of its body for a timestamp, and the timestamp it reads is the
   * right one.
   */
  lemma TimestampSurvives(p: Parser, w: Writer, size: nat, g: Outgoing)
    requires WellFormed(g.msg) && Tracks(OutOf(w, g.msg.csid), ChanOf(p, g.msg.csid))
    requires size >= 1 && p.chunk >= 1 && SizesAgree(p.chunk, size, g.msg) && ChanOf(p, g.msg.csid).prev.ts < TWO32
    ensures var o, ch := OutOf(w, g.msg.csid), ChanOf(p, g.msg.csid);
            Run(p, Encode(w, size, g)).msgs == [g.msg] <==>
            Spelled(o, g.msg, g.fmt0) && !Confused(o, ch.ext, g.msg, g.fmt0) &&
            ArrivalTs(o, ch.prev.ts, g.msg, g.fmt0, size) == g.msg.ts
  {
    hide Run, Encode, Tracks, Spelled, Confused, ArrivalTs, Delivers, Arrived, ChanOf, SizesAgree;
    var o, ch := OutOf(w, g.msg.csid), ChanOf(p, g.msg.csid);
    if !Spelled(o, g.msg, g.fmt0) {
      UnspelledWaits(p, w, size, g);
    } else if Confused(o, ch.ext, g.msg, g.fmt0) {
      ConfusedFails(p, w, size, g);
    } else {
      var t := ArrivalTs(o, ch.prev.ts, g.msg, g.fmt0, size);
      var r := OneMessage(p, w, size, g, []);
      DeliversAlone(p, Encode(w, size, g), g.msg.(ts := t), r);
      assert g.msg.(ts := g.msg.ts) == g.msg;
    }
  }

  /** Two messages stamped 0x1000000, alike but for their data, the second without a header: it does not arrive. */
  lemma RepeatExample(a: seq<byte>, b: seq<byte>)
    requires 0 < |a| == |b| <= 4096
    ensures var first, second := Message(6, 0x1000000, 9, 1, a), Message(6, 0x1000000, 9, 1, b);
            var gs := [Outgoing(first, false), Outgoing(second, false)];
            Run(Parser(map[], 4096), EncodeAll(map[], 4096, gs)).msgs == [first.(ts := 0xFFFFFF)]
  {
    hide Run, OneChunk, EncodeAll, Encode;
    var first, second := Message(6, 0x1000000, 9, 1, a), Message(6, 0x1000000, 9, 1, b);
    var g, h := Outgoing(first, false), Outgoing(second, false);
    var p := Parser(map[], 4096);
    var w1 := WriterAfter(map[], g);
    var tail := EncodeAll(w1, 4096, [h]);
    TwoEncoded(map[], 4096, g, h);
    var r := OneMessage(p, map[], 4096, g, tail);
    var o := OutOf(w1, 6);
    assert Confused(o, ChanOf(r, 6).ext, second, false);
    ConfusedSingle(r, w1, h);
  }

  lemma TwoEncoded(w: Writer, size: nat, g: Outgoing, h: Outgoing)
    requires size >= 1
    ensures EncodeAll(w, size, [g, h]) == Encode(w, size, g) + EncodeAll(WriterAfter(w, g), size, [h])
    ensures EncodeAll(WriterAfter(w, g), size, [h]) == Encode(WriterAfter(w, g), size, h)
  {
    hide Encode, WriterAfter;
    assert [g, h][1..] == [h] && [h][1..] == [];
    assert Encode(WriterAfter(w, g), size, h) + [] == Encode(WriterAfter(w, g), size, h);
  }

  lemma ConfusedSingle(p: Parser, w: Writer, g: Outgoing)
    requires WellFormed(g.msg) && p.chunk == 4096 && 0 < |g.msg.data| <= 4096
    requires var o, ch := OutOf(w, g.msg.csid), ChanOf(p, g.msg.csid);
             Tracks(o, ch) && Confused(o, ch.ext, g.msg, g.fmt0)
    ensures Run(p, Encode(w, 4096, g)).msgs == []
  {
    var m := g.msg;
    var ch := ChanOf(p, m.csid);
    var head := Basic(3, m.csid);
    BareBytes(w, 4096, g);
    NextHeadRead(m.csid, m.data);
    assert (head + m.data)[|head|..] == m.data;
    ConfusedStep(ch, p.chunk, Head(3, m.csid, |head|, 0, 0, 0, 0), m.data, |m.data|);
    assert OneChunk(p, head + m.data).Stop?;
  }
}
