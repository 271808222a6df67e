/**
 * Several messages in flight at once: the writer's chunks, mixed freely between streams, still deliver every message.
 */
module RtmpMux {
  import opened Bytes
  import opened Options
  import opened RtmpParser
  import opened RtmpSegmentation
  import opened RtmpWriter
  import opened RtmpRoundTrip
  import opened RtmpInterleaving

  /** The chunks of one body, each with its header. */
  function ChunkList(size: nat, head: seq<byte>, next: seq<byte>, data: seq<byte>): seq<seq<byte>>
    requires size >= 1
    decreases |data|
  {
    if |data| <= size then [head + data]
    else [head + data[..size]] + ChunkList(size, next, next, data[size..])
  }

  function ChunksOf(w: Writer, size: nat, g: Outgoing): seq<seq<byte>>
    requires size >= 1
  {
    var o := OutOf(w, g.msg.csid);
    ChunkList(size, FirstHeader(o, g.msg, g.fmt0), NextHeader(g.msg.csid, Stamp(o, g.msg, g.fmt0)), g.msg.data)
  }

  function ChunksAll(w: Writer, size: nat, gs: seq<Outgoing>): seq<seq<byte>>
    requires size >= 1
    decreases |gs|
  {
    if gs == [] then [] else ChunksOf(w, size, gs[0]) + ChunksAll(WriterAfter(w, gs[0]), size, gs[1..])
  }

  lemma {:induction false} FlattenAppend(a: seq<seq<byte>>, b: seq<seq<byte>>)
    ensures Flatten(a + b) == Flatten(a) + Flatten(b)
    decreases |a|
  {
    if a == [] {
      assert a + b == b;
    } else {
      assert (a + b)[0] == a[0] && (a + b)[1..] == a[1..] + b;
      FlattenAppend(a[1..], b);
    }
  }

  lemma {:induction false} ChunkListFlat(size: nat, head: seq<byte>, next: seq<byte>, data: seq<byte>)
    requires size >= 1
    ensures Flatten(ChunkList(size, head, next, data)) == head + Body(size, next, data)
    decreases |data|
  {
    if |data| <= size {
      assert Flatten([head + data]) == head + data;
    } else {
      var rest := ChunkList(size, next, next, data[size..]);
      ChunkListFlat(size, next, next, data[size..]);
      BodySplit(size, head, next, data);
      var l := [head + data[..size]] + rest;
      assert l[0] == head + data[..size] && l[1..] == rest;
    }
  }

  /** The chunk list is the writer's byte stream, cut at chunk borders. */
  lemma {:induction false} ChunksAreTheStream(w: Writer, size: nat, gs: seq<Outgoing>)
    requires size >= 1
    ensures Flatten(ChunksAll(w, size, gs)) == EncodeAll(w, size, gs)
    decreases |gs|
  {
    hide FirstHeader, NextHeader, Stamp, WriterAfter;
    if gs != [] {
      var g := gs[0];
      var o := OutOf(w, g.msg.csid);
      ChunkListFlat(size, FirstHeader(o, g.msg, g.fmt0), NextHeader(g.msg.csid, Stamp(o, g.msg, g.fmt0)), g.msg.data);
      ChunksAreTheStream(WriterAfter(w, g), size, gs[1..]);
      FlattenAppend(ChunksOf(w, size, g), ChunksAll(WriterAfter(w, g), size, gs[1..]));
    }
  }

  /** The chunks `ks` are taken one by one and together deliver `ms`, ending in `q`. */
  ghost predicate Yields(p: Parser, ks: seq<seq<byte>>, ms: seq<Message>, q: Parser) {
    Chunked(p, ks) && Delivered(p, ks) == ms && EndOf(p, ks) == q
  }

  lemma {:induction false} YieldsAppend(p: Parser, a: seq<seq<byte>>, ms: seq<Message>, q: Parser, b: seq<seq<byte>>,
                                        ns: seq<Message>, r: Parser)
    requires Yields(p, a, ms, q) && Yields(q, b, ns, r)
    ensures Yields(p, a + b, ms + ns, r)
    decreases |a|
  {
    hide OneChunk;
    if a == [] {
      assert a + b == b && ms + ns == ns;
    } else {
      var p' := OneChunk(p, a[0]).p;
      var later := Delivered(p', a[1..]);
      YieldsAppend(p', a[1..], later, q, b, ns, r);
      assert (a + b)[0] == a[0] && (a + b)[1..] == a[1..] + b;
      assert ms + ns == Opt(OneChunk(p, a[0]).msg) + (later + ns);
    }
  }

  lemma YieldsOne(p: Parser, k: seq<byte>, q: Parser, msg: Option<Message>)
    requires OneChunk(p, k) == Next(q, |k|, msg) && q.chunk == p.chunk
    ensures Yields(p, [k], Opt(msg), q)
  {
    hide OneChunk;
    assert [k][0] == k && [k][1..] == [];
    assert Takes(p, k);
    assert Chunked(q, []) && Delivered(q, []) == [] && EndOf(q, []) == q;
    assert Chunked(p, [k]);
    assert Delivered(p, [k]) == Opt(msg) + [];
  }

  /** The parser's chunk size is `size` and the message does not change it. */
  ghost predicate Steady(size: nat, m: Message) {
    ChunkAfter(size, Some(m)) == size
  }

  /** The chunks still to come once `done` bytes of the body have been taken. */
  function ChunksLeft(size: nat, m: Message, done: nat): seq<seq<byte>>
    requires size >= 1 && done <= |m.data|
  {
    ChunkList(size, Basic(3, m.csid), Basic(3, m.csid), m.data[done..])
  }

  lemma ChunksLeftSplit(size: nat, m: Message, done: nat)
    requires size >= 1 && done < |m.data|
    ensures var n := Piece(size, |m.data| - done);
            var k := Basic(3, m.csid) + m.data[done..done + n];
            ChunksLeft(size, m, done) == if done + n == |m.data| then [k] else [k] + ChunksLeft(size, m, done + n)
  {
    hide Basic;
    var left := m.data[done..];
    var n := Piece(size, |left|);
    assert left[..n] == m.data[done..done + n] && left[n..] == m.data[done + n..];
    if |left| <= size {
      assert left == m.data[done..done + n];
    }
  }

  lemma AfterSteady(p: Parser, size: nat, m: Message, delta: nat)
    requires p.chunk == size && Steady(size, m)
    ensures After(p, m, delta).chunk == size
  {
  }

  lemma {:induction false} BodyChunkedMore(p: Parser, size: nat, m: Message, delta: nat, done: nat, k: seq<byte>)
    requires WellFormed(m) && size >= 1 && done + size < |m.data| && (m.ts == 0 ==> delta == 0) && Steady(size, m)
    requires p.chunk == size
    requires OneChunk(p, k) == Next(MidParser(p, m, delta, done + size), |k|, None)
    requires ChunksLeft(size, m, done) == [k] + ChunksLeft(size, m, done + size)
    ensures Yields(p, ChunksLeft(size, m, done), [m], After(p, m, delta))
    decreases |m.data| - done, 0
  {
    hide OneChunk, After, Midway, MidParser, ChanOf, Yields, ChunksLeft;
    var q := MidParser(p, m, delta, done + size);
    MidFacts(p, m, delta, done + size);
    YieldsOne(p, k, q, None);
    BodyChunked(q, size, m, delta, done + size);
    YieldsAppend(p, [k], [], q, ChunksLeft(size, m, done + size), [m], After(p, m, delta));
    assert [] + [m] == [m];
  }

  lemma {:induction false} BodyChunked(p: Parser, size: nat, m: Message, delta: nat, done: nat)
    requires WellFormed(m) && done < |m.data| && (m.ts == 0 ==> delta == 0) && Steady(size, m)
    requires size >= 1 && p.chunk == size && ChanOf(p, m.csid) == Midway(m, delta, done)
    ensures Yields(p, ChunksLeft(size, m, done), [m], After(p, m, delta))
    decreases |m.data| - done, 1
  {
    hide OneChunk, Basic, After, Midway, MidParser, ChanOf, Yields, ChunksLeft;
    var n := Piece(size, |m.data| - done);
    var k := Basic(3, m.csid) + m.data[done..done + n];
    NextChunk(p, size, m, delta, done, []);
    ChunksLeftSplit(size, m, done);
    assert m.data[done..done + n] + [] == m.data[done..done + n];
    if done + n == |m.data| {
      AfterSteady(p, size, m, delta);
      YieldsOne(p, k, After(p, m, delta), Some(m));
    } else {
      BodyChunkedMore(p, size, m, delta, done, k);
    }
  }

  lemma MessageChunked(p: Parser, w: Writer, size: nat, g: Outgoing)
    requires WellFormed(g.msg) && Short(OutOf(w, g.msg.csid), g) && Spelled(OutOf(w, g.msg.csid), g.msg, g.fmt0)
    requires Steady(size, g.msg)
    requires Synced(OutOf(w, g.msg.csid), ChanOf(p, g.msg.csid)) && size >= 1 && p.chunk == size
    ensures Yields(p, ChunksOf(w, size, g), [g.msg],
                   After(p, g.msg, OutAfter(OutOf(w, g.msg.csid), g.msg, g.fmt0).delta))
  {
    var m := g.msg;
    var o := OutOf(w, m.csid);
    var head := FirstHeader(o, m, g.fmt0);
    var next := NextHeader(m.csid, Stamp(o, m, g.fmt0));
    var delta := OutAfter(o, m, g.fmt0).delta;
    assert next == Basic(3, m.csid) && (m.ts == 0 ==> delta == 0);
    var n := Piece(size, |m.data|);
    var q := if n == |m.data| then After(p, m, delta) else MidParser(p, m, delta, n);
    assert q.chunk == size;
    FirstChunk(p, o, size, m, g.fmt0, []);
    assert head + (m.data[..n] + []) == head + m.data[..n];
    if n == |m.data| {
      hide OneChunk, FirstHeader, NextHeader, After, OutAfter, Stamp;
      YieldsOne(p, head + m.data[..n], q, Some(m));
      assert m.data[..n] == m.data;
    } else {
      MidFacts(p, m, delta, n);
      hide OneChunk, FirstHeader, NextHeader, After, OutAfter, Stamp, Midway, MidParser, ChanOf, Yields;
      YieldsOne(p, head + m.data[..n], q, None);
      BodyChunked(q, size, m, delta, n);
      YieldsAppend(p, [head + m.data[..n]], [], q, ChunksLeft(size, m, n), [m], After(p, m, delta));
      assert [] + [m] == [m];
    }
  }

  /** Messages of one stream, all carried with one unchanging chunk size. */
  ghost predicate StreamSendable(w: Writer, size: nat, gs: seq<Outgoing>)
    decreases |gs|
  {
    gs == [] ||
    (WellFormed(gs[0].msg) && Short(OutOf(w, gs[0].msg.csid), gs[0]) &&
     Spelled(OutOf(w, gs[0].msg.csid), gs[0].msg, gs[0].fmt0) && Steady(size, gs[0].msg) &&
     StreamSendable(WriterAfter(w, gs[0]), size, gs[1..]))
  }

  function AfterOne(p: Parser, w: Writer, g: Outgoing): Parser {
    After(p, g.msg, OutAfter(OutOf(w, g.msg.csid), g.msg, g.fmt0).delta)
  }

  /** The parser after the messages `gs` have been delivered. */
  function AfterAll(p: Parser, w: Writer, gs: seq<Outgoing>): Parser
    decreases |gs|
  {
    if gs == [] then p else AfterAll(AfterOne(p, w, gs[0]), WriterAfter(w, gs[0]), gs[1..])
  }

  lemma SyncedStep(w: Writer, p: Parser, size: nat, g: Outgoing)
    requires WellFormed(g.msg) && Short(OutOf(w, g.msg.csid), g) && Spelled(OutOf(w, g.msg.csid), g.msg, g.fmt0)
    requires Steady(size, g.msg)
    requires size >= 1 && InSync(w, p) && p.chunk == size
    ensures Yields(p, ChunksOf(w, size, g), [g.msg], AfterOne(p, w, g))
    ensures InSync(WriterAfter(w, g), AfterOne(p, w, g)) && AfterOne(p, w, g).chunk == size
  {
    assert Synced(OutOf(w, g.msg.csid), ChanOf(p, g.msg.csid));
    hide Yields, ChunksOf, OutAfter, Synced, WriterAfter;
    MessageChunked(p, w, size, g);
    SyncKept(p, w, g);
  }

  /** Chunk by chunk, the messages of one sender arrive whole and in order. */
  lemma {:induction false} StreamChunked(w: Writer, p: Parser, size: nat, gs: seq<Outgoing>)
    requires size >= 1 && InSync(w, p) && p.chunk == size && StreamSendable(w, size, gs)
    ensures Yields(p, ChunksAll(w, size, gs), Messages(gs), AfterAll(p, w, gs))
    decreases |gs|
  {
    hide OneChunk, ChunksOf, AfterOne, InSync, WriterAfter;
    if gs != [] {
      var g := gs[0];
      var q := AfterOne(p, w, g);
      var w' := WriterAfter(w, g);
      SyncedStep(w, p, size, g);
      StreamChunked(w', q, size, gs[1..]);
      assert Messages(gs) == [g.msg] + Messages(gs[1..]);
      hide Yields, Messages;
      YieldsAppend(p, ChunksOf(w, size, g), [g.msg], q, ChunksAll(w', size, gs[1..]), Messages(gs[1..]),
        AfterAll(q, w', gs[1..]));
    }
  }

  function At(streams: map<nat, seq<Outgoing>>, c: nat): seq<Outgoing> {
    if c in streams then streams[c] else []
  }

  /** However the chunks of different streams are mixed, every stream's messages arrive whole and in order. */
  lemma InterleavedDelivery(w: Writer, p: Parser, size: nat, streams: map<nat, seq<Outgoing>>, ks: seq<seq<byte>>,
                            segs: seq<seq<byte>>)
    requires size >= 1 && InSync(w, p) && p.chunk == size
    requires forall c: nat :: StreamSendable(w, size, At(streams, c))
    requires forall k :: k in ks ==> ReadHead(k).Some?
    requires forall c: nat :: Only(ks, c) == ChunksAll(w, size, At(streams, c))
    requires segs != [] && Flatten(segs) == Flatten(ks)
    ensures var o := Feed(p, [], segs);
            o.rest == [] && forall c: nat :: OnlyMsgs(o.msgs, c) == Messages(At(streams, c))
  {
    hide ReadHead, InSync, ChunksAll, Messages, Run, OneChunk;
    forall c: nat
      ensures Chunked(p, Only(ks, c)) && Delivered(p, Only(ks, c)) == Messages(At(streams, c))
    {
      StreamChunked(w, p, size, At(streams, c));
    }
    StreamsParse(p, ks);
    RunChunks(p, ks);
    SegmentationIndependence(p, segs);
    forall c: nat ensures OnlyMsgs(Delivered(p, ks), c) == Messages(At(streams, c)) {
      Projection(p, p, ks, c);
    }
  }
}
