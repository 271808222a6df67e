/** Both ends together: what a peer is handed at any moment is a prefix of what was sent, in order and unharmed. */
module RtmpSession {
  import opened Bytes
  import opened Options
  import opened RtmpParser
  import opened RtmpSegmentation
  import opened RtmpWriter
  import opened RtmpRoundTrip
  import opened RtmpOutputs

  /**
   * At every moment the bytes the kernel has accepted are a prefix of what has been chunked, and that is all chunks of
   * the messages chunked so far, in FIFO order, if and only if none of them was cut short.
   */
  lemma WireOrder(o: RtmpOutput)
    requires o.Valid()
    ensures o.accepted <= o.chunked
    ensures o.chunked == EncodeAll(map[], OUT_CHUNK, o.sent[..o.built]) <==> !o.cut
    ensures !o.cut ==> o.accepted <= EncodeAll(map[], OUT_CHUNK, o.sent)
    ensures !o.sending && !o.closed ==> o.accepted == o.chunked && o.built == |o.sent|
  {
    hide Encode, WriterAfter;
    EncodeAllAppend(map[], OUT_CHUNK, o.sent[..o.built], o.sent[o.built..]);
    assert o.sent[..o.built] + o.sent[o.built..] == o.sent;
  }

  /** A stream cut off anywhere delivers the first messages of the whole stream. */
  lemma CutStream(p: Parser, a: seq<byte>, whole: seq<byte>)
    requires a <= whole
    ensures Run(p, a).msgs <= Run(p, whole).msgs
  {
    hide OneChunk, Run;
    Segmentation(p, a, whole[|a|..]);
    assert a + whole[|a|..] == whole;
  }

  /**
   * End to end: whatever part of the chunks of `gs` has reached the peer, and however it was cut into segments, the
   * messages handed over are the first ones of `gs`; with all bytes there, they are all of `gs`.
   */
  lemma Delivery(gs: seq<Outgoing>, w: Writer, p: Parser, size: nat, segs: seq<seq<byte>>)
    requires size >= 1 && InSync(w, p) && Sendable(w, p.chunk, size, gs) && segs != []
    requires Flatten(segs) <= EncodeAll(w, size, gs)
    ensures Feed(p, [], segs).msgs <= Messages(gs)
    ensures Flatten(segs) == EncodeAll(w, size, gs) ==>
            Feed(p, [], segs).msgs == Messages(gs) && Feed(p, [], segs).rest == []
  {
    hide OneChunk, Run, InSync, Sendable, EncodeAll, WriterAfterAll, Messages, Feed, Flatten;
    SegmentationIndependence(p, segs);
    RoundTrip(w, p, size, gs);
    CutStream(p, Flatten(segs), EncodeAll(w, size, gs));
  }

  /** The message with which a session announces its chunk size. */
  function SetChunkSize(size: nat): Message {
    Message(2, 0, TYPE_CHUNK_SIZE, 0, PutU32(size))
  }

  /** An ordinary message of the first 4 h 39 min of a stream; an empty one goes with a full header. */
  ghost predicate Ordinary(g: Outgoing) {
    WellFormed(g.msg) && g.msg.ts < TS_EXTENDED && g.msg.typ != TYPE_CHUNK_SIZE && (g.msg.data == [] ==> g.fmt0)
  }

  lemma {:induction false} OrdinarySendable(w: Writer, size: nat, gs: seq<Outgoing>)
    requires forall g :: g in gs ==> Ordinary(g)
    ensures Sendable(w, size, size, gs)
    decreases |gs|
  {
    if gs != [] {
      assert gs[0] in gs;
      OrdinarySendable(WriterAfter(w, gs[0]), size, gs[1..]);
    }
  }

  /**
   * A session as it runs: the receiver starts with the protocol's 128-byte chunk size, the first message announces
   * 4096, and from then on every ordinary message arrives.
   */
  lemma SessionDelivery(gs: seq<Outgoing>, fmt0: bool, segs: seq<seq<byte>>)
    requires forall g :: g in gs ==> Ordinary(g)
    requires segs != []
    requires Flatten(segs) == EncodeAll(map[], OUT_CHUNK, [Outgoing(SetChunkSize(OUT_CHUNK), fmt0)] + gs)
    ensures Feed(Parser(map[], 128), [], segs).msgs == [SetChunkSize(OUT_CHUNK)] + Messages(gs)
  {
    hide OneChunk, Run, InSync, Sendable, EncodeAll, WriterAfterAll, Feed, Flatten, Ordinary, SetChunkSize;
    var first := Outgoing(SetChunkSize(OUT_CHUNK), fmt0);
    var all := [first] + gs;
    FreshSync(128);
    OpeningSendable(gs, fmt0);
    Delivery(all, map[], Parser(map[], 128), OUT_CHUNK, segs);
    assert Messages(all) == [first.msg] + Messages(gs);
  }

  /** Its bytes. */
  lemma OpeningBytes(fmt0: bool)
    ensures Encode(map[], 4096, Outgoing(SetChunkSize(OUT_CHUNK), fmt0)) ==
            [2, 0, 0, 0, 0, 0, 4, 1, 0, 0, 0, 0, 0, 0, 16, 0]
  {
  }

  lemma FreshSync(chunk: int)
    ensures InSync(map[], Parser(map[], chunk))
  {
  }

  lemma OpeningSendable(gs: seq<Outgoing>, fmt0: bool)
    requires forall g :: g in gs ==> Ordinary(g)
    ensures Sendable(map[], 128, OUT_CHUNK, [Outgoing(SetChunkSize(OUT_CHUNK), fmt0)] + gs)
  {
    var first := Outgoing(SetChunkSize(OUT_CHUNK), fmt0);
    var all := [first] + gs;
    U32RoundTrip(OUT_CHUNK);
    assert all[0] == first && all[1..] == gs;
    OrdinarySendable(WriterAfter(map[], first), OUT_CHUNK, gs);
  }

  /** A publisher's empty audio message is parsed and handed on as a message without data. */
  lemma EmptyMessageArrives()
    ensures var s := OneChunk(Parser(map[], 128), [4, 0, 0, 0, 0, 0, 0, 8, 1, 0, 0, 0]);
            s.Next? && s.n == 12 && s.msg == Some(Message(4, 0, 8, 1, []))
  {
    var b: seq<byte> := [4, 0, 0, 0, 0, 0, 0, 8, 1, 0, 0, 0];
    assert ReadHead(b) == Some(Head(0, 4, 12, 0, 0, 8, 1)) by {
      assert b[1..][3..] == [0, 0, 0, 8, 1, 0, 0, 0] && b[1..][7..] == [1, 0, 0, 0];
    }
    assert b[12..] == [];
  }
}
