/** ParseMessage does not depend on how TCP cuts the byte stream. */
module RtmpSegmentation {
  import opened Bytes
  import opened Options
  import opened RtmpParser

  lemma FieldsExtend(fmt: nat, csid: nat, at: nat, f: seq<byte>, c: seq<byte>)
    requires |f| >= HeadNeed(fmt)
    ensures Fields(fmt, csid, at, f + c) == Fields(fmt, csid, at, f)
  {
    ReadPrefix(f, c);
    if fmt <= 1 {
      assert (f + c)[3..] == f[3..] + c;
      ReadPrefix(f[3..], c);
    }
    if fmt == 0 {
      assert (f + c)[7..] == f[7..] + c;
      ReadPrefix(f[7..], c);
    }
  }

  lemma ReadHeadExtend(b: seq<byte>, c: seq<byte>)
    requires ReadHead(b).Some?
    ensures ReadHead(b + c) == ReadHead(b)
  {
    var n := BasicSize(b[0]);
    assert (b + c)[n..] == b[n..] + c;
    FieldsExtend(b[0] / 64, BasicCsid(b), n, b[n..], c);
  }

  lemma TakeBodyExtend(ch: Chan, chunk: int, csid: nat, at: nat, rest: seq<byte>, c: seq<byte>)
    requires ch.pkt.Some? && TakeBody(ch, chunk, csid, at, rest).Took?
    ensures TakeBody(ch, chunk, csid, at, rest + c) == TakeBody(ch, chunk, csid, at, rest)
  {
    var n := BodySize(ch, chunk);
    assert (rest + c)[..n] == rest[..n];
  }

  lemma StepChanExtend(ch: Chan, chunk: int, h: Head, rest: seq<byte>, c: seq<byte>)
    requires StepChan(ch, chunk, h, rest).Took?
    ensures StepChan(ch, chunk, h, rest + c) == StepChan(ch, chunk, h, rest)
  {
    var t := Touch(ch, chunk, h);
    if t.ext {
      ReadPrefix(rest, c);
      assert (rest + c)[4..] == rest[4..] + c;
      TakeBodyExtend(Extend(t, h, U32(rest)), chunk, h.csid, h.size + 4, rest[4..], c);
    } else {
      TakeBodyExtend(t, chunk, h.csid, h.size, rest, c);
    }
  }

  /** Bytes that arrive later never change a chunk that was already complete. */
  lemma OneChunkExtend(p: Parser, b: seq<byte>, c: seq<byte>)
    requires OneChunk(p, b).Next?
    ensures OneChunk(p, b + c) == OneChunk(p, b)
  {
    var h := ReadHead(b).value;
    ReadHeadExtend(b, c);
    assert (b + c)[h.size..] == b[h.size..] + c;
    StepChanExtend(ChanOf(p, h.csid), p.chunk, h, b[h.size..], c);
  }

  /** Storing the header fields of a chunk twice is the same as storing them once. */
  lemma TouchTwice(ch: Chan, chunk: int, h: Head)
    requires h.fmt < 4
    ensures Touch(Touch(ch, chunk, h), chunk, h) == Touch(ch, chunk, h)
  {
  }

  lemma TouchExtended(ch: Chan, chunk: int, h: Head, xts: nat)
    requires h.fmt < 4 && Touch(ch, chunk, h).ext
    ensures var e := Extend(Touch(ch, chunk, h), h, xts);
            Touch(e, chunk, h).ext && Extend(Touch(e, chunk, h), h, xts) == e
  {
  }

  /** The state left behind by a chunk that had to wait leads to the same result when the chunk is retried. */
  lemma StepChanRetry(ch: Chan, chunk: int, h: Head, rest: seq<byte>, c: seq<byte>)
    requires h.fmt < 4 && StepChan(ch, chunk, h, rest).Wait?
    ensures StepChan(StepChan(ch, chunk, h, rest).chan, chunk, h, rest + c) == StepChan(ch, chunk, h, rest + c)
  {
    TouchTwice(ch, chunk, h);
    if Touch(ch, chunk, h).ext && |rest| >= 4 {
      ReadPrefix(rest, c);
      TouchExtended(ch, chunk, h, U32(rest));
    }
  }

  lemma OneChunkRetry(p: Parser, b: seq<byte>, c: seq<byte>)
    requires OneChunk(p, b).Stop?
    ensures OneChunk(OneChunk(p, b).p, b + c) == OneChunk(p, b + c)
  {
    match ReadHead(b)
    case None =>
    case Some(h) =>
      ReadHeadExtend(b, c);
      assert (b + c)[h.size..] == b[h.size..] + c;
      var ch := ChanOf(p, h.csid);
      StepChanRetry(ch, p.chunk, h, b[h.size..], c);
      var w := StepChan(ch, p.chunk, h, b[h.size..]).chan;
      var q := p.(chans := p.chans[h.csid := w]);
      assert OneChunk(p, b).p == q && ChanOf(q, h.csid) == w;
      var r := StepChan(ch, p.chunk, h, (b + c)[h.size..]);
      assert p.chans[h.csid := w][h.csid := r.chan] == p.chans[h.csid := r.chan];
  }

  lemma RunStop(p: Parser, b: seq<byte>)
    requires OneChunk(p, b).Stop?
    ensures Run(p, b) == Outcome(OneChunk(p, b).p, b, [])
  {
  }

  lemma RunNext(p: Parser, b: seq<byte>)
    requires OneChunk(p, b).Next?
    ensures var s := OneChunk(p, b);
            var o := Run(s.p, b[s.n..]);
            Run(p, b) == o.(msgs := Opt(s.msg) + o.msgs)
  {
  }

  lemma RunCongruent(p: Parser, q: Parser, b: seq<byte>)
    requires OneChunk(p, b) == OneChunk(q, b)
    ensures Run(p, b) == Run(q, b)
  {
  }

  /** What `Segmentation` says of one way to split. */
  ghost predicate Splits(p: Parser, a: seq<byte>, c: seq<byte>) {
    var first := Run(p, a);
    var second := Run(first.p, first.rest + c);
    Run(p, a + c) == second.(msgs := first.msgs + second.msgs)
  }

  lemma SplitsAfterWait(p: Parser, a: seq<byte>, c: seq<byte>)
    requires OneChunk(p, a).Stop?
    ensures Splits(p, a, c)
  {
    hide OneChunk;
    var q := OneChunk(p, a).p;
    RunStop(p, a);
    OneChunkRetry(p, a, c);
    RunCongruent(p, q, a + c);
    assert [] + Run(q, a + c).msgs == Run(q, a + c).msgs;
  }

  lemma SplitsAfterChunk(p: Parser, a: seq<byte>, c: seq<byte>)
    requires OneChunk(p, a).Next?
    requires var s := OneChunk(p, a); Splits(s.p, a[s.n..], c)
    ensures Splits(p, a, c)
  {
    hide OneChunk;
    var s := OneChunk(p, a);
    OneChunkExtend(p, a, c);
    assert (a + c)[s.n..] == a[s.n..] + c;
    RunNext(p, a);
    RunNext(p, a + c);
    var first := Run(s.p, a[s.n..]);
    var second := Run(first.p, first.rest + c);
    assert Opt(s.msg) + (first.msgs + second.msgs) == (Opt(s.msg) + first.msgs) + second.msgs;
  }

  /** Feeding `a` and then `c` is feeding `a + c`: same messages, same leftover bytes, same state. */
  lemma {:induction false} Segmentation(p: Parser, a: seq<byte>, c: seq<byte>)
    ensures Splits(p, a, c)
    decreases |a|
  {
    var s := OneChunk(p, a);
    if s.Stop? {
      SplitsAfterWait(p, a, c);
    } else {
      Segmentation(s.p, a[s.n..], c);
      SplitsAfterChunk(p, a, c);
    }
  }

  function Flatten(segs: seq<seq<byte>>): seq<byte> {
    if segs == [] then [] else segs[0] + Flatten(segs[1..])
  }

  /** What a connection does: each arriving segment is appended to the leftover bytes and parsed. */
  function Feed(p: Parser, rest: seq<byte>, segs: seq<seq<byte>>): Outcome
    decreases |segs|
  {
    if segs == [] then Outcome(p, rest, [])
    else
      var o := Run(p, rest + segs[0]);
      var f := Feed(o.p, o.rest, segs[1..]);
      f.(msgs := o.msgs + f.msgs)
  }

  /** Any way of cutting the stream gives the outcome of parsing it in one piece. */
  lemma {:induction false} SegmentationIndependence(p: Parser, segs: seq<seq<byte>>)
    requires segs != []
    ensures Feed(p, [], segs) == Run(p, Flatten(segs))
  {
    FeedFrom(p, [], segs);
    assert [] + Flatten(segs) == Flatten(segs);
  }

  lemma {:induction false} FeedFrom(p: Parser, rest: seq<byte>, segs: seq<seq<byte>>)
    requires segs != []
    ensures Feed(p, rest, segs) == Run(p, rest + Flatten(segs))
    decreases |segs|
  {
    hide Run;
    var o := Run(p, rest + segs[0]);
    if |segs| == 1 {
      assert Flatten(segs[1..]) == [];
      assert rest + Flatten(segs) == rest + segs[0];
      assert o.msgs + [] == o.msgs;
    } else {
      FeedFrom(o.p, o.rest, segs[1..]);
      Segmentation(p, rest + segs[0], Flatten(segs[1..]));
      assert rest + Flatten(segs) == (rest + segs[0]) + Flatten(segs[1..]);
    }
  }
}
