/** Chunk streams are independent: interleaving their chunks changes nothing within any of them. */
module RtmpInterleaving {
  import opened Bytes
  import opened Options
  import opened RtmpParser
  import opened RtmpSegmentation
  import opened RtmpWriter
  import opened RtmpRoundTrip

  /** `k` is one whole chunk for `p`: the parser takes all of it and keeps its chunk size. */
  ghost predicate Takes(p: Parser, k: seq<byte>) {
    var s := OneChunk(p, k);
    s.Next? && s.n == |k| && s.p.chunk == p.chunk
  }

  /** Each element of `ks` is one whole chunk when its turn comes. */
  ghost predicate Chunked(p: Parser, ks: seq<seq<byte>>)
    decreases |ks|
  {
    ks == [] || (Takes(p, ks[0]) && Chunked(OneChunk(p, ks[0]).p, ks[1..]))
  }

  ghost function Delivered(p: Parser, ks: seq<seq<byte>>): seq<Message>
    requires Chunked(p, ks)
    decreases |ks|
  {
    if ks == [] then [] else Opt(OneChunk(p, ks[0]).msg) + Delivered(OneChunk(p, ks[0]).p, ks[1..])
  }

  ghost function EndOf(p: Parser, ks: seq<seq<byte>>): Parser
    requires Chunked(p, ks)
    decreases |ks|
  {
    if ks == [] then p else EndOf(OneChunk(p, ks[0]).p, ks[1..])
  }

  /** The chunk belongs to stream `c`. */
  predicate Of(k: seq<byte>, c: nat) {
    var h := ReadHead(k);
    h.Some? && h.value.csid == c
  }

  function Only(ks: seq<seq<byte>>, c: nat): seq<seq<byte>>
    decreases |ks|
  {
    if ks == [] then [] else (if Of(ks[0], c) then [ks[0]] else []) + Only(ks[1..], c)
  }

  function OnlyMsgs(ms: seq<Message>, c: nat): seq<Message>
    decreases |ms|
  {
    if ms == [] then [] else (if ms[0].csid == c then [ms[0]] else []) + OnlyMsgs(ms[1..], c)
  }

  /** The two parsers look the same to chunks of stream `c`. */
  ghost predicate Alike(p: Parser, q: Parser, c: nat) {
    p.chunk == q.chunk && ChanOf(p, c) == ChanOf(q, c)
  }

  lemma ChunkOfStream(p: Parser, q: Parser, k: seq<byte>, c: nat)
    requires Of(k, c) && Alike(p, q, c) && Takes(p, k)
    ensures Takes(q, k) && OneChunk(q, k).msg == OneChunk(p, k).msg
    ensures Alike(OneChunk(p, k).p, OneChunk(q, k).p, c)
    ensures OneChunk(p, k).msg.Some? ==> OneChunk(p, k).msg.value.csid == c
  {
    hide Touch, Extend, BodySize;
  }

  lemma ChunkOfOther(p: Parser, k: seq<byte>, c: nat)
    requires !Of(k, c) && Takes(p, k)
    ensures Alike(p, OneChunk(p, k).p, c)
    ensures OneChunk(p, k).msg.Some? ==> OneChunk(p, k).msg.value.csid != c
  {
    hide Touch, Extend, BodySize;
  }

  /** What stream `c` delivers depends on its own chunks only. */
  lemma {:induction false} Projection(p: Parser, q: Parser, ks: seq<seq<byte>>, c: nat)
    requires Chunked(p, ks) && Alike(p, q, c)
    ensures Chunked(q, Only(ks, c))
    ensures OnlyMsgs(Delivered(p, ks), c) == Delivered(q, Only(ks, c))
    ensures Alike(EndOf(p, ks), EndOf(q, Only(ks, c)), c)
    decreases |ks|
  {
    hide OneChunk, Alike;
    if ks != [] {
      var k := ks[0];
      var p' := OneChunk(p, k).p;
      OnlyMsgsAppend(Opt(OneChunk(p, k).msg), Delivered(p', ks[1..]), c);
      if Of(k, c) {
        ChunkOfStream(p, q, k, c);
        Projection(p', OneChunk(q, k).p, ks[1..], c);
        var rest := Only(ks[1..], c);
        assert Only(ks, c)[0] == k && Only(ks, c)[1..] == rest;
      } else {
        ChunkOfOther(p, k, c);
        AlikeTrans(p', p, q, c);
        Projection(p', q, ks[1..], c);
        assert Only(ks, c) == Only(ks[1..], c);
      }
    }
  }

  lemma AlikeTrans(p': Parser, p: Parser, q: Parser, c: nat)
    requires Alike(p, p', c) && Alike(p, q, c)
    ensures Alike(p', q, c)
  {
  }

  lemma {:induction false} OnlyMsgsAppend(a: seq<Message>, b: seq<Message>, c: nat)
    ensures OnlyMsgs(a + b, c) == OnlyMsgs(a, c) + OnlyMsgs(b, c)
    decreases |a|
  {
    if a == [] {
      assert a + b == b;
    } else {
      assert (a + b)[0] == a[0] && (a + b)[1..] == a[1..] + b;
      OnlyMsgsAppend(a[1..], b, c);
    }
  }

  lemma {:induction false} OnlyIdempotent(ks: seq<seq<byte>>, c: nat)
    ensures Only(Only(ks, c), c) == Only(ks, c)
    decreases |ks|
  {
    if ks != [] {
      OnlyIdempotent(ks[1..], c);
      if Of(ks[0], c) {
        assert Only(ks, c)[0] == ks[0] && Only(ks, c)[1..] == Only(ks[1..], c);
      } else {
        assert Only(ks, c) == Only(ks[1..], c);
      }
    }
  }

  ghost predicate EveryStream(p: Parser, ks: seq<seq<byte>>) {
    forall c: nat :: Chunked(p, Only(ks, c))
  }

  /** A mixture of chunks is parsed chunk by chunk exactly when every stream's own chunks are. */
  lemma {:induction false} MixtureParses(p: Parser, ks: seq<seq<byte>>)
    requires forall k :: k in ks ==> ReadHead(k).Some?
    ensures Chunked(p, ks) <==> EveryStream(p, ks)
  {
    if Chunked(p, ks) {
      forall c: nat ensures Chunked(p, Only(ks, c)) {
        Projection(p, p, ks, c);
      }
    }
    if EveryStream(p, ks) {
      StreamsParse(p, ks);
    }
  }

  lemma {:induction false} StreamsParse(p: Parser, ks: seq<seq<byte>>)
    requires forall k :: k in ks ==> ReadHead(k).Some?
    requires EveryStream(p, ks)
    ensures Chunked(p, ks)
    decreases |ks|
  {
    hide OneChunk, Alike;
    if ks != [] {
      var k := ks[0];
      assert k in ks;
      var c0 := ReadHead(k).value.csid;
      assert Chunked(p, Only(ks, c0));
      assert Only(ks, c0)[0] == k && Only(ks, c0)[1..] == Only(ks[1..], c0);
      var p' := OneChunk(p, k).p;
      forall c: nat ensures Chunked(p', Only(ks[1..], c)) {
        if c != c0 {
          assert Chunked(p, Only(ks, c));
          assert Only(ks, c) == Only(ks[1..], c);
          ChunkOfOther(p, k, c);
          Projection(p, p', Only(ks, c), c);
          OnlyIdempotent(ks, c);
        }
      }
      StreamsParse(p', ks[1..]);
    }
  }

  /** Parsing the concatenated chunks in one piece delivers what they deliver one by one. */
  lemma {:induction false} RunChunks(p: Parser, ks: seq<seq<byte>>)
    requires Chunked(p, ks)
    ensures Run(p, Flatten(ks)) == Outcome(EndOf(p, ks), [], Delivered(p, ks))
    decreases |ks|
  {
    hide OneChunk;
    if ks == [] {
      RunEmpty(p);
    } else {
      var k := ks[0];
      var tail := Flatten(ks[1..]);
      OneChunkExtend(p, k, tail);
      RunNext(p, k + tail);
      assert (k + tail)[|k|..] == tail;
      RunChunks(OneChunk(p, k).p, ks[1..]);
    }
  }
}
