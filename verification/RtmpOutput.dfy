/**
 * The sending half of RtmpContext together with the gather list of its TcpConnection: messages are queued, chunked
 * into a shared 4096-byte header arena, and written by writev in whatever portions the kernel accepts.
 */
module RtmpOutputs {
  import opened Bytes
  import opened Options
  import opened RtmpParser
  import opened RtmpWriter
  import opened RtmpRoundTrip
  import opened WireNodes

  const ARENA_SIZE := 4096
  const OUT_CHUNK := 4096
  const BATCH := 10
  const HEADER_SHARE := 409

  /** Header bytes the message needs in the arena. */
  function HeaderBytes(o: OutChan, g: Outgoing, size: nat): nat
    requires size >= 1
  {
    |FirstHeader(o, g.msg, g.fmt0)| +
    Continuations(size, |g.msg.data|) * |NextHeader(g.msg.csid, Stamp(o, g.msg, g.fmt0))|
  }

  /** The body as the writer emits it when the arena is filled up to `at`: cut short once the arena is full. */
  function CutBody(size: nat, next: seq<byte>, data: seq<byte>, at: nat): seq<byte>
    requires size >= 1
    decreases |data|
  {
    if |data| <= size then data
    else if at >= ARENA_SIZE then data[..size]
    else data[..size] + next + CutBody(size, next, data[size..], at + |next|)
  }

  /** No header is written across the end of the arena (`n` more headers of `k` bytes each, from `at`). */
  ghost predicate ArenaSafe(at: nat, k: nat, n: nat)
    decreases n
  {
    n == 0 || at >= ARENA_SIZE || (at + k <= ARENA_SIZE && ArenaSafe(at + k, k, n - 1))
  }

  /** The whole body is emitted exactly when its headers start inside the arena. */
  lemma {:induction false} CutBodyWhole(size: nat, next: seq<byte>, data: seq<byte>, at: nat)
    requires size >= 1 && next != []
    ensures CutBody(size, next, data, at) == Body(size, next, data) <==>
            Continuations(size, |data|) == 0 || at + (Continuations(size, |data|) - 1) * |next| < 4096
    ensures |CutBody(size, next, data, at)| <= |Body(size, next, data)|
    ensures CutBody(size, next, data, at) <= Body(size, next, data)
    decreases |data|
  {
    if |data| > size {
      var n := Continuations(size, |data|);
      var rest := Continuations(size, |data| - size);
      var whole := Body(size, next, data[size..]);
      assert n == 1 + rest;
      Grow(at, rest, |next|);
      if at < ARENA_SIZE {
        var cut := CutBody(size, next, data[size..], at + |next|);
        CutBodyWhole(size, next, data[size..], at + |next|);
        SamePrefix(data[..size] + next, cut, whole);
      }
    }
  }

  lemma Grow(at: nat, rest: nat, k: nat)
    ensures rest >= 1 ==> at + k + (rest - 1) * k == at + rest * k
    ensures at + rest * k >= at
  {
  }

  lemma SamePrefix(p: seq<byte>, a: seq<byte>, b: seq<byte>)
    ensures p + a == p + b <==> a == b
    ensures a <= b ==> p + a <= p + b
  {
    assert (p + a)[|p|..] == a && (p + b)[|p|..] == b;
  }

  /** Where the arena is filled up to after the body's headers. */
  function CutEnd(size: nat, k: nat, len: nat, at: nat): nat
    requires size >= 1
    decreases len
  {
    if len <= size || at >= ARENA_SIZE then at else CutEnd(size, k, len - size, at + k)
  }

  /** What the writer does after a piece of `n` bytes. */
  lemma PieceEmitted(size: nat, next: seq<byte>, left: seq<byte>, at: nat, n: nat, out: seq<byte>)
    requires size >= 1 && n == (if |left| > size then size else |left|)
    ensures |left| == n || at >= ARENA_SIZE ==>
              out + left[..n] == out + CutBody(size, next, left, at) && CutEnd(size, |next|, |left|, at) == at
    ensures |left| > n && at < ARENA_SIZE ==>
              out + left[..n] + next + CutBody(size, next, left[n..], at + |next|) ==
              out + CutBody(size, next, left, at) &&
              CutEnd(size, |next|, |left| - n, at + |next|) == CutEnd(size, |next|, |left|, at)
    ensures |left| > n && at < ARENA_SIZE && ArenaSafe(at, |next|, Continuations(size, |left|)) ==>
              at + |next| <= ARENA_SIZE && ArenaSafe(at + |next|, |next|, Continuations(size, |left| - n))
  {
    if |left| == n {
      assert left[..n] == left;
    } else if at < ARENA_SIZE {
      var rest := CutBody(size, next, left[n..], at + |next|);
      assert out + left[..n] + next + rest == out + (left[..n] + next + rest);
    }
  }

  /** The caller's check: the arena is full already, the headers fit, or one of them ends exactly at its end. */
  predicate HeadersFit(at: nat, k: nat, n: nat)
    requires k > 0
  {
    n == 0 || at >= ARENA_SIZE || at + n * k <= ARENA_SIZE || (ARENA_SIZE - at) % k == 0
  }

  lemma HeadersFitIs(at: nat, k: nat, n: nat)
    requires k > 0
    ensures HeadersFit(at, k, n) <==> n == 0 || at >= 4096 || at + n * k <= 4096 || (4096 - at) % k == 0
  {
  }

  /** No header crosses the end of the arena exactly if the check succeeds. */
  lemma {:induction false} HeadersFitExact(at: nat, k: nat, n: nat)
    requires k > 0
    ensures ArenaSafe(at, k, n) <==> HeadersFit(at, k, n)
    decreases n
  {
    hide HeadersFit;
    NothingToFit(at, k, n);
    if n > 0 && at < ARENA_SIZE {
      FitStep(at, k, n);
      if at + k <= ARENA_SIZE {
        HeadersFitExact(at + k, k, n - 1);
      }
    }
  }

  lemma NothingToFit(at: nat, k: nat, n: nat)
    requires k > 0
    ensures n == 0 || at >= ARENA_SIZE ==> HeadersFit(at, k, n)
  {
  }

  lemma FitStep(at: nat, k: nat, n: nat)
    requires k > 0 && n > 0 && at < ARENA_SIZE
    ensures HeadersFit(at, k, n) <==> at + k <= ARENA_SIZE && HeadersFit(at + k, k, n - 1)
  {
    Several(n, k);
    assert n * k == (n - 1) * k + k;
    if at + k <= ARENA_SIZE {
      Shorter(ARENA_SIZE - at, k);
    } else {
      Least(ARENA_SIZE - at, k);
    }
  }

  lemma Shorter(a: nat, k: nat)
    requires k > 0 && a >= k
    ensures (a - k) % k == a % k
  {
    assert a == a / k * k + a % k;
    assert a - k == (a / k - 1) * k + a % k;
    Remainder(a - k, a / k - 1, a % k, k);
  }

  lemma Remainder(x: int, q: int, r: int, k: nat)
    requires k > 0 && x == q * k + r && 0 <= r < k
    ensures x % k == r
  {
    var q1 := x / k;
    if q1 < q {
      assert (q - q1) * k >= k by { Several(q - q1, k); }
    } else if q < q1 {
      assert (q1 - q) * k >= k by { Several(q1 - q, k); }
    }
  }

  lemma Several(n: nat, k: nat)
    requires n >= 1
    ensures n * k >= k
  {
    assert n * k == (n - 1) * k + k && (n - 1) * k >= 0;
  }

  lemma Least(a: nat, k: nat)
    requires 0 < a < k
    ensures a % k == a
  {
  }

  /** That is when the end of the headers stays inside the arena. */
  lemma {:induction false} HeadersInside(size: nat, k: nat, len: nat, at: nat)
    requires size >= 1 && k > 0 && at <= ARENA_SIZE
    ensures CutEnd(size, k, len, at) <= 4096 <==> HeadersFit(at, k, Continuations(size, len))
    decreases len
  {
    HeadersFitExact(at, k, Continuations(size, len));
    if len > size && at < ARENA_SIZE && at + k <= ARENA_SIZE {
      HeadersInside(size, k, len - size, at + k);
      HeadersFitExact(at + k, k, Continuations(size, len - size));
    } else if len > size && at < ARENA_SIZE {
      EndGrows(size, k, len - size, at + k);
    }
  }

  lemma {:induction false} EndGrows(size: nat, k: nat, len: nat, at: nat)
    requires size >= 1
    ensures CutEnd(size, k, len, at) >= at
    decreases len
  {
    if len > size && at < ARENA_SIZE {
      EndGrows(size, k, len - size, at + k);
    }
  }

  /** A long-stamped message of two chunks that starts 18 bytes before the end of the arena leaves it by three bytes. */
  lemma ArenaOverrun(data: seq<byte>)
    requires |data| == OUT_CHUNK + 1
    ensures var m := Message(4, TS_EXTENDED, 9, 1, data);
            var at := 4078 + |FirstHeader(FRESH_OUT, m, true)|;
            var k := |NextHeader(4, TS_EXTENDED)|;
            !HeadersFit(at, k, Continuations(OUT_CHUNK, |data|)) && CutEnd(OUT_CHUNK, k, |data|, at) == ARENA_SIZE + 3
  {
    var m := Message(4, TS_EXTENDED, 9, 1, data);
    assert |FirstHeader(FRESH_OUT, m, true)| == 16;
    assert |NextHeader(4, TS_EXTENDED)| == 5;
    assert Continuations(OUT_CHUNK, |data|) == 1;
  }

  /** Header bytes a message needs at most, whatever was sent before it. */
  function MaxHeaderBytes(g: Outgoing): int {
    var b := |Basic(0, g.msg.csid)|;
    b + 15 + Continuations(OUT_CHUNK, |g.msg.data|) * (b + 4)
  }

  lemma HeaderBound(o: OutChan, g: Outgoing)
    ensures HeaderBytes(o, g, OUT_CHUNK) <= MaxHeaderBytes(g)
  {
    var b := |Basic(0, g.msg.csid)|;
    var k := |NextHeader(g.msg.csid, Stamp(o, g.msg, g.fmt0))|;
    assert |FirstHeader(o, g.msg, g.fmt0)| <= b + 15;
    hide FirstHeader, NextHeader, Basic, Stamp;
    assert k <= b + 4;
    MulMono(Continuations(OUT_CHUNK, |g.msg.data|), k, b + 4);
  }

  lemma {:induction false} MulMono(n: nat, a: nat, b: nat)
    requires a <= b
    ensures n * a <= n * b
    decreases n
  {
    if n > 0 {
      MulMono(n - 1, a, b);
      assert n * a == (n - 1) * a + a && n * b == (n - 1) * b + b;
    }
  }

  function Pending(nodes: seq<BufferNode>): nat
    decreases |nodes|
  {
    if nodes == [] then 0 else nodes[0].Size() + Pending(nodes[1..])
  }

  lemma {:induction false} PendingIsWire(arena: seq<byte>, nodes: seq<BufferNode>)
    requires Inside(nodes, |arena|)
    ensures |Wire(arena, nodes)| == Pending(nodes)
    decreases |nodes|
  {
    if nodes != [] {
      assert nodes[0] in nodes;
      PendingIsWire(arena, nodes[1..]);
    }
  }

  // ---- One message and a batch of them in the arena ----

  /** A message chunked from arena position `at` on: all of its chunks, or a prefix once the arena is full. */
  function MessageChunks(o: OutChan, g: Outgoing, at: nat): seq<byte> {
    var head := FirstHeader(o, g.msg, g.fmt0);
    head + CutBody(OUT_CHUNK, NextHeader(g.msg.csid, Stamp(o, g.msg, g.fmt0)), g.msg.data, at + |head|)
  }

  /** Where the arena is filled up to then. */
  function MessageEnd(o: OutChan, g: Outgoing, at: nat): nat {
    CutEnd(OUT_CHUNK, |NextHeader(g.msg.csid, Stamp(o, g.msg, g.fmt0))|, |g.msg.data|,
           at + |FirstHeader(o, g.msg, g.fmt0)|)
  }

  /** The last continuation header starts inside the arena, if there is one. */
  predicate Complete(o: OutChan, g: Outgoing, at: nat) {
    var n := Continuations(OUT_CHUNK, |g.msg.data|);
    n == 0 || LastStart(o, g, at) < ARENA_SIZE
  }

  function LastStart(o: OutChan, g: Outgoing, at: nat): int {
    at + HeaderBytes(o, g, OUT_CHUNK) - |NextHeader(g.msg.csid, Stamp(o, g.msg, g.fmt0))|
  }

  lemma MessageFacts(o: OutChan, g: Outgoing, at: nat)
    ensures var c, e := MessageChunks(o, g, at), OneMessage(o, g);
            if Complete(o, g, at) then c == e && MessageEnd(o, g, at) == at + HeaderBytes(o, g, OUT_CHUNK)
            else |c| < |e|
    ensures MessageEnd(o, g, at) >= at && HeaderBytes(o, g, OUT_CHUNK) >= 0
  {
    hide FirstHeader, NextHeader, Stamp, CutBody, CutEnd, Continuations, Body;
    var next := NextHeader(g.msg.csid, Stamp(o, g.msg, g.fmt0));
    var start := at + |FirstHeader(o, g.msg, g.fmt0)|;
    var n := Continuations(OUT_CHUNK, |g.msg.data|);
    assert next != [];
    CutBodyWhole(OUT_CHUNK, next, g.msg.data, start);
    EndGrows(OUT_CHUNK, |next|, |g.msg.data|, start);
    Grow(start, n, |next|);
    assert n > 0 ==> n * |next| == (n - 1) * |next| + |next|;
    if Complete(o, g, at) {
      CutEndWhole(OUT_CHUNK, |next|, |g.msg.data|, start);
    } else {
      SamePrefixLength(CutBody(OUT_CHUNK, next, g.msg.data, start), Body(OUT_CHUNK, next, g.msg.data));
    }
  }

  lemma SamePrefixLength(a: seq<byte>, b: seq<byte>)
    requires a <= b && a != b
    ensures |a| < |b|
  {
  }

  /** Every chunk of one message, from what the writer remembers about its stream. */
  function OneMessage(o: OutChan, g: Outgoing): seq<byte> {
    FirstHeader(o, g.msg, g.fmt0) +
    Body(OUT_CHUNK, NextHeader(g.msg.csid, Stamp(o, g.msg, g.fmt0)), g.msg.data)
  }

  lemma {:induction false} CutEndWhole(size: nat, k: nat, len: nat, at: nat)
    requires size >= 1
    requires Continuations(size, len) == 0 || at + (Continuations(size, len) - 1) * k < ARENA_SIZE
    ensures CutEnd(size, k, len, at) == at + Continuations(size, len) * k
    decreases len
  {
    if len > size {
      var rest := Continuations(size, len - size);
      Grow(at, rest, k);
      assert (1 + rest) * k == k + rest * k;
      CutEndWhole(size, k, len - size, at + k);
    }
  }

  /** Messages chunked one after the other from arena position `at` on. */
  function BatchChunks(w: Writer, gs: seq<Outgoing>, at: nat): seq<byte>
    decreases |gs|
  {
    if gs == [] then []
    else
      var o := OutOf(w, gs[0].msg.csid);
      MessageChunks(o, gs[0], at) + BatchChunks(WriterAfter(w, gs[0]), gs[1..], MessageEnd(o, gs[0], at))
  }

  function BatchEnd(w: Writer, gs: seq<Outgoing>, at: nat): nat
    decreases |gs|
  {
    if gs == [] then at
    else BatchEnd(WriterAfter(w, gs[0]), gs[1..], MessageEnd(OutOf(w, gs[0].msg.csid), gs[0], at))
  }

  /** Header bytes of a whole batch, each message after those before it. */
  function BatchHeaderBytes(w: Writer, gs: seq<Outgoing>): int
    decreases |gs|
  {
    if gs == [] then 0
    else HeaderBytes(OutOf(w, gs[0].msg.csid), gs[0], OUT_CHUNK) + BatchHeaderBytes(WriterAfter(w, gs[0]), gs[1..])
  }

  /** Where the last continuation header of the batch belongs, or -1 if there is none. */
  function LastHeader(w: Writer, gs: seq<Outgoing>, at: nat): int
    decreases |gs|
  {
    if gs == [] then -1
    else
      var o := OutOf(w, gs[0].msg.csid);
      var later := LastHeader(WriterAfter(w, gs[0]), gs[1..], at + HeaderBytes(o, gs[0], OUT_CHUNK));
      if later >= 0 then later
      else if Continuations(OUT_CHUNK, |gs[0].msg.data|) == 0 then -1
      else LastStart(o, gs[0], at)
  }

  lemma {:induction false} LastHeaderBounds(w: Writer, gs: seq<Outgoing>, at: nat)
    ensures LastHeader(w, gs, at) == -1 || at <= LastHeader(w, gs, at) < at + BatchHeaderBytes(w, gs)
    ensures BatchHeaderBytes(w, gs) >= 0
    decreases |gs|
  {
    hide WriterAfter, OutOf, FirstHeader, NextHeader, Stamp, Complete;
    if gs != [] {
      var o := OutOf(w, gs[0].msg.csid);
      MessageFacts(o, gs[0], at);
      StartBounds(o, gs[0], at);
      LastHeaderBounds(WriterAfter(w, gs[0]), gs[1..], at + HeaderBytes(o, gs[0], OUT_CHUNK));
    }
  }

  lemma StartBounds(o: OutChan, g: Outgoing, at: nat)
    ensures LastStart(o, g, at) < at + HeaderBytes(o, g, OUT_CHUNK)
    ensures Continuations(OUT_CHUNK, |g.msg.data|) > 0 ==> at <= LastStart(o, g, at)
  {
    hide FirstHeader, Stamp, Continuations;
    var k, n := |NextHeader(g.msg.csid, Stamp(o, g.msg, g.fmt0))|, Continuations(OUT_CHUNK, |g.msg.data|);
    assert n > 0 ==> n * k == (n - 1) * k + k && (n - 1) * k >= 0;
  }

  /** One message off the front of a batch. */
  lemma BatchStep(w: Writer, gs: seq<Outgoing>, at: nat)
    requires gs != []
    ensures var o := OutOf(w, gs[0].msg.csid); var end := MessageEnd(o, gs[0], at);
            BatchChunks(w, gs, at) == MessageChunks(o, gs[0], at) + BatchChunks(WriterAfter(w, gs[0]), gs[1..], end) &&
            BatchEnd(w, gs, at) == BatchEnd(WriterAfter(w, gs[0]), gs[1..], end) >= end &&
            (LastHeader(w, gs, at) < ARENA_SIZE <==>
             Complete(o, gs[0], at) && LastHeader(WriterAfter(w, gs[0]), gs[1..], end) < ARENA_SIZE)
  {
    hide WriterAfter, OutOf, HeaderBytes, MessageChunks, MessageEnd, LastStart, Continuations, LastHeader;
    var o := OutOf(w, gs[0].msg.csid);
    MessageFacts(o, gs[0], at);
    StartBounds(o, gs[0], at);
    BatchGrows(WriterAfter(w, gs[0]), gs[1..], MessageEnd(o, gs[0], at));
    LastHeaderBounds(WriterAfter(w, gs[0]), gs[1..], at + HeaderBytes(o, gs[0], OUT_CHUNK));
    LastHeaderIs(w, gs, at);
  }

  lemma LastHeaderIs(w: Writer, gs: seq<Outgoing>, at: nat)
    requires gs != []
    ensures var o := OutOf(w, gs[0].msg.csid);
            var later := LastHeader(WriterAfter(w, gs[0]), gs[1..], at + HeaderBytes(o, gs[0], OUT_CHUNK));
            LastHeader(w, gs, at) ==
            if later >= 0 then later
            else if Continuations(OUT_CHUNK, |gs[0].msg.data|) == 0 then -1
            else LastStart(o, gs[0], at)
  {
    hide WriterAfter, OutOf, HeaderBytes, LastStart, Continuations;
  }

  lemma {:induction false} BatchGrows(w: Writer, gs: seq<Outgoing>, at: nat)
    ensures BatchEnd(w, gs, at) >= at
    decreases |gs|
  {
    hide WriterAfter, OutOf, MessageEnd, HeaderBytes;
    if gs != [] {
      var o := OutOf(w, gs[0].msg.csid);
      MessageFacts(o, gs[0], at);
      BatchGrows(WriterAfter(w, gs[0]), gs[1..], MessageEnd(o, gs[0], at));
    }
  }

  /**
   * All chunks of all messages of a batch are emitted if and only if the last continuation header belongs inside the
   * arena; otherwise bytes are missing.
   */
  lemma {:induction false} BatchWhole(w: Writer, gs: seq<Outgoing>, at: nat)
    ensures BatchChunks(w, gs, at) == EncodeAll(w, 4096, gs) <==> LastHeader(w, gs, at) < 4096
    ensures |BatchChunks(w, gs, at)| <= |EncodeAll(w, OUT_CHUNK, gs)|
    decreases |gs|
  {
    hide WriterAfter, OutOf, MessageChunks, MessageEnd, HeaderBytes, LastHeader, Complete;
    if gs == [] {
      EmptyBatch(w, at);
    } else {
      var o := OutOf(w, gs[0].msg.csid);
      BatchStep(w, gs, at);
      MessageFacts(o, gs[0], at);
      BatchWhole(WriterAfter(w, gs[0]), gs[1..], MessageEnd(o, gs[0], at));
      EncodeIs(w, gs[0]);
      SamePieces(MessageChunks(o, gs[0], at), OneMessage(o, gs[0]),
                 BatchChunks(WriterAfter(w, gs[0]), gs[1..], MessageEnd(o, gs[0], at)),
                 EncodeAll(WriterAfter(w, gs[0]), OUT_CHUNK, gs[1..]));
    }
  }

  lemma EmptyBatch(w: Writer, at: nat)
    ensures LastHeader(w, [], at) == -1
  {
  }

  lemma EncodeIs(w: Writer, g: Outgoing)
    ensures Encode(w, OUT_CHUNK, g) == OneMessage(OutOf(w, g.msg.csid), g)
  {
  }

  lemma SamePieces(a: seq<byte>, b: seq<byte>, c: seq<byte>, d: seq<byte>)
    requires (a == b || |a| < |b|) && |c| <= |d|
    ensures a + c == b + d <==> a == b && c == d
    ensures |a + c| <= |b + d|
  {
    if a + c == b + d {
      assert |a| == |b|;
      SamePrefix(a, c, d);
    }
  }

  /** A batch whose headers fit the arena together is emitted completely. */
  lemma {:induction false} BatchFits(w: Writer, gs: seq<Outgoing>, at: nat)
    requires at + BatchHeaderBytes(w, gs) <= ARENA_SIZE
    ensures BatchEnd(w, gs, at) <= ARENA_SIZE && LastHeader(w, gs, at) < ARENA_SIZE
    decreases |gs|
  {
    hide WriterAfter, OutOf, MessageEnd, HeaderBytes, LastHeader;
    LastHeaderBounds(w, gs, at);
    if gs != [] {
      var o := OutOf(w, gs[0].msg.csid);
      MessageFacts(o, gs[0], at);
      StartBounds(o, gs[0], at);
      LastHeaderBounds(WriterAfter(w, gs[0]), gs[1..], at + HeaderBytes(o, gs[0], OUT_CHUNK));
      BatchFits(WriterAfter(w, gs[0]), gs[1..], at + HeaderBytes(o, gs[0], OUT_CHUNK));
    }
  }

  /** Messages that need at most a tenth of the arena each. */
  ghost predicate Compact(gs: seq<Outgoing>) {
    forall g :: g in gs ==> MaxHeaderBytes(g) <= HEADER_SHARE
  }

  /** Ten of these fit in the header arena whatever their order and whatever was sent before. */
  lemma CompactFits(w: Writer, gs: seq<Outgoing>)
    requires Compact(gs) && |gs| <= BATCH
    ensures BatchEnd(w, gs, 0) <= ARENA_SIZE && LastHeader(w, gs, 0) < ARENA_SIZE
  {
    CompactBytes(w, gs);
    BatchFits(w, gs, 0);
  }

  lemma {:induction false} CompactBytes(w: Writer, gs: seq<Outgoing>)
    requires Compact(gs)
    ensures BatchHeaderBytes(w, gs) <= |gs| * HEADER_SHARE
    decreases |gs|
  {
    hide HeaderBytes, MaxHeaderBytes, WriterAfter;
    if gs != [] {
      assert gs[0] in gs;
      HeaderBound(OutOf(w, gs[0].msg.csid), gs[0]);
      CompactBytes(WriterAfter(w, gs[0]), gs[1..]);
    }
  }

  /** The messages the next batch takes off the queue. */
  function FirstTen(gs: seq<Outgoing>): (r: seq<Outgoing>)
    ensures |r| == (if |gs| < 10 then |gs| else 10) && r <= gs
  {
    if |gs| < BATCH then gs else gs[..BATCH]
  }

  /** The bytes chunked so far are all chunks of the messages, unless one of them has been cut short. */
  ghost predicate Accounted(chunked: seq<byte>, cut: bool, gs: seq<Outgoing>) {
    if cut then |chunked| < |EncodeAll(map[], OUT_CHUNK, gs)| else chunked == EncodeAll(map[], OUT_CHUNK, gs)
  }

  lemma OneMoreAccounted(gs: seq<Outgoing>, k: nat, chunked: seq<byte>, cut: bool, at: nat)
    requires k < |gs| && Accounted(chunked, cut, gs[..k])
    ensures var o := OutOf(WriterAfterAll(map[], gs[..k]), gs[k].msg.csid);
            Accounted(chunked + MessageChunks(o, gs[k], at), cut || !Complete(o, gs[k], at), gs[..k + 1])
    ensures WriterAfterAll(map[], gs[..k + 1]) == WriterAfter(WriterAfterAll(map[], gs[..k]), gs[k])
  {
    hide Encode, WriterAfter, OutOf, MessageChunks, Complete, HeaderBytes, OneMessage, MessageEnd;
    var w := WriterAfterAll(map[], gs[..k]);
    EncodeOneMore(map[], OUT_CHUNK, gs, k);
    EncodeIs(w, gs[k]);
    MessageFacts(OutOf(w, gs[k].msg.csid), gs[k], at);
  }

  /** What is left of a gather list when writev has answered `n`. */
  function LeftAfter(ioVecs: seq<BufferNode>, n: nat): seq<BufferNode> {
    Consume(ioVecs, if n <= Pending(ioVecs) then n else Pending(ioVecs))
  }

  /**
   * The first answer of writev, after what was accepted before, that is not an acceptance, unless the list is used up
   * first.
   */
  function Refusal(ioVecs: seq<BufferNode>, results: seq<WriteResult>): Option<WriteResult>
    decreases |results|
  {
    if results == [] || ioVecs == [] then None
    else
      match results[0]
      case Accepts(n) => Refusal(LeftAfter(ioVecs, n), results[1..])
      case WouldBlock => Some(WouldBlock)
      case Fails => Some(Fails)
  }

  class RtmpOutput {
    const outBuffer: array<byte>
    var outCurrent: nat
    var outDeltas: map<nat, nat>
    var outMessageHeaders: map<nat, Header>
    const outChunkSize: nat := OUT_CHUNK
    var sendingBufs: seq<BufferNode>
    var outWaiting: seq<Outgoing>
    var sending: bool
    var ioVecs: seq<BufferNode>
    var closed: bool
    /** Every message submitted so far, and how many of them have been chunked. */
    ghost var sent: seq<Outgoing>
    ghost var built: nat
    /** The bytes put into gather lists for them, and whether a message was cut short there. */
    ghost var chunked: seq<byte>
    ghost var cut: bool
    /** Bytes the kernel has accepted, and bytes that were chunked after the connection had closed. */
    ghost var accepted: seq<byte>
    ghost var lost: seq<byte>

    function Delta(csid: nat): nat
      reads this`outDeltas
    {
      if csid in outDeltas then outDeltas[csid] else 0
    }

    /** The two maps seen as one writer state. */
    ghost function State(): Writer
      reads this`outDeltas, this`outMessageHeaders
    {
      map csid | csid in outMessageHeaders :: OutChan(Some(outMessageHeaders[csid]), Delta(csid))
    }

    ghost predicate Core()
      reads this
    {
      outBuffer.Length == ARENA_SIZE && outCurrent <= ARENA_SIZE && outDeltas.Keys <= outMessageHeaders.Keys &&
      Inside(sendingBufs, outCurrent)
    }

    /** The arena is `was` with `done` written from `outCurrent` up to `p`. */
    ghost predicate Written(was: seq<byte>, done: seq<byte>, p: nat)
      reads this, outBuffer
    {
      outBuffer.Length == ARENA_SIZE == |was| && p == outCurrent + |done| <= ARENA_SIZE &&
      outBuffer[..] == Overlay(was, outCurrent, done)
    }

    method Put(ghost was: seq<byte>, ghost done: seq<byte>, p: nat, bytes: seq<byte>) returns (q: nat)
      requires Written(was, done, p) && p + |bytes| <= ARENA_SIZE
      modifies outBuffer
      ensures Written(was, done + bytes, q) && q == p + |bytes|
    {
      OverlayAppend(was, outCurrent, done, bytes);
      MemCopy(outBuffer, p, bytes);
      q := p + |bytes|;
    }

    /** The fields of the message header, as many as `fmt` keeps. */
    method PutMessageHeader(ghost was: seq<byte>, ghost done: seq<byte>, p: nat, fmt: nat, stamp: nat,
                            m: Message) returns (q: nat)
      requires Written(was, done, p) && fmt < 4 && p + |MessageHeader(fmt, stamp, m)| <= ARENA_SIZE
      modifies outBuffer
      ensures Written(was, done + MessageHeader(fmt, stamp, m), q)
    {
      hide Written, PutU24, PutHost32;
      var ts := if stamp >= TS_EXTENDED then TS_EXTENDED else stamp;
      var a, b := PutU24(ts), PutU24(|m.data|);
      var c: seq<byte> := [m.typ % 256];
      if fmt == 0 {
        q := Put(was, done, p, a);
        q := Put(was, done + a, q, b);
        q := Put(was, done + a + b, q, c);
        q := Put(was, done + a + b + c, q, PutHost32(m.sid));
        assert done + a + b + c + PutHost32(m.sid) == done + MessageHeader(fmt, stamp, m);
      } else if fmt == 1 {
        q := Put(was, done, p, a);
        q := Put(was, done + a, q, b);
        q := Put(was, done + a + b, q, c);
        assert done + a + b + c == done + MessageHeader(fmt, stamp, m);
      } else if fmt == 2 {
        q := Put(was, done, p, a);
      } else {
        q := p;
        assert done + [] == done;
      }
    }

    /** Lines 541 to 595: basic header, message header and extended timestamp of the first chunk. */
    method PutFirstHeader(fmt: nat, stamp: nat, m: Message) returns (p: nat)
      requires outBuffer.Length == ARENA_SIZE && fmt < 4
      requires outCurrent + |Basic(fmt, m.csid) + MessageHeader(fmt, stamp, m) + Ext(stamp)| <= ARENA_SIZE
      modifies outBuffer
      ensures Written(old(outBuffer[..]), Basic(fmt, m.csid) + MessageHeader(fmt, stamp, m) + Ext(stamp), p)
    {
      ghost var was := outBuffer[..];
      assert Written(was, [], outCurrent);
      hide Basic, MessageHeader;
      p := Put(was, [], outCurrent, Basic(fmt, m.csid));
      assert [] + Basic(fmt, m.csid) == Basic(fmt, m.csid);
      ghost var done := Basic(fmt, m.csid);
      p := PutMessageHeader(was, done, p, fmt, stamp, m);
      done := done + MessageHeader(fmt, stamp, m);
      if stamp >= TS_EXTENDED {
        p := Put(was, done, p, PutHost32(stamp));
      } else {
        assert done + [] == done;
      }
    }

    /** Header compression and the update of what is remembered about the stream. */
    method ChooseHeader(g: Outgoing) returns (fmt: nat, stamp: nat)
      requires outDeltas.Keys <= outMessageHeaders.Keys
      modifies this`outDeltas, this`outMessageHeaders
      ensures outDeltas.Keys <= outMessageHeaders.Keys
      ensures var o := old(OutOf(State(), g.msg.csid));
              fmt == Fmt(o, g.msg, g.fmt0) && stamp == Stamp(o, g.msg, g.fmt0)
      ensures State() == old(WriterAfter(State(), g))
    {
      ghost var was := State();
      ghost var o := OutOf(was, g.msg.csid);
      var h := g.msg;
      var csid := h.csid;
      fmt, stamp := 0, h.ts;
      var prev := if csid in outMessageHeaders then outMessageHeaders[csid] else ZERO_HEADER;
      if !g.fmt0 && csid in outMessageHeaders && h.ts >= prev.ts && h.sid == prev.sid {
        fmt := 1;
        stamp := h.ts - prev.ts;
        if h.typ == prev.typ && |h.data| == prev.len {
          fmt := 2;
          if stamp == Delta(csid) {
            fmt := 3;
          }
        }
      }
      if fmt == 0 {
        outDeltas := outDeltas[csid := 0];
      } else if fmt <= 2 {
        outDeltas := outDeltas[csid := stamp];
      }
      var ts := if fmt == 0 then stamp else prev.ts + stamp;
      outMessageHeaders := outMessageHeaders[csid := Header(ts, |h.data|, h.typ, h.sid)];
      assert OutChan(Some(outMessageHeaders[csid]), Delta(csid)) == OutAfter(o, h, g.fmt0);
      assert State() == was[csid := OutAfter(o, h, g.fmt0)];
    }

    /** The nodes added since `before` stand for `bytes`; arena contents and nodes from before are untouched. */
    ghost predicate Emitted(before: seq<BufferNode>, start: nat, was: seq<byte>, bytes: seq<byte>)
      reads this, outBuffer
    {
      Core() && |was| == ARENA_SIZE && start <= outCurrent && outBuffer[..][..start] == was[..start] &&
      before <= sendingBufs && Inside(sendingBufs[|before|..], outCurrent) &&
      Wire(outBuffer[..], sendingBufs[|before|..]) == bytes
    }

    lemma EmittedMore(before: seq<BufferNode>, start: nat, was: seq<byte>, arena: seq<byte>, cur: nat,
                      mid: seq<BufferNode>, bytes: seq<byte>, n: BufferNode)
      requires Core() && |was| == |arena| == ARENA_SIZE && start <= cur <= outCurrent && arena[..start] == was[..start]
      requires before <= mid && Inside(mid, cur) && Wire(arena, mid[|before|..]) == bytes
      requires outBuffer[..][..cur] == arena[..cur] && sendingBufs == mid + [n] &&
               (n.Arena? ==> n.off + n.len <= outCurrent)
      ensures Emitted(before, start, was, bytes + Deref(outBuffer[..], n))
    {
      var now := outBuffer[..];
      var old' := mid[|before|..];
      assert now[..start] == now[..cur][..start] == arena[..start];
      assert sendingBufs[|before|..] == old' + [n];
      WireFrame(arena, now, old', cur);
      WireAppend(now, old', [n]);
      assert [n][1..] == [];
      assert Wire(now, [n]) == Deref(now, n);
    }

    /** A header of the continuation chunks goes to the arena and into the list. */
    method PutNextHeader(csid: nat, stamp: nat, ghost before: seq<BufferNode>, ghost start: nat, ghost was: seq<byte>,
                         ghost bytes: seq<byte>)
      requires Emitted(before, start, was, bytes) && outCurrent + |NextHeader(csid, stamp)| <= ARENA_SIZE
      modifies this`outCurrent, this`sendingBufs, outBuffer
      ensures Emitted(before, start, was, bytes + NextHeader(csid, stamp))
      ensures outCurrent == old(outCurrent) + |NextHeader(csid, stamp)| && |sendingBufs| == old(|sendingBufs|) + 1
    {
      ghost var arena := outBuffer[..];
      ghost var cur := outCurrent;
      ghost var mid := sendingBufs;
      var header := Basic(3, csid) + Ext(stamp);
      MemCopy(outBuffer, outCurrent, header);
      sendingBufs := sendingBufs + [Arena(outCurrent, |header|)];
      outCurrent := outCurrent + |header|;
      assert outBuffer[..][cur..outCurrent] == header;
      EmittedMore(before, start, was, arena, cur, mid, bytes, Arena(cur, |header|));
    }

    method PutPayload(piece: seq<byte>, ghost before: seq<BufferNode>, ghost start: nat, ghost was: seq<byte>,
                      ghost bytes: seq<byte>)
      requires Emitted(before, start, was, bytes)
      modifies this`sendingBufs
      ensures Emitted(before, start, was, bytes + piece)
      ensures LastFull(sendingBufs) <==> piece != []
      ensures |sendingBufs| == old(|sendingBufs|) + 1
    {
      ghost var mid := sendingBufs;
      sendingBufs := sendingBufs + [Payload(piece)];
      EmittedMore(before, start, was, outBuffer[..], outCurrent, mid, bytes, Payload(piece));
    }

    /** Lines 613 to 660: the body in pieces, a header before each but the first, stopping when the arena is full. */
    method SplitBody(csid: nat, stamp: nat, data: seq<byte>, ghost before: seq<BufferNode>, ghost start: nat,
                     ghost was: seq<byte>, ghost bytes: seq<byte>)
      requires Emitted(before, start, was, bytes)
      requires ArenaSafe(outCurrent, |NextHeader(csid, stamp)|, Continuations(outChunkSize, |data|))
      modifies this`outCurrent, this`sendingBufs, outBuffer
      ensures Emitted(before, start, was, bytes + CutBody(outChunkSize, NextHeader(csid, stamp), data, old(outCurrent)))
      ensures outCurrent == CutEnd(outChunkSize, |NextHeader(csid, stamp)|, |data|, old(outCurrent))
      ensures LastFull(sendingBufs) <==> data != []
      ensures |sendingBufs| > old(|sendingBufs|)
    {
      hide Emitted, NextHeader, CutBody, CutEnd, ArenaSafe, Continuations, LastFull;
      ghost var next := NextHeader(csid, stamp);
      ghost var at := outCurrent;
      ghost var out := bytes;
      var parsed := 0;
      var more := true;
      assert data[0..] == data;
      while more
        invariant parsed <= |data| && (data != [] && more ==> parsed < |data|)
        invariant Emitted(before, start, was, out)
        invariant more ==>
                  out + CutBody(outChunkSize, next, data[parsed..], outCurrent) ==
                  bytes + CutBody(outChunkSize, next, data, at) &&
                  CutEnd(outChunkSize, |next|, |data| - parsed, outCurrent) ==
                  CutEnd(outChunkSize, |next|, |data|, at) &&
                  ArenaSafe(outCurrent, |next|, Continuations(outChunkSize, |data| - parsed))
        invariant !more ==>
                  out == bytes + CutBody(outChunkSize, next, data, at) &&
                  outCurrent == CutEnd(outChunkSize, |next|, |data|, at)
        invariant !more ==> (LastFull(sendingBufs) <==> data != [])
        invariant |sendingBufs| >= old(|sendingBufs|) && (!more ==> |sendingBufs| > old(|sendingBufs|))
        decreases |data| - parsed, more
      {
        var size := |data| - parsed;
        if size > outChunkSize {
          size := outChunkSize;
        }
        ghost var left := data[parsed..];
        PieceEmitted(outChunkSize, next, left, outCurrent, size, out);
        assert data[parsed..parsed + size] == left[..size];
        PutPayload(data[parsed..parsed + size], before, start, was, out);
        out := out + left[..size];
        parsed := parsed + size;
        if parsed < |data| {
          if outCurrent >= ARENA_SIZE {
            more := false;
          } else {
            PutNextHeader(csid, stamp, before, start, was, out);
            out := out + next;
            assert left[size..] == data[parsed..];
          }
        } else {
          more := false;
        }
      }
    }

    /** Nothing is written past the end of the arena while the message is chunked: the end of its headers is inside. */
    ghost predicate Room(g: Outgoing)
      reads this
    {
      MessageEnd(OutOf(State(), g.msg.csid), g, outCurrent) <= ARENA_SIZE
    }

    /** That is when its first header fits and its other headers pass the check. */
    lemma RoomExact(g: Outgoing)
      ensures var o := OutOf(State(), g.msg.csid);
              var head := outCurrent + |FirstHeader(o, g.msg, g.fmt0)|;
              Room(g) <==>
              head <= 4096 &&
              HeadersFit(head, |NextHeader(g.msg.csid, Stamp(o, g.msg, g.fmt0))|,
                         Continuations(OUT_CHUNK, |g.msg.data|))
    {
      hide State, FirstHeader, Stamp, CutEnd, HeadersFit, Continuations;
      var o := OutOf(State(), g.msg.csid);
      var head := outCurrent + |FirstHeader(o, g.msg, g.fmt0)|;
      var k := |NextHeader(g.msg.csid, Stamp(o, g.msg, g.fmt0))|;
      EndGrows(OUT_CHUNK, k, |g.msg.data|, head);
      if head <= ARENA_SIZE {
        HeadersInside(OUT_CHUNK, k, |g.msg.data|, head);
      }
    }

    /** The header of the first chunk goes to the arena and into the list. */
    method StartMessage(g: Outgoing) returns (stamp: nat)
      requires Core() && outCurrent + |FirstHeader(OutOf(State(), g.msg.csid), g.msg, g.fmt0)| <= ARENA_SIZE
      modifies this`outCurrent, this`outDeltas, this`outMessageHeaders, this`sendingBufs, outBuffer
      ensures var o := old(OutOf(State(), g.msg.csid)); var head := FirstHeader(o, g.msg, g.fmt0);
              stamp == Stamp(o, g.msg, g.fmt0) && outCurrent == old(outCurrent) + |head| &&
              Emitted(old(sendingBufs), old(outCurrent), old(outBuffer[..]), head)
      ensures State() == old(WriterAfter(State(), g)) && |sendingBufs| == old(|sendingBufs|) + 1
    {
      hide State, WriterAfter, Wire, OutOf, Basic, MessageHeader, Ext, Fmt, Stamp;
      ghost var before := sendingBufs;
      ghost var was := outBuffer[..];
      ghost var start := outCurrent;
      ghost var head := FirstHeader(OutOf(State(), g.msg.csid), g.msg, g.fmt0);
      var fmt: nat;
      fmt, stamp := ChooseHeader(g);
      assert Basic(fmt, g.msg.csid) + MessageHeader(fmt, stamp, g.msg) + Ext(stamp) == head;
      var p := PutFirstHeader(fmt, stamp, g.msg);
      sendingBufs := sendingBufs + [Arena(outCurrent, p - outCurrent)];
      outCurrent := p;
      assert outBuffer[..][start..p] == head && outBuffer[..][..start] == was[..start];
      assert before[|before|..] == [];
      NoNodes(was);
      EmittedMore(before, start, was, was, start, before, [], Arena(start, p - start));
      assert [] + head == head;
    }

    method BuildChunk(g: Outgoing)
      requires Core() && Room(g)
      modifies this`outCurrent, this`outDeltas, this`outMessageHeaders, this`sendingBufs, outBuffer
      ensures var o := old(OutOf(State(), g.msg.csid));
              Emitted(old(sendingBufs), old(outCurrent), old(outBuffer[..]), MessageChunks(o, g, old(outCurrent))) &&
              outCurrent == MessageEnd(o, g, old(outCurrent))
      ensures State() == old(WriterAfter(State(), g)) && |sendingBufs| > old(|sendingBufs|)
      ensures LastFull(sendingBufs) <==> g.msg.data != []
    {
      hide State, WriterAfter, FirstHeader, Stamp, NextHeader, Emitted, OutOf, Room;
      ghost var before := sendingBufs;
      ghost var was := outBuffer[..];
      ghost var start := outCurrent;
      ghost var head := FirstHeader(OutOf(State(), g.msg.csid), g.msg, g.fmt0);
      RoomExact(g);
      var stamp := StartMessage(g);
      HeadersFitExact(outCurrent, |NextHeader(g.msg.csid, stamp)|, Continuations(outChunkSize, |g.msg.data|));
      SplitBody(g.msg.csid, stamp, g.msg.data, before, start, was, head);
    }

    constructor ()
      ensures Valid() && fresh(outBuffer) && outBuffer.Length == 4096 && outChunkSize == 4096
      ensures sent == [] && accepted == [] && !closed && !sending && !cut
    {
      outBuffer := new byte[ARENA_SIZE];
      outCurrent, outDeltas, outMessageHeaders := 0, map[], map[];
      sendingBufs, outWaiting, sending, ioVecs, closed := [], [], false, [], false;
      sent, built, chunked, cut, accepted, lost := [], 0, [], false, [], [];
    }

    /**
     * What holds at every moment: the messages not yet chunked wait in order (`taken` of them already taken off the
     * queue), the rest is in the writer state.
     */
    ghost predicate Consistent(taken: nat)
      reads this
    {
      Core() && built + taken <= |sent| && outWaiting == sent[built + taken..] && EndsAsBuilt(sendingBufs) &&
      State() == WriterAfterAll(map[], sent[..built]) && Accounted(chunked, cut, sent[..built]) &&
      (!closed ==> lost == [])
    }

    /** The list ends in an empty node exactly if the message chunked last is empty. */
    ghost predicate EndsAsBuilt(nodes: seq<BufferNode>)
      reads this
    {
      nodes != [] ==> 0 < built <= |sent| && (LastFull(nodes) <==> sent[built - 1].msg.data != [])
    }

    /** A batch is being chunked: nothing is on its way, the gather list follows what was accepted. */
    ghost predicate Building(taken: nat)
      reads this, outBuffer
    {
      Consistent(taken) && ioVecs == [] &&
      accepted + lost + Wire(outBuffer[..], sendingBufs) == chunked
    }

    /**
     * Between calls: accepted bytes, bytes on their way and bytes lost to a closed connection are exactly the bytes
     * chunked so far, in order; an idle context has nothing waiting, and a busy one has something to write.
     */
    ghost predicate Valid()
      reads this, outBuffer
    {
      Consistent(0) && EndsAsBuilt(ioVecs) && Inside(ioVecs, outCurrent) &&
      accepted + Wire(outBuffer[..], ioVecs) + lost == chunked &&
      (!sending ==> outWaiting == [] && ioVecs == [] && sendingBufs == [] && outCurrent == 0) &&
      (sending && !closed ==> ioVecs != []) &&
      (lost != [] ==> ioVecs == [])
    }

    /** The nodes of the message just chunked follow those from before on the wire. */
    lemma WireGrows(before: seq<BufferNode>, start: nat, was: seq<byte>, bytes: seq<byte>)
      requires Emitted(before, start, was, bytes) && Inside(before, start)
      ensures Wire(outBuffer[..], sendingBufs) == Wire(was, before) + bytes
    {
      var now := outBuffer[..];
      var added := sendingBufs[|before|..];
      assert sendingBufs == before + added;
      WireFrame(was, now, before, start);
      WireAppend(now, before, added);
    }

    /** Chunking a message adds its chunks, and only those, to the gather list. */
    method BuildOnWire(g: Outgoing)
      requires Core() && Room(g)
      modifies this`outCurrent, this`outDeltas, this`outMessageHeaders, this`sendingBufs, outBuffer
      ensures Core() && sendingBufs != [] && (LastFull(sendingBufs) <==> g.msg.data != [])
      ensures State() == old(WriterAfter(State(), g))
      ensures var o := old(OutOf(State(), g.msg.csid));
              outCurrent == MessageEnd(o, g, old(outCurrent)) &&
              Wire(outBuffer[..], sendingBufs) ==
              old(Wire(outBuffer[..], sendingBufs)) + MessageChunks(o, g, old(outCurrent))
    {
      hide State, WriterAfter, Wire, Room, MessageChunks, MessageEnd, Emitted, OutOf;
      ghost var before := sendingBufs;
      ghost var was := outBuffer[..];
      ghost var start := outCurrent;
      ghost var bytes := MessageChunks(OutOf(State(), g.msg.csid), g, outCurrent);
      BuildChunk(g);
      WireGrows(before, start, was, bytes);
      EmittedCore(before, start, was, bytes);
    }

    /** Chunking the message just taken keeps the batch consistent. */
    method BuildNext(g: Outgoing)
      requires Building(1) && g == sent[built] && Room(g)
      modifies this`outCurrent, this`outDeltas, this`outMessageHeaders, this`sendingBufs, this`built, this`chunked,
               this`cut, outBuffer
      ensures Building(0) && built == old(built) + 1 && sendingBufs != [] && State() == old(WriterAfter(State(), g))
      ensures var o, at := old(OutOf(State(), g.msg.csid)), old(outCurrent);
              outCurrent == MessageEnd(o, g, at) && chunked == old(chunked) + MessageChunks(o, g, at) &&
              cut == (old(cut) || !Complete(o, g, at))
    {
      hide State, WriterAfter, Wire, EncodeAll, WriterAfterAll, OutOf, MessageChunks, MessageEnd, Complete, Room,
           Accounted;
      ghost var wire := Wire(outBuffer[..], sendingBufs);
      ghost var o, at := OutOf(State(), g.msg.csid), outCurrent;
      BuildOnWire(g);
      OneMoreAccounted(sent, built, chunked, cut, at);
      built := built + 1;
      chunked := chunked + MessageChunks(o, g, at);
      cut := cut || !Complete(o, g, at);
      Assoc(accepted + lost, wire, MessageChunks(o, g, at));
    }

    lemma EmittedCore(before: seq<BufferNode>, start: nat, was: seq<byte>, bytes: seq<byte>)
      requires Emitted(before, start, was, bytes)
      ensures Core() && before <= sendingBufs
    {
    }

    /** The bytes and the end of a batch and whether it is whole, as chunking it message by message finds them. */
    ghost predicate Ahead(gs: seq<Outgoing>, bytes: seq<byte>, end: nat, short: bool)
      reads this
    {
      chunked + BatchChunks(State(), gs, outCurrent) == bytes && BatchEnd(State(), gs, outCurrent) == end &&
      (short <==> cut || LastHeader(State(), gs, outCurrent) >= ARENA_SIZE)
    }

    /** One message of a batch. */
    method BuildAhead(ghost gs: seq<Outgoing>, g: Outgoing, ghost bytes: seq<byte>, ghost end: nat, ghost short: bool)
      requires Building(1) && gs != [] && g == gs[0] == sent[built]
      requires end <= ARENA_SIZE && Ahead(gs, bytes, end, short)
      modifies this`outCurrent, this`outDeltas, this`outMessageHeaders, this`sendingBufs, this`built, this`chunked,
               this`cut, outBuffer
      ensures Building(0) && built == old(built) + 1 && sendingBufs != [] && Ahead(gs[1..], bytes, end, short)
    {
      hide State, WriterAfter, Wire, Building, OutOf, MessageChunks, MessageEnd, Complete, BatchChunks, BatchEnd,
           LastHeader;
      ghost var o := OutOf(State(), g.msg.csid);
      BatchStep(State(), gs, outCurrent);
      Assoc(chunked, MessageChunks(o, g, outCurrent),
            BatchChunks(WriterAfter(State(), g), gs[1..], MessageEnd(o, g, outCurrent)));
      BuildNext(g);
    }

    lemma NothingAhead(bytes: seq<byte>, end: nat, short: bool)
      requires Building(0) && Ahead([], bytes, end, short)
      ensures chunked == bytes && outCurrent == end && cut == short
    {
      hide State, WriterAfterAll, Accounted, Wire;
    }

    /** The message of turn `i` and what then remains of the batch and of the queue. */
    lemma Turn(waiting: seq<Outgoing>, gs: seq<Outgoing>, i: nat)
      requires gs == FirstTen(waiting) && i <= |gs|
      ensures i < |gs| <==> i < 10 && waiting[i..] != []
      ensures i < |gs| ==> gs[i..] != [] && waiting[i..][0] == gs[i..][0] &&
                           waiting[i..][1..] == waiting[i + 1..] && gs[i..][1..] == gs[i + 1..]
      ensures i == |gs| ==> gs[i..] == []
    {
    }

    /** TcpConnection::SendInLoop: the batch joins the gather list, unless the connection has closed. */
    method SendInLoop()
      requires Building(0) && sending && sendingBufs != []
      modifies this`ioVecs, this`lost
      ensures Valid()
    {
      hide State, Accounted, WriterAfterAll;
      assert Wire(outBuffer[..], []) == [];
      if closed {
        lost := lost + Wire(outBuffer[..], sendingBufs);
        assert accepted + [] == accepted;
      } else {
        ioVecs := ioVecs + sendingBufs;
        assert [] + sendingBufs == sendingBufs && lost == [];
        assert accepted + [] == accepted;
        assert accepted + Wire(outBuffer[..], sendingBufs) + [] == accepted + Wire(outBuffer[..], sendingBufs);
      }
    }

    method TakeFirst() returns (g: Outgoing)
      requires Building(0) && outWaiting != []
      modifies this`outWaiting
      ensures Building(1) && g == old(outWaiting)[0] == sent[built] && outWaiting == old(outWaiting)[1..]
    {
      hide State, WriterAfterAll, Accounted, Wire;
      g := outWaiting[0];
      outWaiting := outWaiting[1..];
      assert sent[built..][1..] == sent[built + 1..];
    }

    /** A batch `gs` has been chunked from arena position `at` on in state `w`, with the bytes `before` before it. */
    ghost predicate Batched(w: Writer, before: seq<byte>, wasCut: bool, gs: seq<Outgoing>, at: nat)
      reads this`chunked, this`cut
    {
      chunked == before + BatchChunks(w, gs, at) && (cut <==> wasCut || LastHeader(w, gs, at) >= ARENA_SIZE)
    }

    /** At most ten waiting messages are chunked and sent as one batch, unless a batch is still being written. */
    method Send()
      requires sending ==> Valid()
      requires !sending ==>
               Building(0) && (outWaiting != [] || sendingBufs != []) &&
               BatchEnd(State(), FirstTen(outWaiting), outCurrent) <= ARENA_SIZE
      modifies this`outCurrent, this`outDeltas, this`outMessageHeaders, this`sendingBufs, this`built, this`chunked,
               this`cut, this`outWaiting, this`sending, this`ioVecs, this`lost, outBuffer
      ensures Valid() && sending
      ensures old(sending) ==>
                built == old(built) && ioVecs == old(ioVecs) && outBuffer[..] == old(outBuffer[..]) &&
                chunked == old(chunked) && cut == old(cut) && outWaiting == old(outWaiting)
      ensures !old(sending) ==>
                built == old(built) + |FirstTen(old(outWaiting))| &&
                Batched(old(State()), old(chunked), old(cut), FirstTen(old(outWaiting)), old(outCurrent))
    {
      hide State, WriterAfterAll, Wire, OutOf, WriterAfter, Accounted, BatchEnd, BatchChunks, LastHeader;
      if sending {
        return;
      }
      sending := true;
      DrainQueue();
      SendInLoop();
    }

    method DrainQueue()
      requires Building(0) && BatchEnd(State(), FirstTen(outWaiting), outCurrent) <= ARENA_SIZE
      modifies this`outCurrent, this`outDeltas, this`outMessageHeaders, this`sendingBufs, this`built, this`chunked,
               this`cut, this`outWaiting, outBuffer
      ensures Building(0) && (old(sendingBufs) != [] || old(outWaiting) != [] ==> sendingBufs != [])
      ensures built == old(built) + |FirstTen(old(outWaiting))|
      ensures Batched(old(State()), old(chunked), old(cut), FirstTen(old(outWaiting)), old(outCurrent))
    {
      hide State, Building, OutOf, WriterAfter, BatchEnd, BatchChunks, LastHeader, FirstTen;
      ghost var gs := FirstTen(outWaiting);
      ghost var bytes := chunked + BatchChunks(State(), gs, outCurrent);
      ghost var end := BatchEnd(State(), gs, outCurrent);
      ghost var short := cut || LastHeader(State(), gs, outCurrent) >= ARENA_SIZE;
      var i := 0;
      assert gs[0..] == gs && outWaiting[0..] == outWaiting;
      Turn(outWaiting, gs, 0);
      while i < BATCH && outWaiting != []
        invariant 0 <= i <= |gs| && Building(0) && outWaiting == old(outWaiting)[i..]
        invariant Ahead(gs[i..], bytes, end, short)
        invariant built == old(built) + i
        invariant i > 0 || old(sendingBufs) != [] ==> sendingBufs != []
      {
        Turn(old(outWaiting), gs, i);
        var g := TakeFirst();
        BuildAhead(gs[i..], g, bytes, end, short);
        i := i + 1;
      }
      Turn(old(outWaiting), gs, i);
      NothingAhead(bytes, end, short);
    }

    /** The next batch does not write past the end of the arena. */
    ghost predicate NextFits()
      reads this`outDeltas, this`outMessageHeaders, this`outWaiting
    {
      BatchEnd(State(), FirstTen(outWaiting), 0) <= ARENA_SIZE
    }

    /** A control message joins the queue; it is chunked at once if nothing is being written. */
    method PushOutQueue(g: Outgoing)
      requires Valid() && (sending || BatchEnd(State(), [g], 0) <= ARENA_SIZE)
      modifies this`outCurrent, this`outDeltas, this`outMessageHeaders, this`sendingBufs, this`built, this`chunked,
               this`cut, this`outWaiting, this`sending, this`ioVecs, this`lost, this`sent, outBuffer
      ensures Valid() && sending && sent == old(sent) + [g] && accepted == old(accepted)
      ensures old(sending) ==>
                built == old(built) && ioVecs == old(ioVecs) && chunked == old(chunked) && cut == old(cut)
      ensures !old(sending) ==> built == |sent| && Batched(old(State()), old(chunked), old(cut), [g], 0)
    {
      hide State, BatchEnd, BatchChunks, LastHeader, Accounted, WriterAfterAll, Wire, Valid, Building;
      Queue(g);
      Send();
    }

    method Queue(g: Outgoing)
      requires Valid()
      modifies this`outWaiting, this`sent
      ensures sent == old(sent) + [g] && outWaiting == old(outWaiting) + [g]
      ensures sending ==> Valid()
      ensures !sending ==> Building(0) && outCurrent == 0 && outWaiting == [g] && built == |old(sent)|
    {
      hide State, WriterAfterAll, Accounted, Wire;
      outWaiting := outWaiting + [g];
      sent := sent + [g];
      assert sent[..built] == old(sent)[..built] && sent[built..] == old(sent)[built..] + [g];
      IdleWire();
    }

    lemma IdleWire()
      requires Core()
      ensures ioVecs == [] ==> Wire(outBuffer[..], []) == [] && accepted + [] + lost == accepted + lost + []
    {
    }

    /** The batch has been written: the arena is reused, and the next ten waiting messages follow. */
    method CheckAndSend()
      requires Drained() && NextFits()
      modifies this`outCurrent, this`outDeltas, this`outMessageHeaders, this`sendingBufs, this`built, this`chunked,
               this`cut, this`outWaiting, this`sending, this`ioVecs, this`lost, outBuffer
      ensures Valid() && built == old(built) + |FirstTen(old(outWaiting))|
      ensures sending <==> old(outWaiting) != []
      ensures Batched(old(State()), old(chunked), old(cut), FirstTen(old(outWaiting)), 0)
    {
      hide State, BatchEnd, BatchChunks, LastHeader;
      Reset();
      if outWaiting != [] {
        Send();
      } else {
        EmptyBatch(State(), 0);
        NoChunks(State());
        assert chunked + [] == chunked;
      }
    }

    lemma NoChunks(w: Writer)
      ensures BatchChunks(w, [], 0) == []
    {
    }

    method Reset()
      requires Drained()
      modifies this`outCurrent, this`sendingBufs, this`sending
      ensures Building(0) && outCurrent == 0 && sendingBufs == [] && !sending
      ensures outWaiting == [] ==> Valid()
    {
      hide State, Accounted, WriterAfterAll;
      sending := false;
      outCurrent := 0;
      sendingBufs := [];
      assert accepted + Wire(outBuffer[..], []) + lost == accepted + lost + Wire(outBuffer[..], []);
    }

    /** Frames for a player go straight into a batch of their own; callers check first that nothing is being written. */
    method PushFrames(gs: seq<Outgoing>)
      requires Valid() && !sending && gs != []
      requires BatchEnd(State(), gs, 0) <= ARENA_SIZE
      modifies this`outCurrent, this`outDeltas, this`outMessageHeaders, this`sendingBufs, this`built, this`chunked,
               this`cut, this`outWaiting, this`sending, this`ioVecs, this`lost, this`sent, outBuffer
      ensures Valid() && sending && sent == old(sent) + gs && accepted == old(accepted) && built == |sent|
      ensures Batched(old(State()), old(chunked), old(cut), gs, 0)
    {
      hide State, WriterAfterAll, Wire, OutOf, WriterAfter, Accounted, BatchEnd, BatchChunks, LastHeader;
      IdleBuilding();
      ghost var bytes := chunked + BatchChunks(State(), gs, 0);
      ghost var end := BatchEnd(State(), gs, 0);
      ghost var short := cut || LastHeader(State(), gs, 0) >= ARENA_SIZE;
      var i := 0;
      assert gs[0..] == gs;
      while i < |gs|
        invariant 0 <= i <= |gs| && Building(0) && !sending && outWaiting == []
        invariant sent == old(sent) + gs[..i] && built == |sent|
        invariant Ahead(gs[i..], bytes, end, short)
        invariant i > 0 ==> sendingBufs != []
      {
        AddSent(gs[i]);
        BuildAhead(gs[i..], gs[i], bytes, end, short);
        assert gs[i..][1..] == gs[i + 1..] && gs[..i + 1] == gs[..i] + [gs[i]];
        i := i + 1;
      }
      assert gs[..i] == gs && gs[i..] == [];
      NothingAhead(bytes, end, short);
      NothingMore();
      Send();
    }

    lemma NothingMore()
      requires Core() && outWaiting == []
      ensures BatchEnd(State(), FirstTen(outWaiting), outCurrent) <= ARENA_SIZE
      ensures chunked + BatchChunks(State(), FirstTen(outWaiting), outCurrent) == chunked
      ensures LastHeader(State(), FirstTen(outWaiting), outCurrent) == -1
    {
      hide State;
      EmptyBatch(State(), outCurrent);
      assert chunked + [] == chunked;
    }

    lemma IdleBuilding()
      requires Valid() && !sending
      ensures Building(0) && built == |sent| && sent[..built] == sent
    {
      hide State, Accounted, WriterAfterAll;
      assert accepted + Wire(outBuffer[..], []) + lost == accepted + lost + Wire(outBuffer[..], []);
    }

    ghost method AddSent(g: Outgoing)
      requires Building(0) && outWaiting == [] && built == |sent|
      modifies this`sent
      ensures Building(1) && sent == old(sent) + [g] && g == sent[built]
    {
      hide State, Accounted, WriterAfterAll, Wire;
      sent := sent + [g];
      assert sent[..built] == old(sent)[..built];
      assert sent[built + 1..] == [];
    }

    /** Lines 147 to 160 of OnWrite: `ret` accepted bytes leave the front of the gather list. */
    method ConsumeFront(ret: nat)
      requires ret <= Pending(ioVecs)
      modifies this`ioVecs
      ensures ioVecs == Consume(old(ioVecs), ret)
    {
      var left := ret;
      while left > 0
        invariant 0 <= left <= Pending(ioVecs) && Consume(ioVecs, left) == Consume(old(ioVecs), ret)
        decreases |ioVecs|, left
      {
        var front := ioVecs[0];
        if front.Size() > left {
          var cut := if front.Arena? then Arena(front.off + left, front.len - left) else Payload(front.data[left..]);
          ioVecs := [cut] + ioVecs[1..];
          left := 0;
        } else {
          left := left - front.Size();
          ioVecs := ioVecs[1..];
        }
      }
    }

    /** One successful writev. */
    method Accept(ret: nat)
      requires Valid() && !closed && ioVecs != [] && ret <= Pending(ioVecs)
      modifies this`ioVecs, this`accepted
      ensures sent == old(sent) && built == old(built)
      ensures |accepted| == old(|accepted|) + ret && old(accepted) <= accepted
      ensures ioVecs == Consume(old(ioVecs), ret)
      ensures ioVecs == [] <==> ret == old(Pending(ioVecs)) && old(LastFull(ioVecs))
      ensures if ioVecs == [] then Drained() else Valid()
      ensures accepted + Wire(outBuffer[..], ioVecs) == old(accepted + Wire(outBuffer[..], ioVecs))
    {
      hide State, Accounted, WriterAfterAll, Consume, Wire, Pending;
      ghost var arena := outBuffer[..];
      ghost var was := ioVecs;
      ghost var bytes := Wire(arena, ioVecs);
      PendingIsWire(arena, ioVecs);
      ConsumeTakes(arena, ioVecs, ret);
      ConsumeKeeps(ioVecs, ret, outCurrent);
      accepted := accepted + bytes[..ret];
      ConsumeFront(ret);
      EmptyNodeStays(arena, was);
      NoNodes(arena);
      assert bytes[..ret] + bytes[ret..] == bytes;
      assert old(accepted) + bytes[..ret] + bytes[ret..] == old(accepted) + bytes;
    }

    /** The batch has been accepted completely but not yet replaced. */
    ghost predicate Drained()
      reads this, outBuffer
    {
      Consistent(0) && ioVecs == [] && accepted + lost == chunked
    }

    /**
     * The socket is writable: writev is called until it would block, fails or has taken everything; `results` are its
     * answers, and after the last of them it is called again. Bytes leave in order, and the arena is reused only when
     * the whole batch has been accepted. A batch that ends in an empty message is never finished: whatever writev
     * answers, its last iovec stays, and nothing more is ever sent.
     */
    method OnWrite(results: seq<WriteResult>)
      requires Valid() && NextFits()
      modifies this`outCurrent, this`outDeltas, this`outMessageHeaders, this`sendingBufs, this`built, this`chunked,
               this`cut, this`outWaiting, this`sending, this`ioVecs, this`lost, this`accepted, this`closed, outBuffer
      ensures Valid() && sent == old(sent)
      ensures old(accepted) <= accepted <= old(accepted + Wire(outBuffer[..], ioVecs))
      ensures (built == old(built) && chunked == old(chunked) && cut == old(cut)) ||
              (built == old(built) + |FirstTen(old(outWaiting))| &&
               Batched(old(State()), old(chunked), old(cut), FirstTen(old(outWaiting)), 0))
      ensures old(closed) ==> accepted == old(accepted) && built == old(built) && ioVecs == old(ioVecs)
      ensures closed <==> old(closed) || Refusal(old(ioVecs), results) == Some(Fails)
      ensures results != [] && results[0].WouldBlock? && old(ioVecs) != [] ==>
                closed == old(closed) && ioVecs == old(ioVecs) && accepted == old(accepted) && built == old(built)
      ensures !old(closed) && old(ioVecs) != [] ==>
                old(built) > 0 &&
                (built > old(built) || !sending <==>
                 accepted == old(accepted + Wire(outBuffer[..], ioVecs)) && sent[old(built) - 1].msg.data != [])
    {
      hide State, Accounted, WriterAfterAll, Wire, LastFull, Batched, NextFits, EndsAsBuilt, FirstTen, Refusal,
           LeftAfter;
      RefusalStep(ioVecs, results);
      if closed {
        return;
      }
      if ioVecs == [] {
        NothingPending();
        NoNodes(outBuffer[..]);
        CheckAndSend();
        return;
      }
      ghost var offered := accepted + Wire(outBuffer[..], ioVecs);
      var i := 0;
      while i < |results|
        invariant 0 <= i <= |results|
        invariant Valid() && sent == old(sent) && built == old(built) && !closed && ioVecs != []
        invariant accepted + Wire(outBuffer[..], ioVecs) == offered && old(accepted) <= accepted
        invariant chunked == old(chunked) && cut == old(cut) && outWaiting == old(outWaiting) && State() == old(State())
        invariant NextFits() && Refusal(ioVecs, results[i..]) == Refusal(old(ioVecs), results)
        invariant if i > 0 then results[0].Accepts? else ioVecs == old(ioVecs) && accepted == old(accepted)
      {
        RefusalStep(ioVecs, results[i..]);
        RefusalStep([], results[i + 1..]);
        assert results[i..][1..] == results[i + 1..];
        var again := WriteOnce(results[i], offered);
        if !again {
          return;
        }
        i := i + 1;
      }
      RefusalStep(ioVecs, results[i..]);
      StillWaiting(offered);
    }

    /** The answer that ends the loop with bytes left, answer by answer. */
    lemma RefusalStep(nodes: seq<BufferNode>, results: seq<WriteResult>)
      ensures nodes == [] || results == [] ==> Refusal(nodes, results) == None
      ensures nodes != [] && results != [] ==>
                Refusal(nodes, results) ==
                match results[0]
                case Accepts(n) => Refusal(LeftAfter(nodes, n), results[1..])
                case WouldBlock => Some(WouldBlock)
                case Fails => Some(Fails)
    {
    }

    /** One turn of the loop; `again` says that writev is called once more. */
    method WriteOnce(result: WriteResult, ghost offered: seq<byte>) returns (again: bool)
      requires Valid() && NextFits() && !closed && ioVecs != []
      requires accepted + Wire(outBuffer[..], ioVecs) == offered
      modifies this`outCurrent, this`outDeltas, this`outMessageHeaders, this`sendingBufs, this`built, this`chunked,
               this`cut, this`outWaiting, this`sending, this`ioVecs, this`lost, this`accepted, this`closed, outBuffer
      ensures Valid() && sent == old(sent) && old(accepted) <= accepted <= offered && 0 < old(built) <= |sent|
      ensures again ==>
                !closed && ioVecs != [] && accepted + Wire(outBuffer[..], ioVecs) == offered &&
                built == old(built) && State() == old(State()) && outWaiting == old(outWaiting)
      ensures (built == old(built) && chunked == old(chunked) && cut == old(cut)) ||
              (built == old(built) + |FirstTen(old(outWaiting))| &&
               Batched(old(State()), old(chunked), old(cut), FirstTen(old(outWaiting)), 0))
      ensures again ==> NextFits() && chunked == old(chunked) && cut == old(cut)
      ensures closed <==> result.Fails?
      ensures result.Accepts? ==>
                var left := LeftAfter(old(ioVecs), result.n);
                (again <==> left != []) && (again ==> ioVecs == left)
      ensures !result.Accepts? ==>
                !again && ioVecs == old(ioVecs) && accepted == old(accepted) && built == old(built)
      ensures !again ==>
                (built > old(built) || !sending <==> accepted == offered && sent[old(built) - 1].msg.data != [])
    {
      hide State, Accounted, WriterAfterAll, Wire, LastFull, Batched, NextFits, Pending, Consume;
      again := false;
      StillWaiting(offered);
      match result {
        case WouldBlock =>
        case Fails =>
          closed := true;
        case Accepts(n) =>
          var pending := Pending(ioVecs);
          NoNodes(outBuffer[..]);
          Accept(if n <= pending then n else pending);
          if ioVecs == [] {
            CheckAndSend();
          } else {
            StillWaiting(offered);
            again := true;
          }
      }
    }

    /** While something is left on the list, all bytes are out only if the message chunked last is empty. */
    lemma StillWaiting(offered: seq<byte>)
      requires Valid() && ioVecs != [] && !closed && accepted + Wire(outBuffer[..], ioVecs) == offered
      ensures sending && built > 0 && accepted <= offered && (accepted == offered ==> sent[built - 1].msg.data == [])
    {
      hide State, Accounted, WriterAfterAll, LastFull, Wire;
      if LastFull(ioVecs) {
        LastFullWire(outBuffer[..], ioVecs);
      }
    }

    /** A batch is used up once all its bytes are accepted exactly if its last message has data. */
    lemma BatchUsedUp()
      requires Valid() && ioVecs != []
      ensures built > 0
      ensures Consume(ioVecs, |Wire(outBuffer[..], ioVecs)|) == [] <==> sent[built - 1].msg.data != []
    {
      hide State, Accounted, WriterAfterAll, Consume, Wire, LastFull;
      EmptyNodeStays(outBuffer[..], ioVecs);
    }

    lemma NothingPending()
      requires Valid() && ioVecs == []
      ensures Drained() && (!closed ==> outWaiting == [] && !sending)
    {
      hide State, Accounted, WriterAfterAll;
      assert accepted + [] + lost == accepted + lost;
    }
  }
}
