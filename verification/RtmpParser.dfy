/** The incremental chunk parser of RtmpContext::ParseMessage, as a function of state and buffered bytes. */
module RtmpParser {
  import opened Bytes
  import opened Options

  /** RtmpMsgHeader without its chunk stream id, which is the key it is stored under. */
  datatype Header = Header(ts: nat, len: int, typ: nat, sid: nat)

  /** A message being assembled: capacity, the bytes received so far and its header. */
  datatype Packet = Packet(cap: int, data: seq<byte>, hdr: Header)
  {
    function Space(): int { cap - |data| }
  }

  /** What the parser keeps for one chunk stream id. */
  datatype Chan = Chan(prev: Header, pkt: Option<Packet>, delta: nat, ext: bool)

  datatype Parser = Parser(chans: map<nat, Chan>, chunk: int)

  datatype Message = Message(csid: nat, ts: nat, typ: nat, sid: nat, data: seq<byte>)

  /** Basic header plus message header, as they stand on the wire; `size` bytes in all. */
  datatype Head = Head(fmt: nat, csid: nat, size: nat, ts: nat, len: nat, typ: nat, sid: nat)

  const ZERO_HEADER := Header(0, 0, 0, 0)
  const FRESH_CHAN := Chan(ZERO_HEADER, None, 0, false)
  const TS_EXTENDED := 0xFFFFFF
  const TYPE_CHUNK_SIZE := 1
  const TWO32 := 0x1_0000_0000

  function ChanOf(p: Parser, csid: nat): Chan {
    if csid in p.chans then p.chans[csid] else FRESH_CHAN
  }

  /** Bytes of the message header that must be present for each fmt. */
  function HeadNeed(fmt: nat): nat {
    if fmt == 0 then 11 else if fmt == 1 then 7 else if fmt == 2 then 3 else 0
  }

  /** Length of the basic header announced by the first byte. */
  function BasicSize(b0: byte): nat {
    if b0 % 64 == 0 then 2 else if b0 % 64 == 1 then 3 else 1
  }

  function BasicCsid(b: seq<byte>): nat
    requires |b| >= 1 && |b| >= BasicSize(b[0])
  {
    if b[0] % 64 == 0 then 64 + b[1] as int
    else if b[0] % 64 == 1 then 64 + b[1] as int + b[2] as int * 256
    else b[0] % 64
  }

  function Fields(fmt: nat, csid: nat, at: nat, f: seq<byte>): Head
    requires |f| >= HeadNeed(fmt)
  {
    if fmt == 0 then Head(0, csid, at + 11, U24(f), U24(f[3..]), f[6], Host32(f[7..]))
    else if fmt == 1 then Head(1, csid, at + 7, U24(f), U24(f[3..]), f[6], 0)
    else if fmt == 2 then Head(2, csid, at + 3, U24(f), 0, 0, 0)
    else Head(fmt, csid, at, 0, 0, 0, 0)
  }

  /** None while the loop guard or one of the length checks makes the parser wait. */
  function ReadHead(b: seq<byte>): (h: Option<Head>)
    ensures h.Some? ==> 1 <= h.value.size <= |b| && h.value.fmt < 4
  {
    if |b| <= 1 then None
    else
      var fmt := b[0] / 64;
      var n := BasicSize(b[0]);
      if |b| < n || |b| == n || |b| - n < HeadNeed(fmt) then None
      else Some(Fields(fmt, BasicCsid(b), n, b[n..]))
  }

  /** Capacity given to a new packet. */
  function Capacity(ch: Chan, chunk: int, h: Head): int {
    if h.fmt <= 1 then h.len else if ch.prev.len == 0 then chunk else ch.prev.len
  }

  function PacketOf(ch: Chan, chunk: int, h: Head): Packet {
    if ch.pkt.Some? then ch.pkt.value else Packet(Capacity(ch, chunk, h), [], ZERO_HEADER)
  }

  /** The header a chunk leaves on the packet before any extended timestamp is read. */
  function Absorb(ch: Chan, hdr: Header, h: Head): Header {
    if h.fmt == 0 then Header(h.ts, h.len, h.typ, h.sid)
    else if h.fmt == 1 then Header((h.ts + ch.prev.ts) % TWO32, h.len, h.typ, ch.prev.sid)
    else if h.fmt == 2 then ch.prev.(ts := (h.ts + ch.prev.ts) % TWO32)
    else ch.prev.(ts := if hdr.ts == 0 then (ch.delta + ch.prev.ts) % TWO32 else hdr.ts)
  }

  /** First mutation: everything the parser stores before it knows whether the chunk is complete. */
  function Touch(ch: Chan, chunk: int, h: Head): (r: Chan)
    ensures r.pkt.Some?
  {
    var pkt := PacketOf(ch, chunk, h);
    Chan(ch.prev,
         Some(pkt.(hdr := Absorb(ch, pkt.hdr, h))),
         if h.fmt == 0 then 0 else if h.fmt <= 2 then h.ts else ch.delta,
         if h.fmt == 3 then ch.ext else h.ts == TS_EXTENDED)
  }

  /** Second mutation: an extended timestamp was read. On fmt 0 the code drops its value. */
  function Extend(ch: Chan, h: Head, xts: nat): (r: Chan)
    requires ch.pkt.Some?
    ensures r.pkt.Some?
  {
    if h.fmt == 0 then ch
    else
      var pkt := ch.pkt.value;
      ch.(pkt := Some(pkt.(hdr := pkt.hdr.(ts := (xts + ch.prev.ts) % TWO32))), delta := xts)
  }

  datatype ChanStep = Wait(chan: Chan) | Took(n: nat, chan: Chan, msg: Option<Message>)

  /** Copy `body` into the packet, remember its header, and hand it over when it is full. */
  function Fill(ch: Chan, csid: nat, n: nat, body: seq<byte>): (r: ChanStep)
    requires ch.pkt.Some?
    ensures r.Took? && r.n == n
  {
    var pkt := ch.pkt.value.(data := ch.pkt.value.data + body);
    if pkt.Space() == 0 then
      Took(n, Chan(pkt.hdr, None, ch.delta, ch.ext),
           Some(Message(csid, pkt.hdr.ts, pkt.hdr.typ, pkt.hdr.sid, pkt.data)))
    else Took(n, Chan(pkt.hdr, Some(pkt), ch.delta, ch.ext), None)
  }

  function BodySize(ch: Chan, chunk: int): int
    requires ch.pkt.Some?
  {
    if ch.pkt.value.Space() <= chunk then ch.pkt.value.Space() else chunk
  }

  /** The rest of the chunk once its timestamp is settled; a negative size never fits (the test is unsigned). */
  function TakeBody(ch: Chan, chunk: int, csid: nat, at: nat, rest: seq<byte>): (r: ChanStep)
    requires ch.pkt.Some?
    ensures r.Took? ==> at <= r.n <= at + |rest|
  {
    var n := BodySize(ch, chunk);
    if n < 0 || |rest| < n then Wait(ch) else Fill(ch, csid, at + n, rest[..n])
  }

  /** One chunk of one stream; `rest` is what follows its header. */
  function StepChan(ch: Chan, chunk: int, h: Head, rest: seq<byte>): (r: ChanStep)
    ensures r.Took? ==> h.size <= r.n <= h.size + |rest|
  {
    var c := Touch(ch, chunk, h);
    if !c.ext then TakeBody(c, chunk, h.csid, h.size, rest)
    else if |rest| < 4 then Wait(c)
    else TakeBody(Extend(c, h, U32(rest)), chunk, h.csid, h.size + 4, rest[4..])
  }

  /** HandleChunkSize, run when a message completes. */
  function ChunkAfter(chunk: int, msg: Option<Message>): int {
    if msg.Some? && msg.value.typ == TYPE_CHUNK_SIZE && |msg.value.data| >= 4
    then AsInt32(U32(msg.value.data)) else chunk
  }

  datatype Step = Stop(p: Parser) | Next(p: Parser, n: nat, msg: Option<Message>)

  function OneChunk(p: Parser, b: seq<byte>): (r: Step)
    ensures r.Next? ==> 1 <= r.n <= |b|
  {
    match ReadHead(b)
    case None => Stop(p)
    case Some(h) =>
      match StepChan(ChanOf(p, h.csid), p.chunk, h, b[h.size..])
      case Wait(ch) => Stop(p.(chans := p.chans[h.csid := ch]))
      case Took(n, ch, msg) => Next(Parser(p.chans[h.csid := ch], ChunkAfter(p.chunk, msg)), n, msg)
  }

  function Opt(m: Option<Message>): seq<Message> {
    if m.Some? then [m.value] else []
  }

  datatype Outcome = Outcome(p: Parser, rest: seq<byte>, msgs: seq<Message>)

  /** A whole call of ParseMessage: chunk after chunk until it has to wait. */
  function Run(p: Parser, b: seq<byte>): Outcome
    decreases |b|
  {
    match OneChunk(p, b)
    case Stop(q) => Outcome(q, b, [])
    case Next(q, n, msg) =>
      var o := Run(q, b[n..]);
      o.(msgs := Opt(msg) + o.msgs)
  }
}
