/** The receiving half of RtmpContext: four maps keyed by chunk stream, updated while a chunk is being read. */
module RtmpInputs {
  import opened Bytes
  import opened Options
  import opened MsgBuffers
  import opened RtmpParser
  import opened RtmpSegmentation

  lemma Twice(m: map<nat, Chan>, k: nat, a: Chan, b: Chan)
    ensures m[k := a][k := b] == m[k := b]
  {
  }

  lemma TouchOpened(ch: Chan, chunk: int, h: Head)
    ensures Touch(ch.(pkt := Some(PacketOf(ch, chunk, h))), chunk, h) == Touch(ch, chunk, h)
  {
  }

  lemma TakeBodyWaits(ch: Chan, chunk: int, csid: nat, at: nat, rest: seq<byte>)
    requires ch.pkt.Some?
    ensures TakeBody(ch, chunk, csid, at, rest).Wait? ==> TakeBody(ch, chunk, csid, at, rest).chan == ch
  {
  }

  class RtmpInput {
    var inMessageHeaders: map<nat, Header>
    var inPackets: map<nat, Packet>
    var inDeltas: map<nat, nat>
    var inExt: map<nat, bool>
    var inChunkSize: int
    /** Messages handed to MessageComplete, oldest first. */
    var received: seq<Message>

    constructor ()
      ensures Valid() && State() == Parser(map[], 128) && received == []
    {
      inMessageHeaders, inPackets, inDeltas, inExt := map[], map[], map[], map[];
      inChunkSize := 128;
      received := [];
    }

    ghost predicate Valid()
      reads this
    {
      inPackets.Keys <= inMessageHeaders.Keys && inDeltas.Keys <= inMessageHeaders.Keys &&
      inExt.Keys <= inMessageHeaders.Keys
    }

    function Delta(csid: nat): nat
      reads this
    {
      if csid in inDeltas then inDeltas[csid] else 0
    }

    function Ext(csid: nat): bool
      reads this
    {
      csid in inExt && inExt[csid]
    }

    ghost function Stored(csid: nat): Chan
      reads this
      requires csid in inMessageHeaders
    {
      Chan(inMessageHeaders[csid], if csid in inPackets then Some(inPackets[csid]) else None, Delta(csid), Ext(csid))
    }

    /** The four maps seen as one parser state. */
    ghost function State(): Parser
      reads this
    {
      Parser(map csid | csid in inMessageHeaders :: Stored(csid), inChunkSize)
    }

    /** Everything stored for `csid` is as given and nothing else changed since `was`. */
    ghost predicate Became(was: Parser, csid: nat, ch: Chan)
      reads this
    {
      Valid() && csid in inMessageHeaders && Stored(csid) == ch && State() == was.(chans := was.chans[csid := ch])
    }

    /** The first use of a chunk stream stores an empty header and a packet sized from what is known so far. */
    method OpenPacket(h: Head)
      requires Valid()
      modifies this`inMessageHeaders, this`inPackets
      ensures Valid() && h.csid in inPackets
      ensures inMessageHeaders == old(inMessageHeaders)[h.csid := old(ChanOf(State(), h.csid)).prev]
      ensures inPackets == old(inPackets)[h.csid := old(PacketOf(ChanOf(State(), h.csid), inChunkSize, h))]
    {
      var csid := h.csid;
      if csid !in inMessageHeaders {
        inMessageHeaders := inMessageHeaders[csid := ZERO_HEADER];
      }
      var msgLen := inMessageHeaders[csid].len;
      if h.fmt == 0 || h.fmt == 1 {
        msgLen := h.len;
      } else if msgLen == 0 {
        msgLen := inChunkSize;
      }
      if csid !in inPackets {
        inPackets := inPackets[csid := Packet(msgLen, [], ZERO_HEADER)];
      }
    }

    /** The fields of the header just read go to the packet, the delta and the extended flag. */
    method TakeFields(h: Head)
      requires Valid() && h.fmt < 4 && h.csid in inPackets
      modifies this`inPackets, this`inDeltas, this`inExt
      ensures Valid() && inPackets.Keys == old(inPackets.Keys)
      ensures Stored(h.csid) == Touch(old(Stored(h.csid)), inChunkSize, h)
      ensures forall c :: c in inMessageHeaders && c != h.csid ==> Stored(c) == old(Stored(c))
    {
      var csid := h.csid;
      var prev := inMessageHeaders[csid];
      var header := inPackets[csid].hdr;
      if h.fmt == 0 {
        inDeltas := inDeltas[csid := 0];
        header := Header(h.ts, h.len, h.typ, h.sid);
      } else if h.fmt == 1 {
        inDeltas := inDeltas[csid := h.ts];
        header := Header((h.ts + prev.ts) % TWO32, h.len, h.typ, prev.sid);
      } else if h.fmt == 2 {
        inDeltas := inDeltas[csid := h.ts];
        header := Header((h.ts + prev.ts) % TWO32, prev.len, prev.typ, prev.sid);
      } else {
        if header.ts == 0 {
          header := header.(ts := (Delta(csid) + prev.ts) % TWO32);
        }
        header := Header(header.ts, prev.len, prev.typ, prev.sid);
      }
      inPackets := inPackets[csid := inPackets[csid].(hdr := header)];
      var ext := h.ts == TS_EXTENDED;
      if h.fmt == 3 {
        ext := Ext(csid);
      }
      inExt := inExt[csid := ext];
    }

    /** Everything the parser stores before it knows whether the chunk has arrived completely. */
    method StoreHeader(h: Head)
      requires Valid() && h.fmt < 4
      modifies this`inMessageHeaders, this`inPackets, this`inDeltas, this`inExt
      ensures Became(old(State()), h.csid, Touch(ChanOf(old(State()), h.csid), inChunkSize, h))
      ensures h.csid in inPackets
    {
      hide Touch, PacketOf, Capacity;
      ghost var was := State();
      ghost var ch := ChanOf(was, h.csid);
      OpenPacket(h);
      assert Stored(h.csid) == ch.(pkt := Some(PacketOf(ch, inChunkSize, h)));
      assert forall c :: c in was.chans && c != h.csid ==> Stored(c) == was.chans[c];
      TakeFields(h);
      TouchOpened(ch, inChunkSize, h);
      assert State().chans == was.chans[h.csid := Stored(h.csid)];
    }

    /** An extended timestamp replaces the delta and the timestamp, except on a full header, where it is dropped. */
    method StoreExtended(h: Head, ts: nat)
      requires Valid() && h.csid in inPackets
      modifies this`inPackets, this`inDeltas
      ensures Became(old(State()), h.csid, Extend(old(Stored(h.csid)), h, ts))
      ensures inPackets.Keys == old(inPackets.Keys)
    {
      ghost var was := State();
      var csid := h.csid;
      if h.fmt != 0 {
        var pkt := inPackets[csid];
        inPackets := inPackets[csid := pkt.(hdr := pkt.hdr.(ts := (ts + inMessageHeaders[csid].ts) % TWO32))];
        inDeltas := inDeltas[csid := ts];
      }
      assert State().chans == was.chans[csid := Stored(csid)];
    }

    /** MessageComplete: a chunk-size message takes effect at once, every message is handed on. */
    method MessageComplete(m: Message)
      modifies this`inChunkSize, this`received
      ensures inChunkSize == ChunkAfter(old(inChunkSize), Some(m)) && received == old(received) + [m]
    {
      if m.typ == TYPE_CHUNK_SIZE {
        if |m.data| >= 4 {
          inChunkSize := AsInt32(U32(m.data));
        }
      }
      received := received + [m];
    }

    /** The body of a chunk is appended to its packet, and a full packet is completed and forgotten. */
    method TakeChunk(csid: nat, body: seq<byte>, ghost n: nat)
      requires Valid() && csid in inPackets
      modifies this`inMessageHeaders, this`inPackets, this`inChunkSize, this`received
      ensures Valid()
      ensures var f := Fill(old(Stored(csid)), csid, n, body);
              State() == Parser(old(State()).chans[csid := f.chan], ChunkAfter(old(inChunkSize), f.msg)) &&
              received == old(received) + Opt(f.msg)
    {
      ghost var was := State();
      var pkt := inPackets[csid];
      pkt := pkt.(data := pkt.data + body);
      inPackets := inPackets[csid := pkt];
      inMessageHeaders := inMessageHeaders[csid := pkt.hdr];
      if pkt.Space() == 0 {
        MessageComplete(Message(csid, pkt.hdr.ts, pkt.hdr.typ, pkt.hdr.sid, pkt.data));
        inPackets := inPackets - {csid};
      }
      assert State().chans == was.chans[csid := Stored(csid)];
    }

    /** Lines 232 to 256: the body is taken if all of it is there; `parsed` bytes of header precede it. */
    method ParseBody(buf: MsgBuffer, csid: nat, parsed: nat) returns (more: bool)
      requires Valid() && csid in inPackets && buf.Valid() && buf.initCap >= OFFSET && parsed <= |buf.View()|
      modifies this`inMessageHeaders, this`inPackets, this`inChunkSize, this`received, buf
      ensures Valid() && buf.Valid() && buf.initCap == old(buf.initCap)
      ensures match TakeBody(old(Stored(csid)), old(inChunkSize), csid, parsed, old(buf.View())[parsed..])
              case Wait(ch) =>
                !more && State() == old(State()) && buf.View() == old(buf.View()) && received == old(received)
              case Took(n, ch, msg) =>
                more && State() == Parser(old(State()).chans[csid := ch], ChunkAfter(old(inChunkSize), msg)) &&
                buf.View() == old(buf.View())[n..] && received == old(received) + Opt(msg)
    {
      var bytes := buf.View();
      var space := inPackets[csid].Space();
      var size := if space <= inChunkSize then space else inChunkSize;
      if size < 0 || |bytes| - parsed < size {
        return false;
      }
      ghost var f := Fill(Stored(csid), csid, parsed + size, bytes[parsed..][..size]);
      assert f == TakeBody(Stored(csid), inChunkSize, csid, parsed, bytes[parsed..]);
      hide TakeBody, BodySize, Fill;
      TakeChunk(csid, bytes[parsed..][..size], parsed + size);
      buf.Retrieve(parsed + size);
      more := true;
    }

    /**
     * One turn of the loop: false when the parser has to wait for more bytes, leaving the buffer alone but not
     * necessarily its own state.
     */
    method ParseChunk(buf: MsgBuffer) returns (more: bool)
      requires Valid() && buf.Valid() && buf.initCap >= OFFSET
      modifies this, buf
      ensures Valid() && buf.Valid() && buf.initCap == old(buf.initCap)
      ensures match OneChunk(old(State()), old(buf.View()))
              case Stop(q) => !more && State() == q && buf.View() == old(buf.View()) && received == old(received)
              case Next(q, n, msg) =>
                more && State() == q && buf.View() == old(buf.View())[n..] && received == old(received) + Opt(msg)
    {
      hide TakeBody, Extend, Touch, ReadHead;
      ghost var was := State();
      var bytes := buf.View();
      var head := ReadHead(bytes);
      if head.None? {
        return false;
      }
      var h := head.value;
      ghost var ch := ChanOf(was, h.csid);
      StoreHeader(h);
      ghost var touched := Touch(ch, inChunkSize, h);
      var parsed := h.size;
      if !Ext(h.csid) {
        ghost var step := TakeBody(touched, inChunkSize, h.csid, parsed, bytes[parsed..]);
        more := ParseBody(buf, h.csid, parsed);
        Twice(was.chans, h.csid, touched, step.chan);
        TakeBodyWaits(touched, inChunkSize, h.csid, parsed, bytes[parsed..]);
      } else {
        more := ParseExtended(buf, h, was);
      }
    }

    /** Lines 217 to 231, and the body after them. */
    method ParseExtended(buf: MsgBuffer, h: Head, ghost was: Parser) returns (more: bool)
      requires Valid() && buf.Valid() && buf.initCap >= OFFSET && h.csid in inPackets && h.size <= |buf.View()|
      requires State() == was.(chans := was.chans[h.csid := Stored(h.csid)])
      modifies this, buf
      ensures Valid() && buf.Valid() && buf.initCap == old(buf.initCap)
      ensures var ch := old(Stored(h.csid));
              var rest := old(buf.View())[h.size..];
              match if |rest| < 4 then Wait(ch)
                    else TakeBody(Extend(ch, h, U32(rest)), old(inChunkSize), h.csid, h.size + 4, rest[4..])
              case Wait(c) =>
                !more && State() == was.(chans := was.chans[h.csid := c]) &&
                buf.View() == old(buf.View()) && received == old(received)
              case Took(n, c, msg) =>
                more && State() == Parser(was.chans[h.csid := c], ChunkAfter(old(inChunkSize), msg)) &&
                buf.View() == old(buf.View())[n..] && received == old(received) + Opt(msg)
    {
      hide TakeBody, Extend;
      var bytes := buf.View();
      if |bytes| - h.size < 4 {
        return false;
      }
      ghost var ch := Stored(h.csid);
      ghost var extended := Extend(ch, h, U32(bytes[h.size..]));
      ghost var step := TakeBody(extended, inChunkSize, h.csid, h.size + 4, bytes[h.size + 4..]);
      StoreExtended(h, U32(bytes[h.size..]));
      assert bytes[h.size..][4..] == bytes[h.size + 4..];
      Twice(was.chans, h.csid, ch, extended);
      more := ParseBody(buf, h.csid, h.size + 4);
      Twice(was.chans, h.csid, extended, step.chan);
      TakeBodyWaits(extended, inChunkSize, h.csid, h.size + 4, bytes[h.size + 4..]);
    }

    /** A call of ParseMessage is `Run` on the stored state and the buffered bytes. */
    method ParseMessage(buf: MsgBuffer)
      requires Valid() && buf.Valid() && buf.initCap >= OFFSET
      modifies this, buf
      ensures Valid() && buf.Valid() && buf.initCap == old(buf.initCap)
      ensures var o := Run(old(State()), old(buf.View()));
              State() == o.p && buf.View() == o.rest && received == old(received) + o.msgs
    {
      hide OneChunk;
      ghost var whole := Run(State(), buf.View());
      ghost var before := received;
      var more := true;
      while more
        invariant Valid() && buf.Valid() && buf.initCap == old(buf.initCap)
        invariant more ==> var o := Run(State(), buf.View());
                           whole == o.(msgs := whole.msgs) && before + whole.msgs == received + o.msgs
        invariant !more ==> whole == Outcome(State(), buf.View(), whole.msgs) && received == before + whole.msgs
        decreases buf.ReadableBytes(), more
      {
        ghost var p := State();
        ghost var b := buf.View();
        ghost var mid := received;
        more := ParseChunk(buf);
        if more {
          RunNext(p, b);
          assert mid + (Opt(OneChunk(p, b).msg) + Run(State(), buf.View()).msgs) ==
                 received + Run(State(), buf.View()).msgs;
        } else {
          RunStop(p, b);
        }
      }
    }
  }
}
