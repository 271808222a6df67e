/** The chunk writer of RtmpContext::BuildChunk: header compression and body splitting. */
module RtmpWriter {
  import opened Bytes
  import opened Options
  import opened RtmpParser

  /** What the writer remembers for one chunk stream: the last header sent (absent before the first) and its delta. */
  datatype OutChan = OutChan(prev: Option<Header>, delta: nat)

  type Writer = map<nat, OutChan>

  /** A message to send; `data` is its msg_len bytes of payload, `fmt0` asks for a full header. */
  datatype Outgoing = Outgoing(msg: Message, fmt0: bool)

  const FRESH_OUT := OutChan(None, 0)

  function OutOf(w: Writer, csid: nat): OutChan {
    if csid in w then w[csid] else FRESH_OUT
  }

  /** The header of a message, as kept after sending it and as rebuilt by the parser. */
  function HeaderOf(m: Message): Header {
    Header(m.ts, |m.data|, m.typ, m.sid)
  }

  function PrevOf(o: OutChan): Header {
    if o.prev.Some? then o.prev.value else ZERO_HEADER
  }

  /** The header compression chosen for a message. */
  function Fmt(o: OutChan, m: Message, fmt0: bool): (f: nat)
    ensures f < 4
    ensures f != 0 ==> o.prev.Some? && o.prev.value.ts <= m.ts && o.prev.value.sid == m.sid
    ensures f >= 2 ==> o.prev.value.typ == m.typ && o.prev.value.len == |m.data|
  {
    if fmt0 || o.prev.None? || m.ts < o.prev.value.ts || m.sid != o.prev.value.sid then 0
    else if m.typ != o.prev.value.typ || |m.data| != o.prev.value.len then 1
    else if m.ts - o.prev.value.ts != o.delta then 2
    else 3
  }

  /** The number the header carries: the timestamp itself (fmt 0) or its distance from the last one. */
  function Stamp(o: OutChan, m: Message, fmt0: bool): nat {
    if Fmt(o, m, fmt0) == 0 then m.ts else m.ts - o.prev.value.ts
  }

  function Min24(v: nat): nat {
    if v >= TS_EXTENDED then TS_EXTENDED else v
  }

  /** Basic header; ids from 64 use one or two more bytes, the last form in host byte order. */
  function Basic(fmt: nat, csid: nat): (s: seq<byte>)
    requires fmt < 4
    ensures 1 <= |s| <= 3
  {
    if csid < 64 then [fmt * 64 + csid]
    else if csid < 320 then [fmt * 64, csid - 64]
    else [fmt * 64 + 1, (csid - 64) % 256, (csid - 64) / 256 % 256]
  }

  function MessageHeader(fmt: nat, stamp: nat, m: Message): seq<byte> {
    if fmt == 0 then PutU24(Min24(stamp)) + PutU24(|m.data|) + [m.typ % 256] + PutHost32(m.sid)
    else if fmt == 1 then PutU24(Min24(stamp)) + PutU24(|m.data|) + [m.typ % 256]
    else if fmt == 2 then PutU24(Min24(stamp))
    else []
  }

  /** Extended timestamp, in host byte order, repeated on every chunk of the message. */
  function Ext(stamp: nat): seq<byte> {
    if stamp >= TS_EXTENDED then PutHost32(stamp) else []
  }

  function FirstHeader(o: OutChan, m: Message, fmt0: bool): seq<byte> {
    var fmt := Fmt(o, m, fmt0);
    var stamp := Stamp(o, m, fmt0);
    Basic(fmt, m.csid) + MessageHeader(fmt, stamp, m) + Ext(stamp)
  }

  function NextHeader(csid: nat, stamp: nat): (s: seq<byte>)
    ensures 1 <= |s| <= 7
  {
    Basic(3, csid) + Ext(stamp)
  }

  /** Body cut into pieces of at most `size` bytes, with a header before every piece but the first. */
  function Body(size: nat, next: seq<byte>, data: seq<byte>): seq<byte>
    requires size >= 1
    decreases |data|
  {
    if |data| <= size then data
    else data[..size] + next + Body(size, next, data[size..])
  }

  /** Chunks after the first. */
  function Continuations(size: nat, len: nat): nat
    requires size >= 1
    decreases len
  {
    if len <= size then 0 else 1 + Continuations(size, len - size)
  }

  function OutAfter(o: OutChan, m: Message, fmt0: bool): OutChan {
    var fmt := Fmt(o, m, fmt0);
    OutChan(Some(HeaderOf(m)), if fmt == 0 then 0 else Stamp(o, m, fmt0))
  }

  function WriterAfter(w: Writer, g: Outgoing): Writer {
    w[g.msg.csid := OutAfter(OutOf(w, g.msg.csid), g.msg, g.fmt0)]
  }

  /** Every chunk of one message. */
  function Encode(w: Writer, size: nat, g: Outgoing): seq<byte>
    requires size >= 1
  {
    var o := OutOf(w, g.msg.csid);
    FirstHeader(o, g.msg, g.fmt0) + Body(size, NextHeader(g.msg.csid, Stamp(o, g.msg, g.fmt0)), g.msg.data)
  }

  function EncodeAll(w: Writer, size: nat, gs: seq<Outgoing>): seq<byte>
    requires size >= 1
    decreases |gs|
  {
    if gs == [] then [] else Encode(w, size, gs[0]) + EncodeAll(WriterAfter(w, gs[0]), size, gs[1..])
  }

  function WriterAfterAll(w: Writer, gs: seq<Outgoing>): Writer
    decreases |gs|
  {
    if gs == [] then w else WriterAfterAll(WriterAfter(w, gs[0]), gs[1..])
  }

  lemma {:induction false} EncodeAllAppend(w: Writer, size: nat, a: seq<Outgoing>, b: seq<Outgoing>)
    requires size >= 1
    ensures EncodeAll(w, size, a + b) == EncodeAll(w, size, a) + EncodeAll(WriterAfterAll(w, a), size, b)
    ensures WriterAfterAll(w, a + b) == WriterAfterAll(WriterAfterAll(w, a), b)
    decreases |a|
  {
    hide Encode, WriterAfter;
    if a == [] {
      assert a + b == b;
    } else {
      assert (a + b)[0] == a[0] && (a + b)[1..] == a[1..] + b;
      EncodeAllAppend(WriterAfter(w, a[0]), size, a[1..], b);
    }
  }

  /** One more message adds its chunks at the end. */
  lemma EncodeOneMore(w: Writer, size: nat, gs: seq<Outgoing>, k: nat)
    requires size >= 1 && k < |gs|
    ensures EncodeAll(w, size, gs[..k + 1]) ==
            EncodeAll(w, size, gs[..k]) + Encode(WriterAfterAll(w, gs[..k]), size, gs[k])
    ensures WriterAfterAll(w, gs[..k + 1]) == WriterAfter(WriterAfterAll(w, gs[..k]), gs[k])
  {
    hide Encode, WriterAfter;
    var a, b := gs[..k], [gs[k]];
    var mid := WriterAfterAll(w, a);
    assert gs[..k + 1] == a + b;
    EncodeAllAppend(w, size, a, b);
    assert b[0] == gs[k] && b[1..] == [];
    assert WriterAfterAll(mid, b) == WriterAfterAll(WriterAfter(mid, gs[k]), []);
    assert EncodeAll(mid, size, b) == Encode(mid, size, gs[k]) + [];
  }
}
