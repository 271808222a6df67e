/** H.264 over RTP: single NAL units, FU-A fragments (section 5.8 of RFC 6184) and the resend ring. */
module RtpVideo {
  import opened Bytes
  import opened Options

  const MAX_PACKET := 1400
  const HEADER_SIZE := 12
  const FRAGMENT := MAX_PACKET - HEADER_SIZE - 2
  const FU_A := 28

  /** What stays the same for the packets of one access unit. */
  datatype Unit = Unit(payloadType: nat, timestamp: nat, ssrc: nat)

  datatype Packet = Packet(data: seq<byte>, index: nat)

  /** Rtp::EncodeHeader for version 2 without padding, extension or contributing sources. */
  function Header(u: Unit, marker: bool, seqNo: nat): (s: seq<byte>)
    requires u.payloadType < 128
    ensures |s| == HEADER_SIZE
  {
    [0x80, (if marker then 128 else 0) + u.payloadType, seqNo / 256 % 256, seqNo % 256] + PutU32(u.timestamp) +
    PutU32(u.ssrc)
  }

  function Single(u: Unit, nal: seq<byte>, last: bool, seqNo: nat): Packet
    requires u.payloadType < 128
  {
    Packet(Header(u, last, seqNo) + nal, seqNo)
  }

  function FuIndicator(kind: byte): byte {
    kind as int / 32 % 4 * 32 + FU_A
  }

  function FuHeader(kind: byte, start: bool, last: bool): byte {
    kind as int % 32 + if start then 128 else if last then 64 else 0
  }

  function Fragment(u: Unit, kind: byte, data: seq<byte>, start: bool, last: bool, seqNo: nat): Packet
    requires u.payloadType < 128
  {
    Packet(Header(u, last, seqNo) + [FuIndicator(kind), FuHeader(kind, start, last)] + data, seqNo)
  }

  /** The fragments of a NAL unit with first byte `kind`; the last packet used number `seqNo`. */
  function Fragments(u: Unit, kind: byte, data: seq<byte>, start: bool, seqNo: nat): seq<Packet>
    requires u.payloadType < 128
    decreases |data|
  {
    if data == [] then []
    else if |data| <= FRAGMENT then [Fragment(u, kind, data, start, true, seqNo + 1)]
    else
      [Fragment(u, kind, data[..FRAGMENT], start, false, seqNo + 1)] +
      Fragments(u, kind, data[FRAGMENT..], false, seqNo + 1)
  }

  predicate Oversize(nal: seq<byte>) {
    HEADER_SIZE + |nal| > MAX_PACKET
  }

  function NalPackets(u: Unit, nal: seq<byte>, last: bool, seqNo: nat): seq<Packet>
    requires u.payloadType < 128
  {
    if Oversize(nal) then Fragments(u, nal[0], nal[1..], true, seqNo) else [Single(u, nal, last, seqNo + 1)]
  }

  /** The packets of the first `k` NAL units of an access unit. */
  function UnitPackets(u: Unit, nals: seq<seq<byte>>, k: nat, seqNo: nat): seq<Packet>
    requires u.payloadType < 128 && k <= |nals|
    decreases k
  {
    if k == 0 then []
    else
      var ps := UnitPackets(u, nals, k - 1, seqNo);
      ps + NalPackets(u, nals[k - 1], k == |nals|, seqNo + |ps|)
  }

  class RtpH264 {
    const payloadType: nat
    const ssrc: nat
    var sequence: nat
    var timestamp: nat

    constructor (pt: nat, source: nat)
      ensures payloadType == pt && ssrc == source && sequence == 0
    {
      payloadType, ssrc, sequence, timestamp := pt, source, 0, 0;
    }

    function Now(): Unit
      reads this
    {
      Unit(payloadType, timestamp, ssrc)
    }

    method EncodeSingle(nal: seq<byte>, last: bool, outs: seq<Packet>) returns (r: seq<Packet>)
      requires payloadType < 128
      modifies `sequence
      ensures r == outs + [Single(Now(), nal, last, old(sequence) + 1)] && sequence == old(sequence) + 1
    {
      sequence := sequence + 1;
      r := outs + [Packet(Header(Now(), last, sequence) + nal, sequence)];
    }

    method EncodeFua(nal: seq<byte>, outs: seq<Packet>) returns (r: seq<Packet>)
      requires payloadType < 128 && nal != []
      modifies `sequence
      ensures r == outs + Fragments(Now(), nal[0], nal[1..], true, old(sequence))
      ensures sequence == old(sequence) + |r| - |outs|
    {
      hide Header, FuIndicator, FuHeader;
      var kind := nal[0];
      var data := nal[1..];
      var start := true;
      r := outs;
      while |data| > 0
        invariant sequence == old(sequence) + |r| - |outs|
        invariant r + Fragments(Now(), kind, data, start, sequence) ==
                  outs + Fragments(Now(), kind, nal[1..], true, old(sequence))
        decreases |data|
      {
        var packetSize := HEADER_SIZE + 2 + |data|;
        if packetSize > MAX_PACKET {
          packetSize := MAX_PACKET;
        }
        var payloadSize := packetSize - 2 - HEADER_SIZE;
        sequence := sequence + 1;
        var marker := |data| <= payloadSize;
        var fuHeader: byte := kind as int % 32;
        if start {
          fuHeader := fuHeader as int + 0x80;
        } else if |data| <= payloadSize {
          fuHeader := fuHeader as int + 0x40;
        }
        FuHeaderIs(kind, start, marker, fuHeader);
        var headers := Header(Now(), marker, sequence) + [FuIndicator(kind), fuHeader];
        var packet := Packet(headers + data[..payloadSize], sequence);
        FirstFragment(Now(), kind, data, start, sequence - 1);
        assert packet == Fragment(Now(), kind, data[..payloadSize], start, marker, sequence);
        r, data, start := r + [packet], data[payloadSize..], false;
      }
    }

    /** RtpH264::Encode for one access unit; `ts` is in milliseconds. */
    method Encode(ins: seq<seq<byte>>, ts: nat) returns (outs: seq<Packet>)
      requires payloadType < 128
      modifies this
      ensures timestamp == ts * 90
      ensures outs == UnitPackets(Now(), ins, |ins|, old(sequence)) && sequence == old(sequence) + |outs|
    {
      hide Header, Fragments;
      timestamp := ts * 90;
      outs := [];
      var i := 0;
      while i < |ins|
        invariant 0 <= i <= |ins| && timestamp == ts * 90
        invariant outs == UnitPackets(Now(), ins, i, old(sequence)) && sequence == old(sequence) + |outs|
      {
        if HEADER_SIZE + |ins[i]| > MAX_PACKET {
          outs := EncodeFua(ins[i], outs);
        } else {
          var marker := i + 1 == |ins|;
          outs := EncodeSingle(ins[i], marker, outs);
        }
        i := i + 1;
      }
    }
  }

  lemma FuHeaderIs(kind: byte, start: bool, last: bool, b: byte)
    requires b as int == kind as int % 32 + if start then 0x80 else if last then 0x40 else 0
    ensures FuHeader(kind, start, last) == b
  {
  }

  lemma FirstFragment(u: Unit, kind: byte, data: seq<byte>, start: bool, seqNo: nat)
    requires u.payloadType < 128 && data != []
    ensures var n := if |data| <= FRAGMENT then |data| else FRAGMENT;
            Fragments(u, kind, data, start, seqNo) ==
            [Fragment(u, kind, data[..n], start, |data| <= FRAGMENT, seqNo + 1)] +
            Fragments(u, kind, data[n..], false, seqNo + 1)
  {
    hide Fragment;
    if |data| <= FRAGMENT {
      assert data[..|data|] == data;
    }
  }

  // ---- The receiver ----

  function Marker(p: Packet): bool
    requires |p.data| >= HEADER_SIZE
  {
    p.data[1] >= 128
  }

  function SeqNo(p: Packet): nat
    requires |p.data| >= HEADER_SIZE
  {
    U16(p.data[2..])
  }

  /** A receiver with the fragments of an unfinished NAL unit, and the NAL units it has. */
  datatype Receiver = Receiver(open: bool, partial: seq<byte>, nals: seq<seq<byte>>)

  const EMPTY := Receiver(false, [], [])

  predicate IsFragment(b: seq<byte>) {
    |b| >= 2 && b[0] as int % 32 == 28
  }

  predicate Starts(b: seq<byte>)
    requires IsFragment(b)
  {
    b[1] >= 128
  }

  predicate Ends(b: seq<byte>)
    requires IsFragment(b)
  {
    b[1] as int / 64 % 2 == 1
  }

  /** Section 5.8 of RFC 6184: the NAL header is the indicator's F and NRI bits with the type of the FU header. */
  function Take(r: Receiver, b: seq<byte>): Receiver {
    if IsFragment(b) then
      var header: byte := b[0] as int / 32 * 32 + b[1] as int % 32;
      var partial := if Starts(b) then [header] + b[2..] else r.partial + b[2..];
      if !Starts(b) && !r.open then r
      else if Ends(b) then Receiver(false, [], r.nals + [partial])
      else Receiver(true, partial, r.nals)
    else if |b| > 0 && 1 <= b[0] as int % 32 <= 23 then Receiver(false, [], r.nals + [b])
    else r
  }

  function Payload(p: Packet): seq<byte> {
    if |p.data| >= HEADER_SIZE then p.data[HEADER_SIZE..] else []
  }

  function Receive(r: Receiver, ps: seq<Packet>): Receiver
    decreases |ps|
  {
    if ps == [] then r else Take(Receive(r, ps[..|ps| - 1]), Payload(ps[|ps| - 1]))
  }

  lemma {:induction false} ReceiveAppend(r: Receiver, a: seq<Packet>, b: seq<Packet>)
    ensures Receive(r, a + b) == Receive(Receive(r, a), b)
    decreases |b|
  {
    hide Take, Payload;
    if b == [] {
      assert a + b == a;
    } else {
      ReceiveAppend(r, a, b[..|b| - 1]);
      assert (a + b)[..|a + b| - 1] == a + b[..|b| - 1];
    }
  }

  lemma ReceiveOne(r: Receiver, p: Packet)
    ensures Receive(r, [p]) == Take(r, Payload(p))
  {
    hide Take, Payload;
    assert [p][..0] == [];
    assert Receive(r, []) == r;
  }

  /** Version 2 and nothing optional, the payload type, time stamp and source, as a receiver finds them. */
  predicate Stamped(u: Unit, p: Packet) {
    |p.data| >= 12 && p.data[0] == 0x80 && p.data[1] as int % 128 == u.payloadType &&
    U32(p.data[4..]) == u.timestamp % 0x1_0000_0000 && U32(p.data[8..]) == u.ssrc % 0x1_0000_0000
  }

  lemma HeaderStamped(u: Unit, marker: bool, seqNo: nat, body: seq<byte>)
    requires u.payloadType < 128
    ensures Stamped(u, Packet(Header(u, marker, seqNo) + body, seqNo))
  {
    var s := Header(u, marker, seqNo) + body;
    var t, x := PutU32(u.timestamp), PutU32(u.ssrc);
    assert s[4..] == t + (x + body) && s[8..] == x + body;
    NumberBack(u.timestamp, x + body);
    NumberBack(u.ssrc, body);
    hide PutU32, U32;
  }

  lemma NumberBack(v: nat, rest: seq<byte>)
    ensures U32(PutU32(v) + rest) == v % 0x1_0000_0000
  {
    WrapsAround(v);
    ReadPrefix(PutU32(v), rest);
    hide PutU32, U32;
  }

  lemma WrapsAround(v: nat)
    ensures U32(PutU32(v)) == v % 0x1_0000_0000
  {
    var a := v / 256;
    var b := a / 256;
    var c := b / 256;
    assert v / 65536 == b && v / 16777216 == c;
    var low := c % 256 * 16777216 + b % 256 * 65536 + a % 256 * 256 + v % 256;
    assert v == c / 256 * 0x1_0000_0000 + low;
    RestOf(v, c / 256, low);
  }

  lemma RestOf(v: nat, q: nat, low: nat)
    requires v == q * 0x1_0000_0000 + low && low < 0x1_0000_0000
    ensures v % 0x1_0000_0000 == low
  {
  }

  lemma SinglePayload(u: Unit, nal: seq<byte>, last: bool, seqNo: nat)
    requires u.payloadType < 128
    ensures var p := Single(u, nal, last, seqNo);
            p.index == seqNo && Payload(p) == nal && Marker(p) == last && SeqNo(p) == seqNo % 65536 &&
            |p.data| == 12 + |nal| && Stamped(u, p)
  {
    HeaderStamped(u, last, seqNo, nal);
    hide Stamped;
    ByteSplit(seqNo);
  }

  lemma FragmentPayload(u: Unit, kind: byte, data: seq<byte>, start: bool, last: bool, seqNo: nat)
    requires u.payloadType < 128
    ensures var p := Fragment(u, kind, data, start, last, seqNo);
            Payload(p) == [FuIndicator(kind), FuHeader(kind, start, last)] + data &&
            Marker(p) == last && SeqNo(p) == seqNo % 65536 && |p.data| == 14 + |data| && Stamped(u, p)
  {
    hide FuIndicator, FuHeader, Stamped;
    HeaderStamped(u, last, seqNo, [FuIndicator(kind), FuHeader(kind, start, last)] + data);
    assert Header(u, last, seqNo) + ([FuIndicator(kind), FuHeader(kind, start, last)] + data) ==
           Header(u, last, seqNo) + [FuIndicator(kind), FuHeader(kind, start, last)] + data;
    ByteSplit(seqNo);
  }

  lemma ByteSplit(v: nat)
    ensures v / 256 % 256 * 256 + v % 256 == v % 65536
  {
  }

  lemma IndicatorBits(kind: byte)
    ensures FuIndicator(kind) as int % 32 == FU_A && FuIndicator(kind) as int / 32 == kind as int / 32 % 4
  {
    var nri := kind as int / 32 % 4;
    assert (nri * 32 + 28) / 32 == nri;
  }

  lemma HeaderBits(kind: byte, start: bool, last: bool)
    ensures FuHeader(kind, start, last) as int % 32 == kind as int % 32
    ensures FuHeader(kind, start, last) >= 128 <==> start
    ensures FuHeader(kind, start, last) as int / 64 % 2 == 1 <==> last && !start
  {
    var c := kind as int % 32;
    assert (c + 128) / 64 == 2 && (c + 64) / 64 == 1 && c / 64 == 0;
    assert (c + 128) % 32 == c && (c + 64) % 32 == c;
  }

  lemma FuBits(kind: byte, start: bool, last: bool)
    ensures FuIndicator(kind) as int % 32 == FU_A
    ensures FuIndicator(kind) as int / 32 * 32 + FuHeader(kind, start, last) as int % 32 == kind as int % 128
    ensures FuHeader(kind, start, last) >= 128 <==> start
    ensures FuHeader(kind, start, last) as int / 64 % 2 == 1 <==> last && !start
  {
    hide FuIndicator, FuHeader;
    IndicatorBits(kind);
    HeaderBits(kind, start, last);
    LowSeven(kind);
  }

  lemma LowSeven(kind: byte)
    ensures kind as int / 32 % 4 * 32 + kind as int % 32 == kind as int % 128
  {
  }

  /** What a fragment does to the receiver. */
  lemma TakeFragment(r: Receiver, u: Unit, kind: byte, data: seq<byte>, start: bool, last: bool, seqNo: nat)
    requires u.payloadType < 128 && (start ==> !last) && (start || r.open)
    ensures var partial := if start then [(kind as int % 128) as byte] + data else r.partial + data;
            Take(r, Payload(Fragment(u, kind, data, start, last, seqNo))) ==
            if last then Receiver(false, [], r.nals + [partial]) else Receiver(true, partial, r.nals)
  {
    hide FuIndicator, FuHeader, Payload, Fragment;
    FragmentPayload(u, kind, data, start, last, seqNo);
    FuBits(kind, start, last);
    var b := [FuIndicator(kind), FuHeader(kind, start, last)] + data;
    assert b[2..] == data;
  }

  /** The remaining fragments complete the NAL unit. */
  lemma {:induction false} FragmentsReceived(r: Receiver, u: Unit, kind: byte, data: seq<byte>, seqNo: nat)
    requires u.payloadType < 128 && r.open && data != []
    ensures Receive(r, Fragments(u, kind, data, false, seqNo)) == Receiver(false, [], r.nals + [r.partial + data])
    decreases |data|
  {
    hide Take, Payload, Fragment;
    if |data| <= FRAGMENT {
      TakeFragment(r, u, kind, data, false, true, seqNo + 1);
      ReceiveOne(r, Fragment(u, kind, data, false, true, seqNo + 1));
    } else {
      var p := Fragment(u, kind, data[..FRAGMENT], false, false, seqNo + 1);
      TakeFragment(r, u, kind, data[..FRAGMENT], false, false, seqNo + 1);
      ReceiveOne(r, p);
      var r1 := Receive(r, [p]);
      FragmentsReceived(r1, u, kind, data[FRAGMENT..], seqNo + 1);
      ReceiveAppend(r, [p], Fragments(u, kind, data[FRAGMENT..], false, seqNo + 1));
      assert r.partial + data[..FRAGMENT] + data[FRAGMENT..] == r.partial + data;
    }
  }

  /** What the receiver makes of a NAL unit: fragmentation does not carry the F bit. */
  function Received(nal: seq<byte>): seq<byte>
    requires nal != []
  {
    if Oversize(nal) then [(nal[0] as int % 128) as byte] + nal[1..] else nal
  }

  predicate Plain(nal: seq<byte>) {
    nal != [] && (Oversize(nal) || 1 <= nal[0] as int % 32 <= 23)
  }

  lemma NalReceived(r: Receiver, u: Unit, nal: seq<byte>, last: bool, seqNo: nat)
    requires u.payloadType < 128 && Plain(nal) && !r.open && r.partial == []
    ensures Receive(r, NalPackets(u, nal, last, seqNo)) == Receiver(false, [], r.nals + [Received(nal)])
  {
    hide Payload, Fragment, Single;
    if Oversize(nal) {
      var kind, data := nal[0], nal[1..];
      var p := Fragment(u, kind, data[..FRAGMENT], true, false, seqNo + 1);
      TakeFragment(r, u, kind, data[..FRAGMENT], true, false, seqNo + 1);
      ReceiveOne(r, p);
      var r1 := Receive(r, [p]);
      FragmentsReceived(r1, u, kind, data[FRAGMENT..], seqNo + 1);
      ReceiveAppend(r, [p], Fragments(u, kind, data[FRAGMENT..], false, seqNo + 1));
      var header := (kind as int % 128) as byte;
      assert [header] + data[..FRAGMENT] + data[FRAGMENT..] == [header] + data;
    } else {
      SinglePayload(u, nal, last, seqNo + 1);
      ReceiveOne(r, Single(u, nal, last, seqNo + 1));
    }
  }

  function ReceivedAll(nals: seq<seq<byte>>, k: nat): seq<seq<byte>>
    requires k <= |nals| && forall i :: 0 <= i < |nals| ==> nals[i] != []
    decreases k
  {
    if k == 0 then [] else ReceivedAll(nals, k - 1) + [Received(nals[k - 1])]
  }

  lemma ReceiveNone()
    ensures Receive(EMPTY, []) == EMPTY
  {
  }

  /** Every access unit: the receiver gets its NAL units, in order, and nothing else. */
  lemma {:induction false} UnitReceived(u: Unit, nals: seq<seq<byte>>, k: nat, seqNo: nat)
    requires u.payloadType < 128 && k <= |nals| && forall i :: 0 <= i < |nals| ==> nals[i] != [] && Plain(nals[i])
    ensures Receive(EMPTY, UnitPackets(u, nals, k, seqNo)) == Receiver(false, [], ReceivedAll(nals, k))
    decreases k
  {
    hide Receive, NalPackets, Received, Plain;
    if k == 0 {
      ReceiveNone();
    } else {
      var ps := UnitPackets(u, nals, k - 1, seqNo);
      UnitReceived(u, nals, k - 1, seqNo);
      NalReceived(Receive(EMPTY, ps), u, nals[k - 1], k == |nals|, seqNo + |ps|);
      ReceiveAppend(EMPTY, ps, NalPackets(u, nals[k - 1], k == |nals|, seqNo + |ps|));
    }
  }

  /** An access unit survives exactly if no fragmented NAL unit has its F bit set. */
  lemma {:induction false} UnitSurvives(nals: seq<seq<byte>>, k: nat)
    requires k <= |nals| && forall i :: 0 <= i < |nals| ==> nals[i] != []
    ensures |ReceivedAll(nals, k)| == k
    ensures ReceivedAll(nals, k) == nals[..k] <==> forall i :: 0 <= i < k && Oversize(nals[i]) ==> nals[i][0] < 128
    decreases k
  {
    if k > 0 {
      UnitSurvives(nals, k - 1);
      var nal := nals[k - 1];
      assert nals[..k] == nals[..k - 1] + [nal];
      assert Received(nal) == nal <==> (Oversize(nal) ==> nal[0] < 128) by {
        assert Received(nal)[0] == nal[0] ==> Received(nal) == nal;
      }
      assert ReceivedAll(nals, k)[k - 1] == Received(nal) && ReceivedAll(nals, k)[..k - 1] == ReceivedAll(nals, k - 1);
    }
  }

  // ---- The shape of the packets ----

  /** Consecutive numbers, the same time stamp and source, and no packet above 1400 bytes. */
  ghost predicate Numbered(u: Unit, ps: seq<Packet>, seqNo: nat) {
    forall i :: 0 <= i < |ps| ==>
      12 < |ps[i].data| <= 1400 && ps[i].index == seqNo + 1 + i && SeqNo(ps[i]) == ps[i].index % 65536 &&
      Stamped(u, ps[i])
  }

  /**
   * S on the first fragment only, E and the marker on the last only, and all but the last fill a packet of 1400 bytes.
   */
  ghost predicate FragmentShape(ps: seq<Packet>, start: bool) {
    forall i :: 0 <= i < |ps| ==>
      |ps[i].data| >= 12 && IsFragment(Payload(ps[i])) && (i < |ps| - 1 ==> |ps[i].data| == 1400) &&
      (Starts(Payload(ps[i])) <==> start && i == 0) &&
      (Ends(Payload(ps[i])) <==> i == |ps| - 1) && (Marker(ps[i]) <==> i == |ps| - 1)
  }

  lemma FragmentIs(u: Unit, kind: byte, data: seq<byte>, start: bool, last: bool, seqNo: nat)
    requires u.payloadType < 128 && (start ==> !last) && |data| <= FRAGMENT
    ensures var p := Fragment(u, kind, data, start, last, seqNo); var b := Payload(p);
            12 < |p.data| == 14 + |data| <= 1400 && p.index == seqNo && SeqNo(p) == seqNo % 65536 &&
            Marker(p) == last && Stamped(u, p) &&
            IsFragment(b) && Starts(b) == start && Ends(b) == last
  {
    hide FuIndicator, FuHeader, Payload, Marker, SeqNo, Stamped;
    FragmentPayload(u, kind, data, start, last, seqNo);
    FuBits(kind, start, last);
  }

  lemma {:induction false} FragmentsShaped(u: Unit, kind: byte, data: seq<byte>, start: bool, seqNo: nat)
    requires u.payloadType < 128 && (start ==> |data| > FRAGMENT)
    ensures var ps := Fragments(u, kind, data, start, seqNo);
            Numbered(u, ps, seqNo) && FragmentShape(ps, start) && (start ==> |ps| >= 2) && (data != [] ==> ps != [])
    decreases |data|
  {
    hide Fragment, Payload, Marker, SeqNo, IsFragment, Starts, Ends, Stamped;
    if data != [] {
      if |data| <= FRAGMENT {
        FragmentIs(u, kind, data, start, true, seqNo + 1);
      } else {
        FragmentIs(u, kind, data[..FRAGMENT], start, false, seqNo + 1);
        var rest := Fragments(u, kind, data[FRAGMENT..], false, seqNo + 1);
        FragmentsShaped(u, kind, data[FRAGMENT..], false, seqNo + 1);
        var ps := Fragments(u, kind, data, start, seqNo);
        assert forall i :: 0 < i < |ps| ==> ps[i] == rest[i - 1];
      }
    }
  }

  /** Only the last packet of an access unit and last fragments carry the marker. */
  ghost predicate Marked(ps: seq<Packet>, done: bool) {
    forall i :: 0 <= i < |ps| ==>
      |ps[i].data| >= 12 &&
      (Marker(ps[i]) <==> (done && i == |ps| - 1) || (IsFragment(Payload(ps[i])) && Ends(Payload(ps[i]))))
  }

  lemma NalShaped(u: Unit, nal: seq<byte>, last: bool, seqNo: nat)
    requires u.payloadType < 128 && Plain(nal)
    ensures var ps := NalPackets(u, nal, last, seqNo);
            ps != [] && Numbered(u, ps, seqNo) && Marked(ps, last) &&
            if |nal| <= 1388 then |ps| == 1 && Payload(ps[0]) == nal else |ps| >= 2 && FragmentShape(ps, true)
  {
    hide Fragments, Single, Payload, Marker, SeqNo, Ends, Stamped;
    if Oversize(nal) {
      FragmentsShaped(u, nal[0], nal[1..], true, seqNo);
    } else {
      SinglePayload(u, nal, last, seqNo + 1);
    }
  }

  /** Every access unit: consecutive numbers, sizes within the limit, and the marker on its last packet. */
  lemma {:induction false} UnitShaped(u: Unit, nals: seq<seq<byte>>, k: nat, seqNo: nat)
    requires u.payloadType < 128 && k <= |nals| && forall i :: 0 <= i < |nals| ==> Plain(nals[i])
    ensures var ps := UnitPackets(u, nals, k, seqNo);
            Numbered(u, ps, seqNo) && Marked(ps, k == |nals|) && |ps| >= k
    decreases k
  {
    hide NalPackets, Numbered, Marked;
    if k == 0 {
      NoPackets(u, seqNo);
    } else {
      var a := UnitPackets(u, nals, k - 1, seqNo);
      var b := NalPackets(u, nals[k - 1], k == |nals|, seqNo + |a|);
      UnitShaped(u, nals, k - 1, seqNo);
      NalShaped(u, nals[k - 1], k == |nals|, seqNo + |a|);
      JoinedShape(u, a, b, seqNo, k == |nals|);
    }
  }

  lemma NoPackets(u: Unit, seqNo: nat)
    ensures Numbered(u, [], seqNo) && forall done :: Marked([], done)
  {
  }

  lemma JoinedShape(u: Unit, a: seq<Packet>, b: seq<Packet>, seqNo: nat, done: bool)
    requires Numbered(u, a, seqNo) && Numbered(u, b, seqNo + |a|) && Marked(a, false) && Marked(b, done) && b != []
    ensures Numbered(u, a + b, seqNo) && Marked(a + b, done)
  {
    hide Payload, Marker, SeqNo, Ends, IsFragment, Stamped;
    var ps := a + b;
    assert forall i :: 0 <= i < |a| ==> ps[i] == a[i];
    assert forall i :: |a| <= i < |ps| ==> ps[i] == b[i - |a|];
  }

  // ---- The resend ring ----

  const RING := 500

  /** The packet with index `idx` in a list of all packets sent so far. */
  ghost predicate Sent(ps: seq<Packet>, seqNo: nat, idx: nat) {
    seqNo < idx <= seqNo + |ps|
  }

  /** The newest of the packets sent that uses slot `k`. */
  function SlotOf(ps: seq<Packet>, k: nat): Option<Packet>
    decreases |ps|
  {
    if ps == [] then None
    else if ps[|ps| - 1].index % RING == k then Some(ps[|ps| - 1])
    else SlotOf(ps[..|ps| - 1], k)
  }

  class ResendRing {
    const queue: array<Option<Packet>>
    ghost var sent: seq<Packet>

    ghost predicate Valid()
      reads this, queue
    {
      queue.Length == RING && forall k :: 0 <= k < RING ==> queue[k] == SlotOf(sent, k)
    }

    constructor ()
      ensures Valid() && fresh(queue) && sent == []
    {
      queue := new Option<Packet>[RING](_ => None);
      sent := [];
    }

    method Add(pkt: Packet)
      requires Valid()
      modifies this, queue
      ensures Valid() && sent == old(sent) + [pkt]
    {
      var index := pkt.index % RING;
      queue[index] := Some(pkt);
      assert (sent + [pkt])[..|sent + [pkt]| - 1] == sent;
      sent := sent + [pkt];
    }

    method Get(idx: nat) returns (pkt: Option<Packet>)
      requires Valid()
      ensures pkt == Found(sent, idx)
    {
      var index := idx % RING;
      pkt := queue[index];
      if pkt.Some? && pkt.value.index == idx {
        return pkt;
      }
      return None;
    }
  }

  function Found(ps: seq<Packet>, idx: nat): Option<Packet> {
    var p := SlotOf(ps, idx % RING);
    if p.Some? && p.value.index == idx then p else None
  }

  ghost predicate Consecutive(ps: seq<Packet>, seqNo: nat) {
    forall i :: 0 <= i < |ps| ==> ps[i].index == seqNo + 1 + i
  }

  /** The ring finds exactly the last 500 packets. */
  lemma {:induction false} RingLaw(ps: seq<Packet>, seqNo: nat, idx: nat)
    requires Consecutive(ps, seqNo)
    ensures Found(ps, idx).Some? <==> Sent(ps, seqNo, idx) && idx > seqNo + |ps| - 500
    ensures Found(ps, idx).Some? ==> Found(ps, idx).value == ps[idx - seqNo - 1]
  {
    SlotAt(ps, seqNo, idx);
  }

  /** Looking back from the newest packet, the first one in the slot of `idx`. */
  lemma {:induction false} SlotAt(ps: seq<Packet>, seqNo: nat, idx: nat)
    requires Consecutive(ps, seqNo)
    ensures Sent(ps, seqNo, idx) && idx > seqNo + |ps| - RING ==> SlotOf(ps, idx % RING) == Some(ps[idx - seqNo - 1])
    ensures idx > seqNo + |ps| ==> Found(ps, idx) == None
    ensures idx <= seqNo ==> Found(ps, idx) == None
    ensures idx <= seqNo + |ps| - RING ==> Found(ps, idx) == None
    decreases |ps|
  {
    hide Consecutive;
    if ps != [] {
      var n := |ps| - 1;
      LastIndex(ps, seqNo);
      SlotAt(ps[..n], seqNo, idx);
      SameSlot(ps[n].index, idx);
      if ps[n].index % RING == idx % RING {
        assert SlotOf(ps, idx % RING) == Some(ps[n]);
      } else {
        assert SlotOf(ps, idx % RING) == SlotOf(ps[..n], idx % RING);
      }
    }
  }

  lemma LastIndex(ps: seq<Packet>, seqNo: nat)
    requires Consecutive(ps, seqNo) && ps != []
    ensures ps[|ps| - 1].index == seqNo + |ps| && Consecutive(ps[..|ps| - 1], seqNo)
  {
  }

  lemma SameSlot(a: nat, b: nat)
    ensures a % RING == b % RING && -RING < a - b < RING ==> a == b
  {
  }

  /**
   * A resend request names a packet by 16 bits, so the ring answers it exactly for recent packets numbered below 65536.
   */
  lemma RequestLaw(ps: seq<Packet>, seqNo: nat, idx: nat)
    requires Consecutive(ps, seqNo) && Sent(ps, seqNo, idx)
    ensures Found(ps, idx % 65536) == Some(ps[idx - seqNo - 1]) <==> idx > seqNo + |ps| - 500 && idx < 65536
  {
    RingLaw(ps, seqNo, idx % 65536);
    if Found(ps, idx % 65536).Some? {
      assert Found(ps, idx % 65536).value.index == idx % 65536;
    }
  }
}
