/** A transport stream demultiplexer, and what it makes of the encoders' packets. */
module TsDemux {
  import opened Bytes
  import opened Options
  import opened TsPackets

  function PidOf(p: seq<byte>): nat
    requires |p| == PACKET_SIZE
  {
    p[1] as int % 32 * 256 + p[2] as int
  }

  predicate StartOf(p: seq<byte>)
    requires |p| == PACKET_SIZE
  {
    p[1] as int / 64 % 2 == 1
  }

  function CcOf(p: seq<byte>): nat
    requires |p| == PACKET_SIZE
  {
    p[3] as int % 16
  }

  predicate HasAdaptation(p: seq<byte>)
    requires |p| == PACKET_SIZE
  {
    p[3] as int / 32 % 2 == 1
  }

  /** The bytes after the header and the adaptation field. */
  function PayloadOf(p: seq<byte>): seq<byte>
    requires |p| == PACKET_SIZE
  {
    if !HasAdaptation(p) then p[4..]
    else if 5 + p[4] as int <= PACKET_SIZE then p[5 + p[4] as int..]
    else []
  }

  function PcrOf(p: seq<byte>): Option<nat>
    requires |p| == PACKET_SIZE
  {
    if HasAdaptation(p) && p[4] >= 7 && p[5] as int / 16 % 2 == 1 then Some(GetPcr(p[6..12])) else None
  }

  /** Payloads gathered unit by unit: what precedes the first start flag, then one unit for every start flag. */
  datatype Units = Units(lead: seq<byte>, units: seq<seq<byte>>)

  function First(ps: seq<seq<byte>>): (p: seq<byte>)
    requires ps != [] && forall p :: p in ps ==> |p| == PACKET_SIZE
    ensures p == ps[0] && |p| == PACKET_SIZE
  {
    assert ps[0] in ps;
    ps[0]
  }

  function Gather(ps: seq<seq<byte>>): Units
    requires forall p :: p in ps ==> |p| == PACKET_SIZE
    decreases |ps|
  {
    if ps == [] then Units([], [])
    else
      var p, g := First(ps), Gather(ps[1..]);
      if StartOf(p) then Units([], [PayloadOf(p) + g.lead] + g.units) else Units(PayloadOf(p) + g.lead, g.units)
  }

  /** A PES packet taken apart. */
  datatype Pes = Pes(sid: byte, length: nat, pts: nat, dts: nat, data: seq<byte>)

  /** Five bytes of a time stamp with this prefix and all marker bits set. */
  predicate Marked(s: seq<byte>, prefix: nat)
    requires |s| >= 5
  {
    s[0] as int / 16 == prefix && s[0] as int % 2 == 1 && s[2] as int % 2 == 1 && s[4] as int % 2 == 1
  }

  /** A header is taken if all of its fixed bits are as section 2.4.3.7 has them. */
  function ParsePes(u: seq<byte>): Option<Pes> {
    if |u| < 14 || u[..3] != [0, 0, 1] || |u| < 9 + u[8] as int || u[6] != 0x80 then None
    else
      var len := u[4] as int * 256 + u[5] as int;
      var data := u[9 + u[8] as int..];
      if u[7] == 0xc0 && u[8] == 10 && Marked(u[9..14], 3) && Marked(u[14..19], 1) then
        Some(Pes(u[3], len, GetPts(u[9..14]), GetPts(u[14..19]), data))
      else if u[7] == 0x80 && u[8] == 5 && Marked(u[9..14], 2) then
        Some(Pes(u[3], len, GetPts(u[9..14]), GetPts(u[9..14]), data))
      else None
  }

  lemma PtsMarked(fourbits: nat, pts: int)
    requires fourbits < 16
    ensures Marked(PutPts(fourbits, pts), fourbits)
  {
    PtsLayout(fourbits, pts);
    hide PutPts;
  }

  /** The PES header is read back exactly, up to the 33-bit wrap of its time stamps. */
  lemma PesHeaderRead(sid: byte, size: nat, pts: int, dts: int, data: seq<byte>)
    ensures var optional := if pts != dts then 10 else 5;
            ParsePes(PesHeader(sid, size, pts, dts) + data) ==
            Some(Pes(sid, if size + optional + 3 > 0xffff then 0 else size + optional + 3, pts % TWO33, dts % TWO33,
                     data))
  {
    hide PutPts, GetPts, Marked;
    var u := PesHeader(sid, size, pts, dts) + data;
    assert u[..3] == [0, 0, 1];
    if pts != dts {
      PtsRoundTrip(3, pts);
      PtsRoundTrip(1, dts);
      PtsMarked(3, pts);
      PtsMarked(1, dts);
      assert u[9..14] == PutPts(3, pts) && u[14..19] == PutPts(1, dts) && u[19..] == data;
    } else {
      PtsRoundTrip(2, pts);
      PtsMarked(2, pts);
      assert u[9..14] == PutPts(2, pts) && u[14..] == data;
    }
  }

  /** The fixed parts of a packet with payload: sync byte, flags, adaptation field length, reserved bits, filler. */
  predicate Sound188(p: seq<byte>)
    requires |p| == PACKET_SIZE
  {
    p[0] == 0x47 && p[1] as int / 32 % 2 == 0 && p[1] < 0x80 && p[3] as int / 64 == 0 && p[3] as int / 16 % 2 == 1 &&
    (p[3] as int / 32 % 2 == 1 ==> SoundField(p[4..]))
  }

  /** Its length byte, its flags, a PCR if the flags say so, and filler to its end. */
  predicate SoundField(a: seq<byte>) {
    |a| > 0 && a[0] as int < |a| &&
    (a[0] > 0 ==> a[1] == 0 || (a[1] == 0x10 && a[0] >= 7 && a[6] as int % 128 == 126 && a[7] == 0)) &&
    (a[0] > 0 ==> forall i :: (if a[1] == 0 then 2 else 8) <= i <= a[0] as int ==> a[i] == 0xff)
  }

  lemma FieldSound(pcr: Option<int>, stuffing: nat, body: seq<byte>)
    requires stuffing <= 183 && (pcr.Some? || stuffing > 0)
    ensures SoundField(Adaptation(pcr, stuffing) + body)
  {
    if pcr.Some? {
      PcrLayout(pcr.value);
      var a := [7 + stuffing, 0x10] + PutPcr(pcr.value) + Fill(stuffing, 0xff);
      assert forall i :: 8 <= i < 8 + stuffing ==> a[i] == 0xff;
    }
    hide PutPcr;
  }

  lemma HeaderFields(pid: nat, start: bool, af: bool, cc: nat, rest: seq<byte>)
    requires pid < 0x2000 && cc < 16 && |rest| == PACKET_SIZE - 4
    ensures var p := TsHeader(pid, start, af, cc) + rest;
            p[0] == 0x47 && PidOf(p) == pid && StartOf(p) == start && CcOf(p) == cc && HasAdaptation(p) == af
  {
  }

  /**
   * The length byte of an adaptation field counts the bytes after it, and its flags announce a PCR only if there is
   * one.
   */
  lemma AdaptationShape(pcr: Option<int>, stuffing: nat)
    requires stuffing <= 183
    ensures var a := Adaptation(pcr, stuffing);
            (a == [] <==> pcr.None? && stuffing == 0) &&
            (a != [] ==> a[0] as int + 1 == |a|) && (|a| >= 2 ==> a[1] == if pcr.Some? then 0x10 else 0) &&
            (pcr.Some? ==> a[2..8] == PutPcr(pcr.value))
  {
  }

  /** How a demultiplexer finds its way through header, adaptation field and payload. */
  lemma LayoutRead(h: seq<byte>, a: seq<byte>, body: seq<byte>)
    requires |h| == 4 && |h + a + body| == PACKET_SIZE
    requires HasAdaptation(h + a + body) <==> a != []
    requires a != [] ==> a[0] as int + 1 == |a|
    ensures PayloadOf(h + a + body) == body
    ensures PcrOf(h + a + body) == if |a| >= 8 && a[1] as int / 16 % 2 == 1 then Some(GetPcr(a[2..8])) else None
  {
    hide HasAdaptation, GetPcr;
    var p := h + a + body;
    assert p[4..] == a + body;
    assert p[4 + |a|..] == body;
    if a != [] {
      assert p[4] == a[0];
      if |a| >= 8 {
        assert p[5] == a[1] && p[6..12] == a[2..8];
      }
    }
  }

  lemma PacketSound(pid: nat, start: bool, pcr: Option<int>, stuffing: nat, cc: nat, body: seq<byte>)
    requires pid < 0x2000 && cc < 16 && stuffing <= 183
    requires |body| == PACKET_SIZE - 4 - stuffing - (if pcr.Some? then 8 else 0)
    ensures Sound188(TsHeader(pid, start, pcr.Some? || stuffing > 0, cc) + (Adaptation(pcr, stuffing) + body))
  {
    hide TsHeader, Adaptation, SoundField;
    var h, a := TsHeader(pid, start, pcr.Some? || stuffing > 0, cc), Adaptation(pcr, stuffing);
    TsHeaderLayout(pid, start, pcr.Some? || stuffing > 0, cc);
    assert (h + (a + body))[4..] == a + body;
    if pcr.Some? || stuffing > 0 {
      FieldSound(pcr, stuffing, body);
    }
  }

  /** A packet's fields are read back; the pid is a 13-bit number, as it is once SetPid has been called. */
  lemma PacketRead(pid: nat, start: bool, cc: nat, pcr: Option<int>, pes: seq<byte>, data: seq<byte>)
    requires pid < 0x2000 && cc < 16 && |pes| <= 19 && data != [] && (start || pcr.None?)
    ensures var p := Packet(pid, start, cc, pcr, pes, data);
            Sound188(p) && p[0] == 0x47 && PidOf(p) == pid && StartOf(p) == start && CcOf(p) == cc &&
            PayloadOf(p) == pes + data[..Take(pcr, pes, data)] &&
            PcrOf(p) == if pcr.Some? then Some(pcr.value % TWO33) else None
  {
    hide TsHeader, Adaptation, PidOf, StartOf, CcOf, HasAdaptation, PayloadOf, PcrOf, GetPcr, PutPcr, Sound188,
         SoundField;
    var n := Take(pcr, pes, data);
    var stuffing := Room(pcr, pes) - n;
    var h := TsHeader(pid, start, pcr.Some? || stuffing > 0, cc);
    var a := Adaptation(pcr, stuffing);
    var body := pes + data[..n];
    assert Packet(pid, start, cc, pcr, pes, data) == h + a + body;
    assert h + a + body == h + (a + body);
    HeaderFields(pid, start, pcr.Some? || stuffing > 0, cc, a + body);
    AdaptationShape(pcr, stuffing);
    LayoutRead(h, a, body);
    PacketSound(pid, start, pcr, stuffing, cc, body);
    if pcr.Some? {
      PcrRoundTrip(pcr.value);
    }
  }

  /** The start flag as a demultiplexer reads it from a packet with any 16-bit pid: bit 14 of the pid shows through. */
  lemma StartFlagRead(pid: nat, start: bool, cc: nat, pcr: Option<int>, pes: seq<byte>, data: seq<byte>)
    requires pid < 0x10000 && cc < 16 && |pes| <= 19 && data != [] && (start || pcr.None?)
    ensures StartOf(Packet(pid, start, cc, pcr, pes, data)) <==> start || pid / 0x4000 % 2 == 1
  {
    var x := pid / 256;
    assert pid / 0x4000 == x / 64;
    var n := Take(pcr, pes, data);
    var p := Packet(pid, start, cc, pcr, pes, data);
    assert p[1] == TsHeader(pid, start, pcr.Some? || Room(pcr, pes) - n > 0, cc)[1];
  }

  /** Continuity counters of a run of packets after one numbered `cc`, all carrying `pid`. */
  ghost predicate Continuous(ps: seq<seq<byte>>, pid: nat, cc: int)
    requires forall p :: p in ps ==> |p| == PACKET_SIZE
  {
    forall i {:trigger ps[i]} :: 0 <= i < |ps| ==>
      ps[i][0] == 0x47 && PidOf(ps[i]) == pid && CcOf(ps[i]) == (cc + 1 + i) % 16
  }

  lemma {:induction false} PacketsContinuous(pid: nat, start: bool, cc: int, pcr: Option<int>, pes: seq<byte>,
                                             data: seq<byte>)
    requires pid < 0x2000 && |pes| <= 19 && (start || pcr.None?)
    ensures Continuous(Packets(pid, start, cc, pcr, pes, data), pid, cc)
    decreases |data|
  {
    hide Packet, Take, Room, PidOf, CcOf, PayloadOf, StartOf, PcrOf;
    if data != [] {
      var n := Take(pcr, pes, data);
      PacketRead(pid, start, NextCc(cc), pcr, pes, data);
      PacketsContinuous(pid, false, NextCc(cc), None, [], data[n..]);
      OneMore(Packet(pid, start, NextCc(cc), pcr, pes, data), Packets(pid, false, NextCc(cc), None, [], data[n..]), pid,
        cc);
    }
  }

  lemma OneMore(p: seq<byte>, rest: seq<seq<byte>>, pid: nat, cc: int)
    requires |p| == PACKET_SIZE && forall q :: q in rest ==> |q| == PACKET_SIZE
    requires p[0] == 0x47 && PidOf(p) == pid && CcOf(p) == NextCc(cc) && Continuous(rest, pid, NextCc(cc))
    ensures Continuous([p] + rest, pid, cc)
  {
    hide PidOf, CcOf, NextCc;
    var ps := [p] + rest;
    CcAdds(cc, 0);
    forall i | 0 <= i < |ps| ensures ps[i][0] == 0x47 && PidOf(ps[i]) == pid && CcOf(ps[i]) == (cc + 1 + i) % 16 {
      if i > 0 {
        assert ps[i] == rest[i - 1];
        CcAdds(cc, i);
      }
    }
  }

  lemma CcAdds(cc: int, i: nat)
    ensures (NextCc(cc) + i) % 16 == (cc + 1 + i) % 16 && (i == 0 ==> NextCc(cc) == (cc + 1) % 16)
  {
  }

  lemma GatherCons(p: seq<byte>, ps: seq<seq<byte>>)
    requires |p| == PACKET_SIZE && forall q :: q in ps ==> |q| == PACKET_SIZE
    ensures var g := Gather(ps);
            Gather([p] + ps) ==
            if StartOf(p) then Units([], [PayloadOf(p) + g.lead] + g.units) else Units(PayloadOf(p) + g.lead, g.units)
  {
    hide StartOf, PayloadOf;
    assert ([p] + ps)[0] == p && ([p] + ps)[1..] == ps;
  }

  /** Packets without a start flag only add to the unit before them. */
  lemma {:induction false} ContinuationGathered(pid: nat, cc: int, data: seq<byte>, more: seq<seq<byte>>)
    requires pid < 0x2000 && forall p :: p in more ==> |p| == PACKET_SIZE
    ensures var g := Gather(more);
            Gather(Packets(pid, false, cc, None, [], data) + more) == Units(data + g.lead, g.units)
    decreases |data|
  {
    hide Packet, Take, Room, PidOf, CcOf, PayloadOf, StartOf, PcrOf, Gather;
    var g := Gather(more);
    if data == [] {
      assert [] + more == more && data + g.lead == g.lead;
    } else {
      var n := Take(None, [], data);
      var p := Packet(pid, false, NextCc(cc), None, [], data);
      var rest := Packets(pid, false, NextCc(cc), None, [], data[n..]);
      PacketRead(pid, false, NextCc(cc), None, [], data);
      ContinuationGathered(pid, NextCc(cc), data[n..], more);
      GatherCons(p, rest + more);
      assert [p] + rest + more == [p] + (rest + more);
      Rejoined(data, n, g.lead);
    }
  }

  lemma Rejoined(data: seq<byte>, n: nat, tail: seq<byte>)
    requires n <= |data|
    ensures [] + data[..n] + (data[n..] + tail) == data + tail
  {
  }

  /** The packets of one PES packet are gathered into exactly that PES packet. */
  lemma UnitGathered(pid: nat, cc: int, pcr: Option<int>, pes: seq<byte>, data: seq<byte>, more: seq<seq<byte>>)
    requires pid < 0x2000 && |pes| <= 19 && data != [] && forall p :: p in more ==> |p| == PACKET_SIZE
    requires Gather(more).lead == []
    ensures Gather(Packets(pid, true, cc, pcr, pes, data) + more) == Units([], [pes + data] + Gather(more).units)
  {
    hide Packet, Take, Room, PidOf, CcOf, PayloadOf, StartOf, PcrOf, Gather;
    var n := Take(pcr, pes, data);
    var p := Packet(pid, true, NextCc(cc), pcr, pes, data);
    var rest := Packets(pid, false, NextCc(cc), None, [], data[n..]);
    PacketRead(pid, true, NextCc(cc), pcr, pes, data);
    ContinuationGathered(pid, NextCc(cc), data[n..], more);
    GatherCons(p, rest + more);
    assert [p] + rest + more == [p] + (rest + more);
    assert (pes + data[..n]) + (data[n..] + []) == pes + data;
  }
}
