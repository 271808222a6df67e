/**
 * The packet loops of VideoEncoder::WriteVideoPes and AudioEncoder::WriteAudioPes over a 188-byte buffer. The two
 * loops are the same statement for statement; the audio one never marks a key frame and has one time stamp.
 */
module PesEncoders {
  import opened Bytes
  import opened Options
  import opened TsPackets

  /** The list of sample buffers as one byte string. */
  function Flat(samples: seq<seq<byte>>): seq<byte>
    decreases |samples|
  {
    if samples == [] then [] else samples[0] + Flat(samples[1..])
  }

  function CcAfter(cc: int, n: nat): int {
    if n == 0 then cc else (cc + n) % 16
  }

  /** Where packets go: a Fragment appends them to its data. */
  class StreamWriter {
    var packets: seq<seq<byte>>
    var sps: seq<byte>
    var pps: seq<byte>
    var spsPpsAppended: bool

    constructor ()
      ensures packets == [] && sps == [] && pps == [] && !spsPpsAppended
    {
      packets, sps, pps, spsPpsAppended := [], [], [], false;
    }

    method Write(buf: array<byte>)
      modifies this`packets
      ensures packets == old(packets) + [buf[..]]
    {
      packets := packets + [buf[..]];
    }
  }

  method MemSet(buf: array<byte>, at: nat, n: nat, v: byte)
    requires at + n <= buf.Length
    modifies buf
    ensures buf[..] == Overlay(old(buf[..]), at, Fill(n, v))
  {
    forall i | at <= i < at + n {
      buf[i] := v;
    }
  }

  lemma OverlayTail(head: seq<byte>, tail: seq<byte>, s: seq<byte>)
    requires |s| <= |tail|
    ensures Overlay(head + tail, |head|, s) == head + s + tail[|s|..]
  {
  }

  lemma FillTail(n: nat, k: nat, b: byte)
    requires k <= n
    ensures Fill(n, b)[k..] == Fill(n - k, b)
  {
  }

  /** Moving `back` up by `n` leaves a gap filled with what was there. */
  lemma ShiftUp(front: seq<byte>, back: seq<byte>, z: nat, n: nat)
    requires n <= z
    ensures Overlay(front + back + Fill(z, 0), |front| + n, back) ==
            front + (back + Fill(z, 0))[..n] + back + Fill(z - n, 0)
  {
    var s := front + (back + Fill(z, 0));
    assert front + back + Fill(z, 0) == s;
    assert s[..|front| + n] == front + (back + Fill(z, 0))[..n];
    assert s[|front| + n + |back|..] == Fill(z - n, 0);
  }

  lemma OverlayMiddle(front: seq<byte>, gap: seq<byte>, tail: seq<byte>, mid: seq<byte>)
    requires |gap| == |mid|
    ensures Overlay(front + gap + tail, |front|, mid) == front + mid + tail
  {
    assert (front + gap + tail)[..|front|] == front;
    assert (front + gap + tail)[|front| + |gap|..] == tail;
  }

  /** The layout of a packet head that carries a clock. */
  lemma ClockHead(pid: nat, start: bool, cc: nat, pcr: int, pes: seq<byte>, stuffing: nat)
    requires pid < 0x10000 && cc < 16 && |pes| <= 19 && stuffing <= Room(Some(pcr), pes) && stuffing <= 183
    ensures Head(pid, start, cc, Some(pcr), pes, stuffing) ==
            (TsHeader(pid, start, true, cc) + [7 + stuffing, 0x10] + PutPcr(pcr)) + Fill(stuffing, 0xff) + pes
  {
    hide PutPcr, TsHeader;
    var h := TsHeader(pid, start, true, cc);
    assert h + ([7 + stuffing, 0x10] + PutPcr(pcr) + Fill(stuffing, 0xff)) ==
           (h + [7 + stuffing, 0x10] + PutPcr(pcr)) + Fill(stuffing, 0xff);
  }

  lemma GrowField(h: seq<byte>, p: seq<byte>, n: byte, rest: seq<byte>, k: byte)
    requires |h| == 4
    ensures (h + [n, 0x10] + p + rest)[4] == n
    ensures (h + [n, 0x10] + p + rest)[4 := k] == h + [k, 0x10] + p + rest
  {
  }

  lemma OverlayBelow(s: seq<byte>, at: nat, a: seq<byte>, k: nat)
    requires at + |a| <= |s| && k < at
    ensures Overlay(s, at, a)[k] == s[k]
  {
  }

  lemma PlainHead(pid: nat, start: bool, cc: nat, pes: seq<byte>, stuffing: nat)
    requires pid < 0x10000 && cc < 16 && |pes| <= 19 && 0 < stuffing <= Room(None, pes) && stuffing <= 183
    ensures Head(pid, start, cc, None, pes, 0) == TsHeader(pid, start, false, cc) + pes
    ensures Head(pid, start, cc, None, pes, stuffing) ==
            TsHeader(pid, start, true, cc) + Adaptation(None, stuffing) + pes
  {
    hide TsHeader;
    assert TsHeader(pid, start, false, cc) + [] + pes == TsHeader(pid, start, false, cc) + pes;
  }

  lemma Associate(a: seq<byte>, b: seq<byte>, c: seq<byte>, d: seq<byte>)
    ensures a + b + c + d == a + b + (c + d) == a + (b + (c + d))
  {
  }

  /** Setting the adaptation flag in the fourth byte of a header. */
  lemma MarkField(pid: nat, start: bool, cc: nat, rest: seq<byte>)
    requires pid < 0x10000 && cc < 16
    ensures var s := TsHeader(pid, start, false, cc) + rest;
            s[3] == 0x10 + cc && s[3 := s[3] + 0x20] == TsHeader(pid, start, true, cc) + rest
  {
  }

  /** Growing an adaptation field with a clock by `n` filler bytes, in three writes. */
  lemma FieldGrown(h: seq<byte>, p: seq<byte>, pes: seq<byte>, z: nat, n: nat)
    requires |h| == 4 && |p| == 6 && n <= z && n <= 183
    ensures var s := h + [7, 0x10] + p + pes + Fill(z, 0);
            s[4] == 7 && s[12..12 + |pes|] == pes &&
            Overlay(Overlay(s, 12 + n, pes)[4 := 7 + n], 12, Fill(n, 0xff)) ==
            h + [7 + n, 0x10] + p + Fill(n, 0xff) + pes + Fill(z - n, 0)
  {
    hide Overlay, Fill;
    var front := h + [7, 0x10] + p;
    var grown := h + [7 + n, 0x10] + p;
    var gap := (pes + Fill(z, 0))[..n];
    var tail := pes + Fill(z - n, 0);
    ShiftUp(front, pes, z, n);
    assert front + gap + pes + Fill(z - n, 0) == front + (gap + tail);
    GrowField(h, p, 7, gap + tail, 7 + n);
    assert grown + (gap + tail) == grown + gap + tail;
    OverlayMiddle(grown, gap, tail, Fill(n, 0xff));
    assert grown + Fill(n, 0xff) + tail == grown + Fill(n, 0xff) + pes + Fill(z - n, 0);
  }

  /** Header bytes written so far, zeros behind them. */
  ghost predicate Holds(buf: array<byte>, head: seq<byte>)
    reads buf
  {
    buf.Length == PACKET_SIZE && |head| <= PACKET_SIZE && buf[..] == head + Fill(PACKET_SIZE - |head|, 0)
  }

  /** `*q++ = ...` for a few bytes. */
  method Put(buf: array<byte>, q: nat, bytes: seq<byte>, ghost head: seq<byte>) returns (r: nat)
    requires Holds(buf, head) && q == |head| && q + |bytes| <= PACKET_SIZE
    modifies buf
    ensures Holds(buf, head + bytes) && r == q + |bytes| == |head + bytes|
  {
    OverlayTail(head, Fill(PACKET_SIZE - q, 0), bytes);
    FillTail(PACKET_SIZE - q, |bytes|, 0);
    MemCopy(buf, q, bytes);
    r := q + |bytes|;
  }

  lemma FlatHead(samples: seq<seq<byte>>)
    requires Flat(samples) != []
    ensures samples != [] && Flat(samples) == samples[0] + Flat(samples[1..])
  {
  }

  lemma FlatCons(x: seq<byte>, samples: seq<seq<byte>>)
    ensures Flat([x] + samples) == x + Flat(samples)
  {
    assert ([x] + samples)[1..] == samples;
  }

  /** Copying `k` bytes of the front sample moves on by `k` bytes in the data. */
  lemma CopyStep(head: seq<byte>, data: seq<byte>, done: nat, front: seq<byte>, tail: seq<byte>, k: nat)
    requires done <= |data| && data[done..] == front + tail && k <= |front|
    ensures done + k <= |data| && head + data[..done + k] == head + data[..done] + front[..k]
    ensures data[done + k..] == front[k..] + tail && (k == |front| ==> front[..k] == front && data[done + k..] == tail)
  {
    assert data[done..done + k] == data[done..][..k];
    assert data[..done + k] == data[..done] + data[done..done + k];
    assert data[done + k..] == data[done..][k..];
  }

  class PesEncoder {
    var pid: nat
    var cc: int

    ghost predicate Valid()
      reads this
    {
      pid < 0x10000 && -1 <= cc < 16
    }

    constructor ()
      ensures Valid() && pid == 0xe000 && cc == -1
    {
      pid := 0xe000;
      cc := -1;
    }

    method SetPid(v: nat)
      requires v < 0x10000
      modifies this`pid
      ensures pid == v
    {
      pid := v;
    }

    /** TS header and, in the first packet of a key frame, an adaptation field with the clock. */
    method PutTsHeader(buf: array<byte>, start: bool, pcr: Option<int>) returns (q: nat)
      requires Valid() && cc >= 0 && Holds(buf, [])
      modifies buf
      ensures Holds(buf, TsHeader(pid, start, pcr.Some?, cc) + Adaptation(pcr, 0)) &&
              q == 4 + if pcr.Some? then 8 else 0
    {
      var val := pid / 256;
      if start {
        val := Or40(val);
      }
      q := Put(buf, 0, [0x47, val, pid % 256, 0x10 + cc], []);
      ghost var head: seq<byte> := [0x47, val, pid % 256, 0x10 + cc];
      assert [] + head == head;
      if pcr.Some? {
        hide PutPcr;
        buf[3] := buf[3] + 0x20;
        ghost var h := TsHeader(pid, start, true, cc);
        assert Holds(buf, h);
        q := Put(buf, q, [1, 0x10], h);
        q := Put(buf, q, PutPcr(pcr.value), h + [1, 0x10]);
        buf[4] := buf[4] + 6;
        assert Fill(0, 0xff) == [];
        assert buf[..] == h + ([7, 0x10] + PutPcr(pcr.value) + []) + Fill(PACKET_SIZE - 12, 0);
      } else {
        assert TsHeader(pid, start, false, cc) + [] == head;
      }
    }

    /** Start code, stream id, length, flags and time stamps of the PES header. */
    method PutPesHeader(buf: array<byte>, at: nat, sid: byte, payloadSize: nat, pts: int, dts: int,
                        ghost head: seq<byte>) returns (q: nat)
      requires Holds(buf, head) && at == |head| <= 12
      modifies buf
      ensures Holds(buf, head + PesHeader(sid, payloadSize, pts, dts))
      ensures q == at + if pts != dts then 19 else 14
    {
      hide PutPts, Holds;
      var headerLen, flags := 5, 2;
      if pts != dts {
        headerLen := headerLen + 5;
        flags := 3;
      }
      var len := payloadSize + headerLen + 3;
      if len > 0xffff {
        len := 0;
      }
      var fixed: seq<byte> := [0, 0, 1, sid, len / 256, len % 256, 0x80, flags * 64, headerLen];
      q := Put(buf, at, fixed, head);
      if flags == 2 {
        q := Put(buf, q, PutPts(2, pts), head + fixed);
        assert head + fixed + PutPts(2, pts) == head + (fixed + PutPts(2, pts));
      } else {
        q := Put(buf, q, PutPts(3, pts), head + fixed);
        q := Put(buf, q, PutPts(1, dts), head + fixed + PutPts(3, pts));
        assert head + fixed + PutPts(3, pts) + PutPts(1, dts) == head + (fixed + (PutPts(3, pts) + PutPts(1, dts)));
      }
    }

    /**
     * Lines 236 to 257: the headers move up and filler bytes go into the adaptation field, which may have to be made.
     */
    method Stuff(buf: array<byte>, q: nat, stuffing: nat, start: bool, pcr: Option<int>, ghost pes: seq<byte>)
      requires Valid() && cc >= 0 && |pes| <= 19 && (pes != [] ==> |pes| >= 14 && pes[1] == 0)
      requires 0 < stuffing <= Room(pcr, pes) && stuffing <= 183
      requires Holds(buf, Head(pid, start, cc, pcr, pes, 0)) && q == PACKET_SIZE - Room(pcr, pes)
      modifies buf
      ensures Holds(buf, Head(pid, start, cc, pcr, pes, stuffing))
    {
      if buf[3] / 32 % 2 == 1 {
        StuffField(buf, q, stuffing, start, pcr, pes);
      } else {
        MakeField(buf, q, stuffing, start, pes);
      }
    }

    method StuffField(buf: array<byte>, q: nat, stuffing: nat, start: bool, pcr: Option<int>, ghost pes: seq<byte>)
      requires Valid() && cc >= 0 && |pes| <= 19 && pcr.Some?
      requires 0 < stuffing <= Room(pcr, pes) && stuffing <= 183
      requires Holds(buf, Head(pid, start, cc, pcr, pes, 0)) && q == PACKET_SIZE - Room(pcr, pes)
      modifies buf
      ensures Holds(buf, Head(pid, start, cc, pcr, pes, stuffing))
    {
      hide PutPcr, TsHeader, Overlay, Head, Fill;
      ghost var h := TsHeader(pid, start, true, cc);
      ghost var p := PutPcr(pcr.value);
      ghost var z := PACKET_SIZE - q;
      ClockHead(pid, start, cc, pcr.value, pes, 0);
      ClockHead(pid, start, cc, pcr.value, pes, stuffing);
      FieldGrown(h, p, pes, z, stuffing);
      assert h + [7, 0x10] + p + Fill(0, 0xff) == h + [7, 0x10] + p;
      ghost var s := buf[..];
      var afLen := buf[4] + 1;
      assert buf[4 + afLen..q] == s[12..12 + |pes|];
      MemCopy(buf, 4 + afLen + stuffing, buf[4 + afLen..q]);
      ghost var moved := buf[..];
      assert moved[4] == 7 by { OverlayBelow(s, 12 + stuffing, pes, 4); }
      buf[4] := buf[4] + stuffing;
      assert buf[..] == moved[4 := 7 + stuffing];
      MemSet(buf, 4 + afLen, stuffing, 0xff);
    }

    method MakeField(buf: array<byte>, q: nat, stuffing: nat, start: bool, ghost pes: seq<byte>)
      requires Valid() && cc >= 0 && |pes| <= 19 && (pes != [] ==> |pes| >= 14 && pes[1] == 0)
      requires 0 < stuffing <= Room(None, pes) && stuffing <= 183
      requires Holds(buf, Head(pid, start, cc, None, pes, 0)) && q == PACKET_SIZE - Room(None, pes)
      modifies buf
      ensures Holds(buf, Head(pid, start, cc, None, pes, stuffing))
    {
      hide Overlay, Fill, TsHeader, Head, Adaptation;
      ghost var h := TsHeader(pid, start, false, cc);
      ghost var marked := TsHeader(pid, start, true, cc);
      ghost var z := PACKET_SIZE - q;
      ghost var gap := (pes + Fill(z, 0))[..stuffing];
      ghost var tail := pes + Fill(z - stuffing, 0);
      PlainHead(pid, start, cc, pes, stuffing);
      assert buf[4..q] == pes;
      ShiftUp(h, pes, z, stuffing);
      MemCopy(buf, 4 + stuffing, buf[4..q]);
      Associate(h, gap, pes, Fill(z - stuffing, 0));
      MarkField(pid, start, cc, gap + tail);
      ghost var moved := buf[..];
      buf[3] := buf[3] + 0x20;
      assert buf[..] == moved[3 := moved[3] + 0x20];
      Associate(marked, gap, pes, Fill(z - stuffing, 0));
      FillGap(buf, stuffing, marked, gap, tail, pes, z);
      Associate(marked, Adaptation(None, stuffing), pes, Fill(z - stuffing, 0));
    }

    /** The bytes of a new adaptation field; with two bytes the flags byte is already zero. */
    method FillGap(buf: array<byte>, stuffing: nat, ghost marked: seq<byte>, ghost gap: seq<byte>,
                   ghost tail: seq<byte>, ghost pes: seq<byte>, ghost z: nat)
      requires 0 < stuffing <= 183 && stuffing <= z && (pes != [] ==> |pes| >= 14 && pes[1] == 0)
      requires buf.Length == PACKET_SIZE && |marked| == 4 && gap == (pes + Fill(z, 0))[..stuffing]
      requires buf[..] == marked + gap + tail
      modifies buf
      ensures buf[..] == marked + Adaptation(None, stuffing) + tail
    {
      hide Overlay;
      buf[4] := stuffing - 1;
      assert buf[..] == marked + gap[0 := stuffing - 1] + tail;
      if stuffing > 2 {
        buf[5] := 0;
        ghost var two: seq<byte> := [stuffing - 1, 0];
        assert buf[..] == (marked + two) + gap[2..] + tail;
        OverlayMiddle(marked + two, gap[2..], tail, Fill(stuffing - 2, 0xff));
        MemSet(buf, 6, stuffing - 2, 0xff);
        assert marked + two + Fill(stuffing - 2, 0xff) == marked + (two + Fill(stuffing - 2, 0xff));
      } else {
        assert gap[0 := stuffing - 1] == Adaptation(None, stuffing);
      }
    }

    /**
     * Lines 258 to 276: `n` payload bytes go to the end of the packet, whole samples first, the last one perhaps in
     * part.
     */
    method CopyPayload(buf: array<byte>, samples: seq<seq<byte>>, n: nat,
                       ghost head: seq<byte>) returns (rest: seq<seq<byte>>)
      requires Holds(buf, head) && n == PACKET_SIZE - |head| && n <= |Flat(samples)|
      modifies buf
      ensures buf[..] == head + Flat(samples)[..n] && Flat(rest) == Flat(samples)[n..]
    {
      hide Overlay, Flat;
      ghost var data := Flat(samples);
      rest := samples;
      var left := n;
      assert data[..0] == [] && head + [] == head && data[0..] == data;
      while left > 0
        invariant 0 <= left <= n
        invariant Flat(rest) == data[n - left..] && Holds(buf, head + data[..n - left])
        decreases left, |rest|
      {
        FlatHead(rest);
        var front := rest[0];
        ghost var done := n - left;
        ghost var k := if |front| <= left then |front| else left;
        CopyStep(head, data, done, front, Flat(rest[1..]), k);
        if |front| <= left {
          var _ := Put(buf, PACKET_SIZE - left, front, head + data[..done]);
          left := left - |front|;
          rest := rest[1..];
        } else {
          var _ := Put(buf, PACKET_SIZE - left, front[..left], head + data[..done]);
          FlatCons(front[left..], rest[1..]);
          rest := [front[left..]] + rest[1..];
          left := 0;
        }
      }
      assert Fill(0, 0) == [] && head + data[..n] + [] == head + data[..n];
    }

    /** One turn of the packet loop. */
    method WritePacket(w: StreamWriter, start: bool, pcr: Option<int>, sid: byte, samples: seq<seq<byte>>,
                       payloadSize: nat, pts: int, dts: int)
      returns (rest: seq<seq<byte>>, len: nat)
      requires Valid() && payloadSize == |Flat(samples)| > 0 && (pcr.Some? ==> start)
      modifies this`cc, w`packets
      ensures Valid() && cc == NextCc(old(cc))
      ensures var pes := if start then PesHeader(sid, payloadSize, pts, dts) else [];
              len == Take(pcr, pes, Flat(samples)) &&
              w.packets == old(w.packets) + [Packet(pid, start, cc, pcr, pes, Flat(samples))]
      ensures Flat(rest) == Flat(samples)[len..]
    {
      hide TsHeader, Adaptation, PesHeader, Fill, Flat, NextCc;
      ghost var pes := if start then PesHeader(sid, payloadSize, pts, dts) else [];
      var buf := new byte[PACKET_SIZE];
      MemSet(buf, 0, PACKET_SIZE, 0);
      assert buf[..] == [] + Fill(PACKET_SIZE, 0);
      cc := NextCc(cc);
      var q := PutTsHeader(buf, start, pcr);
      ghost var head := TsHeader(pid, start, pcr.Some?, cc) + Adaptation(pcr, 0);
      if start {
        q := PutPesHeader(buf, q, sid, payloadSize, pts, dts, head);
      } else {
        assert head + [] == head;
      }
      assert Holds(buf, Head(pid, start, cc, pcr, pes, 0));
      len := PACKET_SIZE - q;
      if len > payloadSize {
        len := payloadSize;
      }
      var stuffing := PACKET_SIZE - q - len;
      if stuffing > 0 {
        Stuff(buf, q, stuffing, start, pcr, pes);
      }
      rest := CopyPayload(buf, samples, len, Head(pid, start, cc, pcr, pes, stuffing));
      w.Write(buf);
    }

    /** All packets of one PES packet: exactly `Packets`, and a continuity counter that goes on from there. */
    method WritePes(w: StreamWriter, sid: byte, samples: seq<seq<byte>>, payloadSize: nat, pts: int, dts: int,
                    key: bool)
      requires Valid() && payloadSize == |Flat(samples)|
      modifies this`cc, w`packets
      ensures Valid()
      ensures w.packets == old(w.packets) +
              Packets(pid, true, old(cc), if key then Some(pts) else None, PesHeader(sid, payloadSize, pts, dts),
                      Flat(samples))
      ensures cc == CcAfter(old(cc), |w.packets| - |old(w.packets)|)
    {
      hide Packet, Take, PesHeader, Room, CcAfter, NextCc, Packets, Flat;
      ghost var before := w.packets;
      var result := samples;
      var size := payloadSize;
      var start := true;
      ghost var all := Left(cc, start, key, sid, payloadSize, pts, dts, Flat(samples));
      CcStep(cc, 0);
      while size > 0 && result != []
        invariant Valid() && size == |Flat(result)| && (start ==> size == payloadSize && w.packets == before)
        invariant w.packets + Left(cc, start, key, sid, payloadSize, pts, dts, Flat(result)) == before + all
        invariant |w.packets| >= |before| && cc == CcAfter(old(cc), |w.packets| - |before|)
      {
        ghost var data := Flat(result);
        ghost var out := w.packets;
        LeftStep(cc, start, key, sid, payloadSize, pts, dts, data);
        CcStep(old(cc), |out| - |before|);
        var rest, len := WritePacket(w, start, if start && key then Some(pts) else None, sid, result, size, pts, dts);
        LeftShift(out, w.packets[|out|], Left(cc, false, key, sid, payloadSize, pts, dts, data[len..]));
        result := rest;
        size := size - len;
        start := false;
      }
      NothingLeft(cc, start, key, sid, payloadSize, pts, dts, result);
      assert w.packets + [] == w.packets;
    }

    /** The packets still to be written for `data`, the rest of a payload of `payloadSize` bytes. */
    ghost function Left(c: int, start: bool, key: bool, sid: byte, payloadSize: nat, pts: int, dts: int,
                        data: seq<byte>): seq<seq<byte>>
      reads this`pid
      requires pid < 0x10000
    {
      Packets(pid, start, c, if start && key then Some(pts) else None,
              if start then PesHeader(sid, payloadSize, pts, dts) else [], data)
    }

    lemma LeftStep(c: int, start: bool, key: bool, sid: byte, payloadSize: nat, pts: int, dts: int, data: seq<byte>)
      requires pid < 0x10000 && data != []
      ensures var pcr := if start && key then Some(pts) else None;
              var pes := if start then PesHeader(sid, payloadSize, pts, dts) else [];
              Left(c, start, key, sid, payloadSize, pts, dts, data) ==
              [Packet(pid, start, NextCc(c), pcr, pes, data)] +
              Left(NextCc(c), false, key, sid, payloadSize, pts, dts, data[Take(pcr, pes, data)..])
    {
      hide Packet, Take, PesHeader, Room, NextCc;
    }

    lemma NothingLeft(c: int, start: bool, key: bool, sid: byte, payloadSize: nat, pts: int, dts: int,
                      result: seq<seq<byte>>)
      requires pid < 0x10000 && (Flat(result) == [] || result == [])
      ensures Left(c, start, key, sid, payloadSize, pts, dts, Flat(result)) == []
    {
      hide PesHeader;
    }
  }

  lemma LeftShift(out: seq<seq<byte>>, p: seq<byte>, later: seq<seq<byte>>)
    ensures out + ([p] + later) == (out + [p]) + later
  {
  }

  lemma CcStep(cc: int, n: nat)
    ensures NextCc(CcAfter(cc, n)) == CcAfter(cc, n + 1) && CcAfter(cc, 0) == cc
  {
  }
}
