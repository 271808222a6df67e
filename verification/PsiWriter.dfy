/** PSIWriter: sections with a CRC, cut into transport packets (ISO/IEC 13818-1, section 2.4.4), and their reader. */
module PsiWriters {
  import opened Bytes
  import opened Options
  import opened TsPackets
  import opened TsDemux
  import opened PesEncoders
  import opened Crc32

  const SECTION_SIZE := 1024

  /** The bytes of a section before its CRC. */
  function SectionBody(tableId: byte, id: nat, version: nat, secNum: byte, lastSecNum: byte,
                       data: seq<byte>): (s: seq<byte>)
    requires version < 32 && |data| + 12 <= SECTION_SIZE
    ensures |s| == 8 + |data|
  {
    [tableId] + PutU16(0xb000 + (5 + 4 + |data|)) + PutU16(id) + [0xc1 + version * 2, secNum, lastSecNum] + data
  }

  function Section(tableId: byte, id: nat, version: nat, secNum: byte, lastSecNum: byte,
                   data: seq<byte>): (s: seq<byte>)
    requires version < 32 && |data| + 12 <= SECTION_SIZE
    ensures |s| == 12 + |data|
  {
    var body := SectionBody(tableId, id, version, secNum, lastSecNum, data);
    body + PutRegister(Decoder(START, body))
  }

  /** The section as it is sent when the shared CRC table was built with or without reflection. */
  function SectionBy(reflected: bool, tableId: byte, id: nat, version: nat, secNum: byte, lastSecNum: byte,
                     data: seq<byte>): (s: seq<byte>)
    requires version < 32 && |data| + 12 <= SECTION_SIZE
    ensures |s| == 12 + |data|
  {
    var body := SectionBody(tableId, id, version, secNum, lastSecNum, data);
    body + PutRegister(TableCrc(MadeBy(reflected), START, body))
  }

  /** With the table that CRC32 builds it is the section of the standard. */
  lemma SectionByOwnTable(tableId: byte, id: nat, version: nat, secNum: byte, lastSecNum: byte, data: seq<byte>)
    requires version < 32 && |data| + 12 <= SECTION_SIZE
    ensures SectionBy(false, tableId, id, version, secNum, lastSecNum, data) ==
            Section(tableId, id, version, secNum, lastSecNum, data)
  {
    hide SectionBody, PutRegister, Decoder, TableCrc, Entry;
    TableCrcIsDecoder(START, SectionBody(tableId, id, version, secNum, lastSecNum, data));
  }

  /** Bytes of section data in the next packet. */
  function Part(first: bool, len: nat): nat {
    var room := if first then 183 else 184;
    if room > len then len else room
  }

  function SectionPacket(pid: nat, first: bool, cc: nat, data: seq<byte>): (s: seq<byte>)
    requires pid < 0x10000 && cc < 16
    ensures |s| == PACKET_SIZE
  {
    var n := Part(first, |data|);
    TsHeader(pid, first, false, cc) + (if first then [0] else []) + data[..n] +
    Fill(PACKET_SIZE - 4 - (if first then 1 else 0) - n, 0xff)
  }

  /** The packets of a section; `cc` is the counter of the packet before. */
  function SectionPackets(pid: nat, first: bool, cc: int, data: seq<byte>): (ps: seq<seq<byte>>)
    requires pid < 0x10000
    ensures forall p :: p in ps ==> |p| == PACKET_SIZE
    decreases |data|
  {
    if data == [] then []
    else
      [SectionPacket(pid, first, NextCc(cc), data)] +
      SectionPackets(pid, false, NextCc(cc), data[Part(first, |data|)..])
  }

  datatype Parsed = Parsed(tableId: byte, id: nat, version: nat, secNum: byte, lastSecNum: byte, data: seq<byte>)

  /** The section a reader finds in a gathered unit: after the pointer field, as long as its length field says. */
  function FindSection(u: seq<byte>): Option<seq<byte>> {
    if |u| < 1 || |u| < 4 + u[0] as int then None
    else
      var s := u[1 + u[0] as int..];
      var len := LengthField(s);
      if |s| < 3 + len then None else Some(s[..3 + len])
  }

  /** A section is taken apart if its fixed bits are right and the decoder register ends at zero. */
  function ParseSection(s: seq<byte>): Option<Parsed> {
    if |s| < 12 || s[1] as int / 16 != 11 || s[5] as int / 64 != 3 || s[5] as int % 2 != 1 then None
    else if Decoder(START, s) != 0 then None
    else Some(Parsed(s[0], U16(s[3..]), s[5] as int / 2 % 32, s[6], s[7], s[8..|s| - 4]))
  }

  function LengthField(s: seq<byte>): nat
    requires |s| >= 3
  {
    s[1] as int % 16 * 256 + s[2] as int
  }

  /** The bytes of a section before its CRC: table, flags over the length, id, version, numbers, data. */
  lemma SectionLayout(tableId: byte, id: nat, version: nat, secNum: byte, lastSecNum: byte, data: seq<byte>)
    requires version < 32 && id < 0x10000 && |data| + 12 <= 1024
    ensures var len := |data| + 9;
            SectionBody(tableId, id, version, secNum, lastSecNum, data) ==
            [tableId, 0xb0 + len / 256, len % 256, id / 256, id % 256, 0xc1 + 2 * version, secNum, lastSecNum] + data
  {
    var len := |data| + 9;
    assert (0xb000 + len) / 256 == 0xb0 + len / 256 && (0xb000 + len) % 256 == len % 256;
  }

  lemma LengthWritten(len: nat)
    requires len < 0x400
    ensures var s := PutU16(0xb000 + len); s[0] as int % 16 * 256 + s[1] as int == len && s[0] as int / 16 == 11
  {
    assert (0xb000 + len) / 256 % 256 == 0xb0 + len / 256;
    assert (0xb000 + len) % 256 == len % 256;
  }

  /** Every section passes the CRC check, has the right section_length, and is read back field by field. */
  lemma SectionRead(tableId: byte, id: nat, version: nat, secNum: byte, lastSecNum: byte, data: seq<byte>)
    requires version < 32 && id < 0x10000 && |data| + 12 <= SECTION_SIZE
    ensures ParseSection(Section(tableId, id, version, secNum, lastSecNum, data)) ==
            Some(Parsed(tableId, id, version, secNum, lastSecNum, data))
    ensures var s := Section(tableId, id, version, secNum, lastSecNum, data);
            LengthField(s) == |s| - 3
  {
    hide Decoder, PutRegister;
    LengthWritten(9 + |data|);
    var body := SectionBody(tableId, id, version, secNum, lastSecNum, data);
    var s := Section(tableId, id, version, secNum, lastSecNum, data);
    Residue(body);
    U16RoundTrip(id);
    assert s[..8 + |data|] == body;
    assert body[3..5] == PutU16(id);
    assert s[3] == body[3] && s[4] == body[4] && s[5] == body[5];
    assert s[8..|s| - 4] == body[8..] == data;
  }

  /** The reader finds the section whatever filler follows it. */
  lemma SectionFound(tableId: byte, id: nat, version: nat, secNum: byte, lastSecNum: byte, data: seq<byte>,
                     filler: seq<byte>)
    requires version < 32 && |data| + 12 <= SECTION_SIZE
    ensures var s := Section(tableId, id, version, secNum, lastSecNum, data);
            FindSection([0] + s + filler) == Some(s)
  {
    hide Decoder, PutRegister;
    var s := Section(tableId, id, version, secNum, lastSecNum, data);
    var u := [0] + s + filler;
    var len := 9 + |data|;
    assert u[1..] == s + filler;
    assert (s + filler)[1] == PutU16(0xb000 + len)[0] && (s + filler)[2] == PutU16(0xb000 + len)[1];
    LengthWritten(len);
    assert (s + filler)[..3 + len] == s;
  }

  lemma SectionPacketRead(pid: nat, first: bool, cc: nat, data: seq<byte>)
    requires pid < 0x2000 && cc < 16
    ensures var p := SectionPacket(pid, first, cc, data);
            var n := Part(first, |data|);
            p[0] == 0x47 && PidOf(p) == pid && StartOf(p) == first && CcOf(p) == cc &&
            PayloadOf(p) == (if first then [0] else []) + data[..n] +
            Fill(PACKET_SIZE - 4 - (if first then 1 else 0) - n, 0xff)
  {
    hide TsHeader, PidOf, StartOf, CcOf, HasAdaptation, Fill;
    var n := Part(first, |data|);
    var pointer: seq<byte> := if first then [0] else [];
    var filler := Fill(PACKET_SIZE - 4 - (if first then 1 else 0) - n, 0xff);
    var h := TsHeader(pid, first, false, cc);
    assert SectionPacket(pid, first, cc, data) == h + (pointer + data[..n] + filler);
    HeaderFields(pid, first, false, cc, pointer + data[..n] + filler);
    assert (h + (pointer + data[..n] + filler))[4..] == pointer + data[..n] + filler;
  }

  function RoomFor(first: bool): nat {
    if first then 183 else 184
  }

  /** Filler behind the last byte of a section. */
  function FillerOf(first: bool, len: nat): nat
    decreases len
  {
    if len == 0 then 0
    else if len <= RoomFor(first) then RoomFor(first) - len
    else FillerOf(false, len - RoomFor(first))
  }

  lemma GatherNone()
    ensures Gather([]) == Units([], [])
  {
  }

  /** Gathered bytes of a packet followed by those of the packets after it. */
  lemma Joined(pointer: seq<byte>, data: seq<byte>, first: bool, n: nat)
    requires data != [] && n == Part(first, |data|) && n <= |data| && n <= RoomFor(first)
    ensures pointer + data[..n] + Fill(RoomFor(first) - n, 0xff) +
            (data[n..] + Fill(FillerOf(false, |data| - n), 0xff)) ==
            pointer + data + Fill(FillerOf(first, |data|), 0xff)
  {
    hide Fill, FillerOf, Part;
    FillerStep(first, |data|);
    NoFill();
    var f, g := Fill(RoomFor(first) - n, 0xff), Fill(FillerOf(false, |data| - n), 0xff);
    if n == |data| {
      assert f == Fill(FillerOf(first, |data|), 0xff) && g == [];
      Pieces(pointer, data, n, f, g);
    } else {
      assert g == Fill(FillerOf(first, |data|), 0xff) && f == [];
      Pieces(pointer, data, n, f, g);
    }
  }

  lemma FillerStep(first: bool, len: nat)
    requires len > 0
    ensures var n := Part(first, len);
            (n == len ==> FillerOf(first, len) == RoomFor(first) - n && FillerOf(false, 0) == 0) &&
            (n < len ==> FillerOf(first, len) == FillerOf(false, len - n) && RoomFor(first) - n == 0)
  {
  }

  lemma Pieces(p: seq<byte>, data: seq<byte>, n: nat, f: seq<byte>, g: seq<byte>)
    requires n <= |data| && (n == |data| ==> g == []) && (n < |data| ==> f == [])
    ensures p + data[..n] + f + (data[n..] + g) == p + data + if n == |data| then f else g
  {
    if n == |data| {
      assert data[..n] == data && data[n..] + g == [];
      assert p + data + f + [] == p + data + f;
    } else {
      assert p + data[..n] + [] + (data[n..] + g) == p + (data[..n] + data[n..]) + g;
      assert data[..n] + data[n..] == data;
    }
  }

  lemma NoFill()
    ensures Fill(0, 0xff) == []
  {
  }

  /** Continuation packets of a section add its bytes, filler only at the very end. */
  lemma {:induction false} SectionTail(pid: nat, cc: int, data: seq<byte>)
    requires pid < 0x2000
    ensures Gather(SectionPackets(pid, false, cc, data)) == Units(data + Fill(FillerOf(false, |data|), 0xff), [])
    decreases |data|
  {
    hide SectionPacket, PidOf, StartOf, CcOf, PayloadOf, Gather, Fill, FillerOf, Part;
    if data == [] {
      GatherNone();
      NoFiller();
    } else {
      var n := Part(false, |data|);
      SectionPacketRead(pid, false, NextCc(cc), data);
      PartRange(false, data);
      SectionTail(pid, NextCc(cc), data[n..]);
      GatherCons(SectionPacket(pid, false, NextCc(cc), data), SectionPackets(pid, false, NextCc(cc), data[n..]));
      Joined([], data, false, n);
      assert [] + data[..n] == data[..n] && [] + data == data;
    }
  }

  lemma NoFiller()
    ensures [] + Fill(FillerOf(false, 0), 0xff) == []
  {
  }

  lemma PartRange(first: bool, data: seq<byte>)
    ensures Part(first, |data|) <= |data| && (data != [] ==> Part(first, |data|) > 0) &&
            Part(first, |data|) <= RoomFor(first)
  {
  }

  /** A section's packets are gathered into one unit: pointer field, section, filler. */
  lemma SectionGathered(pid: nat, cc: int, data: seq<byte>)
    requires pid < 0x2000 && data != []
    ensures Gather(SectionPackets(pid, true, cc, data)) == Units([], [[0] + data + Fill(FillerOf(true, |data|), 0xff)])
  {
    hide SectionPacket, PidOf, StartOf, CcOf, PayloadOf, Gather, Fill, FillerOf, Part;
    var n := Part(true, |data|);
    PartRange(true, data);
    SectionPacketRead(pid, true, NextCc(cc), data);
    SectionTail(pid, NextCc(cc), data[n..]);
    GatherCons(SectionPacket(pid, true, NextCc(cc), data), SectionPackets(pid, false, NextCc(cc), data[n..]));
    Joined([0], data, true, n);
  }

  /** From the packets of a section back to its fields, CRC checked. */
  lemma SectionDelivered(pid: nat, cc: int, tableId: byte, id: nat, version: nat, secNum: byte, lastSecNum: byte,
                         data: seq<byte>)
    requires pid < 0x2000 && version < 32 && id < 0x10000 && |data| + 12 <= SECTION_SIZE
    ensures var g := Gather(SectionPackets(pid, true, cc, Section(tableId, id, version, secNum, lastSecNum, data)));
            g.lead == [] && |g.units| == 1 &&
            var found := FindSection(g.units[0]);
            found.Some? && ParseSection(found.value) == Some(Parsed(tableId, id, version, secNum, lastSecNum, data))
  {
    hide Gather, FindSection, ParseSection, Section;
    var s := Section(tableId, id, version, secNum, lastSecNum, data);
    SectionGathered(pid, cc, s);
    SectionFound(tableId, id, version, secNum, lastSecNum, data, Fill(FillerOf(true, |s|), 0xff));
    SectionRead(tableId, id, version, secNum, lastSecNum, data);
  }

  class PsiWriter {
    var cc: int
    var pid: nat
    var tableId: byte
    var version: nat
    const tool: TsTool

    ghost predicate Valid()
      reads this, tool, tool.table
    {
      -1 <= cc < 16 && pid < 0x10000 && version < 32 && tool.Valid()
    }

    constructor (pid: nat, tableId: byte, tool: TsTool)
      requires pid < 0x10000 && tool.Valid()
      ensures Valid() && this.pid == pid && this.tableId == tableId && cc == -1 && this.tool == tool && version == 0
    {
      this.cc, this.pid, this.tableId, this.version, this.tool := -1, pid, tableId, 0, tool;
    }

    /** A section is completed with its CRC and sent as packets. */
    method WriteSection(w: StreamWriter, id: nat, secNum: byte, lastSecNum: byte, buf: seq<byte>)
      requires Valid() && |buf| + 12 <= SECTION_SIZE
      modifies this`cc, w`packets, tool`initialized, tool`reflected, tool.table
      ensures Valid() && tool.reflected == (old(tool.initialized) && old(tool.reflected))
      ensures var section := SectionBy(tool.reflected, tableId, id, version, secNum, lastSecNum, buf);
              w.packets == old(w.packets) + SectionPackets(pid, true, old(cc), section)
      ensures cc == CcAfter(old(cc), |w.packets| - |old(w.packets)|)
    {
      hide SectionBy, Decoder, TableCrc, MadeBy, PutRegister, SectionPackets, CcAfter, Overlay;
      var section := new byte[SECTION_SIZE];
      var totalLen := |buf| + 12;
      ghost var body := SectionBody(tableId, id, version, secNum, lastSecNum, buf);
      FillBody(section, id, secNum, lastSecNum, buf);
      var crc := tool.CRC32(section[..totalLen - 4]);
      Completed(body, section[..], crc);
      MemCopy(section, totalLen - 4, PutRegister(crc));
      SectionIs(tool.reflected, id, secNum, lastSecNum, buf);
      assert section[..totalLen] == section[..][..totalLen];
      PushSection(w, section[..totalLen]);
    }

    lemma SectionIs(reflected: bool, id: nat, secNum: byte, lastSecNum: byte, buf: seq<byte>)
      requires version < 32 && |buf| + 12 <= SECTION_SIZE
      ensures var body := SectionBody(tableId, id, version, secNum, lastSecNum, buf);
              SectionBy(reflected, tableId, id, version, secNum, lastSecNum, buf) ==
              body + PutRegister(TableCrc(MadeBy(reflected), START, body))
    {
      hide Decoder, PutRegister, SectionBody, TableCrc, MadeBy;
    }

    lemma Completed(body: seq<byte>, was: seq<byte>, crc: bv32)
      requires |was| == SECTION_SIZE && |body| + 4 <= SECTION_SIZE && was[..|body|] == body
      ensures Overlay(was, |body|, PutRegister(crc))[..|body| + 4] == body + PutRegister(crc)
    {
      hide PutRegister;
    }

    method FillBody(section: array<byte>, id: nat, secNum: byte, lastSecNum: byte, buf: seq<byte>)
      requires version < 32 && section.Length == SECTION_SIZE && |buf| + 12 <= SECTION_SIZE
      modifies section
      ensures section[..8 + |buf|] == SectionBody(tableId, id, version, secNum, lastSecNum, buf)
    {
      section[0] := tableId;
      MemCopy(section, 1, PutU16(0xb000 + (5 + 4 + |buf|)));
      MemCopy(section, 3, PutU16(id));
      section[5] := 0xc1 + version * 2;
      section[6] := secNum;
      section[7] := lastSecNum;
      MemCopy(section, 8, buf);
    }

    /** The section cut into packets, the first with a pointer field, the last filled with 0xff. */
    method PushSection(w: StreamWriter, data: seq<byte>)
      requires Valid()
      modifies this`cc, w`packets
      ensures Valid()
      ensures w.packets == old(w.packets) + SectionPackets(pid, true, old(cc), data)
      ensures cc == CcAfter(old(cc), |w.packets| - |old(w.packets)|)
    {
      hide SectionPacket, CcAfter, NextCc, Decoder;
      ghost var all := SectionPackets(pid, true, cc, data);
      ghost var before := w.packets;
      var left := data;
      var first := true;
      CcStep(cc, 0);
      while left != []
        invariant Valid() && w.packets + SectionPackets(pid, first, cc, left) == before + all
        invariant |w.packets| >= |before| && cc == CcAfter(old(cc), |w.packets| - |before|)
        decreases |left|
      {
        ghost var out := w.packets;
        ghost var rest := left;
        CcStep(old(cc), |out| - |before|);
        var n := PushPacket(w, first, left);
        left := left[n..];
        LeftShift(out, SectionPacket(pid, first, cc, rest), SectionPackets(pid, false, cc, left));
        first := false;
      }
      assert w.packets + [] == w.packets;
    }

    /** The TS header of a section packet, and the pointer field of the first one. */
    method PutHead(packet: array<byte>, first: bool) returns (q: nat)
      requires Valid() && cc >= 0 && packet.Length == PACKET_SIZE
      modifies packet
      ensures q == (if first then 5 else 4)
      ensures packet[..q] == TsHeader(pid, first, false, cc) + if first then [0] else []
    {
      hide Decoder, Filled, NextCc, Fill;
      var b := pid / 256;
      if first {
        b := Or40(b);
      }
      packet[0], packet[1], packet[2], packet[3] := 0x47, b, pid % 256, 0x10 + cc;
      q := 4;
      if first {
        packet[4] := 0;
        q := 5;
      }
    }

    method PushPacket(w: StreamWriter, first: bool, left: seq<byte>) returns (n: nat)
      requires Valid() && left != []
      modifies this`cc, w`packets
      ensures Valid() && cc == NextCc(old(cc)) && n == Part(first, |left|)
      ensures w.packets == old(w.packets) + [SectionPacket(pid, first, cc, left)]
    {
      hide Decoder, Filled, NextCc, Fill, TsHeader;
      var packet := new byte[PACKET_SIZE];
      cc := NextCc(cc);
      var q := PutHead(packet, first);
      ghost var head := TsHeader(pid, first, false, cc) + (if first then [0] else []);
      n := PACKET_SIZE - q;
      if n > |left| {
        n := |left|;
      }
      MemCopy(packet, q, left[..n]);
      MemSet(packet, q + n, PACKET_SIZE - q - n, 0xff);
      assert packet[..] == head + left[..n] + Fill(PACKET_SIZE - q - n, 0xff);
      w.Write(packet);
    }
  }
}
