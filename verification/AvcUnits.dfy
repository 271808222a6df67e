/** H.264 access units: from length-prefixed NAL units (AVCC) to start codes (Annex B of ITU-T H.264). */
module AvcUnits {
  import opened Bytes

  // ---- The splitter ----

  /** Overrun: fewer bytes are left than a length field has, and the reader goes past them. */
  datatype Split = Units(nals: seq<seq<byte>>) | Malformed(nals: seq<seq<byte>>) | Overrun

  /** A char, which is signed, assigned to a uint32_t. */
  function SignExtended(b: byte): (n: nat)
    ensures n == b as int <==> b < 0x80
    ensures b >= 0x80 ==> n >= 0xFFFF_FF80
  {
    if b < 0x80 then b else b as int + 0xFFFF_FF00
  }

  /** The length field in `unitLength + 1` bytes; the one- and three-byte forms read their first byte, as a char. */
  function ReadLength(data: seq<byte>, unitLength: nat): (n: nat)
    requires unitLength < 4 && |data| > unitLength
  {
    if unitLength == 3 then U32(data)
    else if unitLength == 1 then U16(data)
    else SignExtended(data[0])
  }

  function SplitFrom(data: seq<byte>, unitLength: nat, found: seq<seq<byte>>): Split
    requires unitLength < 4
    decreases |data|
  {
    if |data| <= 1 then Units(found)
    else if |data| < unitLength + 1 then Overrun
    else
      var n := ReadLength(data, unitLength);
      var rest := data[unitLength + 1..];
      if n > |rest| || |rest| == 0 then Malformed(found)
      else SplitFrom(rest[n..], unitLength, found + [rest[..n]])
  }

  function PutLength(n: nat, unitLength: nat): (s: seq<byte>)
    requires unitLength < 4
    ensures |s| == unitLength + 1
  {
    if unitLength == 3 then PutU32(n)
    else if unitLength == 2 then PutU24(n)
    else if unitLength == 1 then PutU16(n)
    else [n % 256]
  }

  function Avcc(nals: seq<seq<byte>>, unitLength: nat): seq<byte>
    requires unitLength < 4
    decreases |nals|
  {
    if nals == [] then [] else PutLength(|nals[0]|, unitLength) + nals[0] + Avcc(nals[1..], unitLength)
  }

  function LengthLimit(unitLength: nat): nat {
    if unitLength == 3 then 0x1_0000_0000
    else if unitLength == 2 then 0x100_0000
    else if unitLength == 1 then 0x1_0000
    else 0x100
  }

  /** The lengths that are read as they were written. */
  predicate Readable(n: nat, unitLength: nat) {
    unitLength == 1 || unitLength == 3 || (unitLength == 0 && n < 0x80)
  }

  lemma LengthRead(n: nat, unitLength: nat, tail: seq<byte>)
    requires unitLength < 4 && 0 < n < LengthLimit(unitLength)
    ensures ReadLength(PutLength(n, unitLength) + tail, unitLength) == n <==> Readable(n, unitLength)
  {
    hide SignExtended;
    U16RoundTrip(n % 0x1_0000);
    U32RoundTrip(n);
    ReadPrefix(PutU32(n), tail);
    assert unitLength == 1 ==> (PutU16(n) + tail)[..2] == PutU16(n);
    ThreeBytes(n);
  }

  lemma ThreeBytes(n: nat)
    requires 0 < n < 0x1_0000_0000
    ensures n < 0x100_0000 ==> PutU24(n)[0] as int != n
    ensures n < 0x100 ==> n % 256 == n
  {
  }

  /** NAL units whose lengths can be written. */
  ghost predicate Fits(nals: seq<seq<byte>>, unitLength: nat) {
    forall i :: 0 <= i < |nals| ==> 0 < |nals[i]| < LengthLimit(unitLength)
  }

  ghost predicate AllReadable(nals: seq<seq<byte>>, unitLength: nat) {
    forall i :: 0 <= i < |nals| ==> Readable(|nals[i]|, unitLength)
  }

  /**
   * The splitter returns a list of non-empty NAL units if and only if every length is readable: always with two- and
   * four-byte lengths, for units of less than 128 bytes with one-byte lengths, never with three-byte lengths.
   */
  lemma {:induction false} SplitsAvcc(nals: seq<seq<byte>>, unitLength: nat, found: seq<seq<byte>>)
    requires unitLength < 4 && Fits(nals, unitLength)
    ensures SplitFrom(Avcc(nals, unitLength), unitLength, found) == Units(found + nals) <==>
            AllReadable(nals, unitLength)
    decreases |nals|
  {
    hide ReadLength, PutLength, LengthLimit, Readable, SplitFrom;
    var data := Avcc(nals, unitLength);
    SplitStep(data, unitLength, found);
    if nals == [] {
      assert found + nals == found;
    } else {
      var nal, tail := nals[0], Avcc(nals[1..], unitLength);
      AvccFront(nals, unitLength);
      LengthRead(|nal|, unitLength, nal + tail);
      assert (nal + tail)[|nal|..] == tail && (nal + tail)[..|nal|] == nal;
      assert found + [nal] + nals[1..] == found + nals;
      assert AllReadable(nals, unitLength) <==> Readable(|nal|, unitLength) && AllReadable(nals[1..], unitLength);
      if Readable(|nal|, unitLength) {
        SplitsAvcc(nals[1..], unitLength, found + [nal]);
      } else {
        WrongUnit(data, unitLength, found, nals);
      }
    }
  }

  lemma AvccFront(nals: seq<seq<byte>>, unitLength: nat)
    requires unitLength < 4 && nals != []
    ensures var data, rest := Avcc(nals, unitLength), nals[0] + Avcc(nals[1..], unitLength);
            data == PutLength(|nals[0]|, unitLength) + rest && data[unitLength + 1..] == rest
  {
    hide PutLength;
    ThreeParts(PutLength(|nals[0]|, unitLength), nals[0], Avcc(nals[1..], unitLength));
  }

  lemma ThreeParts(a: seq<byte>, b: seq<byte>, c: seq<byte>)
    ensures a + b + c == a + (b + c) && (a + b + c)[|a|..] == b + c
  {
  }

  /** A wrong length makes the first unit wrong, whatever follows. */
  lemma WrongUnit(data: seq<byte>, unitLength: nat, found: seq<seq<byte>>, nals: seq<seq<byte>>)
    requires unitLength < 4 && |data| > unitLength && |data| > 1 && nals != []
    requires ReadLength(data, unitLength) != |nals[0]|
    ensures SplitFrom(data, unitLength, found) != Units(found + nals)
  {
    hide ReadLength;
    var n, rest := ReadLength(data, unitLength), data[unitLength + 1..];
    if n <= |rest| && rest != [] {
      var wrong := found + [rest[..n]];
      KeepsFound(rest[n..], unitLength, wrong);
      assert wrong[|found|] == rest[..n];
      assert (found + nals)[|found|] == nals[0];
    }
  }

  /** A unit of 200 bytes behind a one-byte length is refused: the length is read as 0xFFFFFFC8. */
  lemma OneByteLengthExample(nal: seq<byte>)
    requires |nal| == 200
    ensures SplitFrom(Avcc([nal], 0), 0, []) == Malformed([])
  {
    hide SplitFrom;
    AvccFront([nal], 0);
    SplitStep(Avcc([nal], 0), 0, []);
  }

  /** With three-byte lengths no list of NAL units is read back. */
  lemma ThreeByteLengthsFail(nals: seq<seq<byte>>)
    requires nals != [] && Fits(nals, 2)
    ensures SplitFrom(Avcc(nals, 2), 2, []) != Units(nals)
  {
    hide SplitFrom, Avcc;
    SplitsAvcc(nals, 2, []);
    assert [] + nals == nals;
    assert !Readable(|nals[0]|, 2);
  }

  lemma {:induction false} KeepsFound(data: seq<byte>, unitLength: nat, found: seq<seq<byte>>)
    requires unitLength < 4
    ensures var r := SplitFrom(data, unitLength, found);
            !r.Overrun? ==> found <= r.nals
    decreases |data|
  {
    hide ReadLength;
    if |data| > 1 && |data| >= unitLength + 1 {
      var n, rest := ReadLength(data, unitLength), data[unitLength + 1..];
      if n <= |rest| && |rest| > 0 {
        KeepsFound(rest[n..], unitLength, found + [rest[..n]]);
      }
    }
  }

  // ---- The demuxer ----

  const IDR := 5
  const SPS := 7
  const PPS := 8
  const AUD := 9

  function NalType(nal: seq<byte>): nat {
    if nal == [] then 0 else nal[0] as int % 32
  }

  /**
   * The bytes the splitter takes for first bytes of NAL units: after an empty unit that is a byte of what follows it.
   */
  function Inspected(data: seq<byte>, unitLength: nat): seq<byte>
    requires unitLength < 4
    decreases |data|
  {
    if |data| <= 1 || |data| < unitLength + 1 then []
    else
      var n := ReadLength(data, unitLength);
      var rest := data[unitLength + 1..];
      if n > |rest| || |rest| == 0 then [] else [rest[0]] + Inspected(rest[n..], unitLength)
  }

  ghost predicate Seen(bytes: seq<byte>, kinds: set<nat>) {
    exists b :: b in bytes && b as int % 32 in kinds
  }

  function FirstBytes(nals: seq<seq<byte>>): seq<byte>
    requires AllFilled(nals)
    decreases |nals|
  {
    if nals == [] then [] else [nals[0][0]] + FirstBytes(nals[1..])
  }

  /** Without empty units and with readable lengths they are the first bytes of the units. */
  lemma {:induction false} InspectsFirstBytes(nals: seq<seq<byte>>, unitLength: nat)
    requires unitLength < 4 && Fits(nals, unitLength) && AllReadable(nals, unitLength)
    ensures AllFilled(nals) && Inspected(Avcc(nals, unitLength), unitLength) == FirstBytes(nals)
    decreases |nals|
  {
    hide ReadLength, PutLength, LengthLimit, Readable, Inspected;
    var data := Avcc(nals, unitLength);
    SplitStep(data, unitLength, []);
    if nals != [] {
      var nal, tail := nals[0], Avcc(nals[1..], unitLength);
      AvccFront(nals, unitLength);
      LengthRead(|nal|, unitLength, nal + tail);
      assert (nal + tail)[|nal|..] == tail;
      assert Fits(nals[1..], unitLength) && AllReadable(nals[1..], unitLength);
      InspectsFirstBytes(nals[1..], unitLength);
    }
  }

  /** With two-byte lengths: a unit of no bytes at the front, and the byte after it, which is taken for its first. */
  lemma EmptyUnitFirst(data: seq<byte>, found: seq<seq<byte>>)
    requires |data| > 2 && data[0] == 0 && data[1] == 0
    ensures SplitFrom(data, 1, found) == SplitFrom(data[2..], 1, found + [[]])
    ensures Inspected(data, 1) == [data[2]] + Inspected(data[2..], 1)
  {
    assert ReadLength(data, 1) == 0;
    hide ReadLength;
    assert data[2..][0..] == data[2..] && data[2..][..0] == [];
  }

  /** An empty unit before a stray byte 09 makes the demuxer believe in a delimiter that is not there. */
  lemma FalseDelimiter()
    ensures SplitFrom([0, 0, 9], 1, []) == Units([[]]) && Inspected([0, 0, 9], 1) == [9]
  {
    hide ReadLength;
    var data: seq<byte> := [0, 0, 9];
    EmptyUnitFirst(data, []);
    var none: seq<seq<byte>> := [];
    assert data[2..] == [9] && none + [[]] == [[]];
  }

  class VideoDemux {
    var naluUnitLength: nat
    var hasIdr: bool
    var hasAud: bool
    var hasSpsPps: bool
    var sps: seq<byte>
    var pps: seq<byte>

    constructor ()
      ensures naluUnitLength == 0 && !hasIdr && !hasAud && !hasSpsPps && sps == [] && pps == []
    {
      naluUnitLength, hasIdr, hasAud, hasSpsPps := 0, false, false, false;
      sps, pps := [], [];
    }

    /** `data` starts where the NAL unit does; its first byte is looked at whether it belongs to the unit or not. */
    method CheckNaluType(data: seq<byte>)
      requires data != []
      modifies `hasIdr, `hasAud, `hasSpsPps
      ensures hasIdr == (old(hasIdr) || data[0] as int % 32 == 5)
      ensures hasAud == (old(hasAud) || data[0] as int % 32 == 9)
      ensures hasSpsPps == (old(hasSpsPps) || data[0] as int % 32 in {7, 8})
    {
      var kind := data[0] as int % 32;
      if kind == IDR {
        hasIdr := true;
      } else if kind == AUD {
        hasAud := true;
      } else if kind == SPS || kind == PPS {
        hasSpsPps := true;
      }
    }

    method DecodeAVCNaluIAvcc(data: seq<byte>) returns (r: Split)
      requires naluUnitLength < 4
      modifies `hasIdr, `hasAud, `hasSpsPps
      ensures r == SplitFrom(data, naluUnitLength, [])
      ensures hasIdr <==> old(hasIdr) || Seen(Inspected(data, naluUnitLength), {5})
      ensures hasAud <==> old(hasAud) || Seen(Inspected(data, naluUnitLength), {9})
      ensures hasSpsPps <==> old(hasSpsPps) || Seen(Inspected(data, naluUnitLength), {7, 8})
    {
      hide ReadLength, SplitFrom, Inspected, Seen;
      var rest := data;
      var outs := [];
      ghost var seen: seq<byte> := [];
      NothingSeen();
      while |rest| > 1
        invariant SplitFrom(data, naluUnitLength, []) == SplitFrom(rest, naluUnitLength, outs)
        invariant Inspected(data, naluUnitLength) == seen + Inspected(rest, naluUnitLength)
        invariant hasIdr <==> old(hasIdr) || Seen(seen, {5})
        invariant hasAud <==> old(hasAud) || Seen(seen, {9})
        invariant hasSpsPps <==> old(hasSpsPps) || Seen(seen, {7, 8})
        decreases |rest|
      {
        SplitStep(rest, naluUnitLength, outs);
        assert seen + [] == seen;
        if |rest| < naluUnitLength + 1 {
          return Overrun;
        }
        var n := ReadLength(rest, naluUnitLength);
        rest := rest[naluUnitLength + 1..];
        if n > |rest| || |rest| <= 0 {
          return Malformed(outs);
        }
        outs := outs + [rest[..n]];
        CheckNaluType(rest);
        SeenMore(seen, rest[0], {5});
        SeenMore(seen, rest[0], {9});
        SeenMore(seen, rest[0], {7, 8});
        assert seen + ([rest[0]] + Inspected(rest[n..], naluUnitLength)) ==
               seen + [rest[0]] + Inspected(rest[n..], naluUnitLength);
        seen := seen + [rest[0]];
        rest := rest[n..];
      }
      SplitStep(rest, naluUnitLength, outs);
      assert seen + [] == seen;
      r := Units(outs);
    }
  }

  lemma NothingSeen()
    ensures forall kinds: set<nat> :: !Seen([], kinds)
  {
  }

  /** One turn of the splitter. */
  lemma SplitStep(rest: seq<byte>, unitLength: nat, outs: seq<seq<byte>>)
    requires unitLength < 4
    ensures |rest| <= 1 ==> SplitFrom(rest, unitLength, outs) == Units(outs) && Inspected(rest, unitLength) == []
    ensures 1 < |rest| < unitLength + 1 ==>
            SplitFrom(rest, unitLength, outs) == Overrun && Inspected(rest, unitLength) == []
    ensures |rest| > 1 && |rest| >= unitLength + 1 ==>
              var n, r := ReadLength(rest, unitLength), rest[unitLength + 1..];
              if n > |r| || r == [] then
                SplitFrom(rest, unitLength, outs) == Malformed(outs) && Inspected(rest, unitLength) == []
              else
                SplitFrom(rest, unitLength, outs) == SplitFrom(r[n..], unitLength, outs + [r[..n]]) &&
                Inspected(rest, unitLength) == [r[0]] + Inspected(r[n..], unitLength)
  {
    hide ReadLength;
  }

  /** Units with two- and four-byte lengths are taken off the front one by one, whatever follows them. */
  lemma {:induction false} SplitFront(nals: seq<seq<byte>>, unitLength: nat, tail: seq<byte>, found: seq<seq<byte>>)
    requires (unitLength == 1 || unitLength == 3) && Fits(nals, unitLength)
    ensures SplitFrom(Avcc(nals, unitLength) + tail, unitLength, found) == SplitFrom(tail, unitLength, found + nals)
    decreases |nals|
  {
    hide ReadLength, PutLength, LengthLimit, Readable, SplitFrom, Inspected;
    if nals == [] {
      assert Avcc(nals, unitLength) + tail == tail && found + nals == found;
    } else {
      var nal, rest := nals[0], Avcc(nals[1..], unitLength) + tail;
      var head := PutLength(|nal|, unitLength);
      var data := head + (nal + rest);
      assert Avcc(nals, unitLength) + tail == data;
      LengthRead(|nal|, unitLength, nal + rest);
      TwoOrFour(|nal|, unitLength);
      assert data[unitLength + 1..] == nal + rest;
      assert (nal + rest)[|nal|..] == rest && (nal + rest)[..|nal|] == nal;
      SplitStep(data, unitLength, found);
      SplitFront(nals[1..], unitLength, tail, found + [nal]);
      assert found + [nal] + nals[1..] == found + nals;
    }
  }

  lemma TwoOrFour(n: nat, unitLength: nat)
    requires unitLength == 1 || unitLength == 3
    ensures Readable(n, unitLength)
  {
  }

  /**
   * After any units, the error names the units before it: a length of 0 at the very end or a unit cut short is refused,
   * a single byte over is ignored, and with two or three bytes over a four-byte length is read past the end.
   */
  lemma BadEnds(nals: seq<seq<byte>>, unitLength: nat, n: nat, part: seq<byte>, found: seq<seq<byte>>)
    requires (unitLength == 1 || unitLength == 3) && Fits(nals, unitLength)
    requires n < (if unitLength == 1 then 0x1_0000 else 0x1_0000_0000) && (part == [] || |part| < n)
    ensures SplitFrom(Avcc(nals, unitLength) + (PutLength(n, unitLength) + part), unitLength, found) ==
            Malformed(found + nals)
    ensures forall tail :: |tail| == 1 ==>
              SplitFrom(Avcc(nals, unitLength) + tail, unitLength, found) == Units(found + nals)
    ensures forall tail :: unitLength == 3 && 2 <= |tail| <= 3 ==>
              SplitFrom(Avcc(nals, unitLength) + tail, unitLength, found) == Overrun
  {
    hide ReadLength, PutLength, SplitFrom, Avcc, Inspected, Fits;
    var bad := PutLength(n, unitLength) + part;
    SplitFront(nals, unitLength, bad, found);
    SplitStep(bad, unitLength, found + nals);
    assert bad[unitLength + 1..] == part;
    AnyLength(n, unitLength, part);
    forall tail: seq<byte> | |tail| <= 3
      ensures SplitFrom(Avcc(nals, unitLength) + tail, unitLength, found) ==
              SplitFrom(tail, unitLength, found + nals)
    {
      SplitFront(nals, unitLength, tail, found);
    }
    forall tail: seq<byte> | |tail| <= 3
      ensures |tail| == 1 ==> SplitFrom(tail, unitLength, found + nals) == Units(found + nals)
      ensures unitLength == 3 && 2 <= |tail| ==> SplitFrom(tail, unitLength, found + nals) == Overrun
    {
      SplitStep(tail, unitLength, found + nals);
    }
  }

  lemma AnyLength(n: nat, unitLength: nat, tail: seq<byte>)
    requires (unitLength == 1 || unitLength == 3) && n < (if unitLength == 1 then 0x1_0000 else 0x1_0000_0000)
    ensures ReadLength(PutLength(n, unitLength) + tail, unitLength) == n
  {
    U16RoundTrip(n % 0x1_0000);
    U32RoundTrip(n);
    ReadPrefix(PutU32(n), tail);
    assert unitLength == 1 ==> (PutU16(n) + tail)[..2] == PutU16(n);
  }

  lemma SeenMore(bytes: seq<byte>, b: byte, kinds: set<nat>)
    ensures Seen(bytes + [b], kinds) <==> Seen(bytes, kinds) || b as int % 32 in kinds
  {
    if Seen(bytes, kinds) {
      var x :| x in bytes && x as int % 32 in kinds;
      assert x in bytes + [b];
    }
    if b as int % 32 in kinds {
      assert b in bytes + [b];
    }
  }

  // ---- The encoder ----

  const START_CODE: seq<byte> := [0, 0, 1]
  const DEFAULT_AUD: seq<byte> := [0x09, 0xf0]

  /** The parameter sets of a fragment's writer. */
  datatype Params = Params(sps: seq<byte>, pps: seq<byte>, appended: bool)

  function Needs(p: Params, sps: seq<byte>, pps: seq<byte>, inBand: bool): bool {
    !inBand && (p.sps != sps || p.pps != pps || !p.appended)
  }

  function WithSets(p: Params, sps: seq<byte>, pps: seq<byte>): Params {
    Params(if sps != [] then sps else p.sps, if pps != [] then pps else p.pps, true)
  }

  function Sets(sps: seq<byte>, pps: seq<byte>): seq<seq<byte>> {
    (if sps != [] then [sps] else []) + if pps != [] then [pps] else []
  }

  /** The NAL units an access unit is sent as, and the writer's parameter sets afterwards. */
  function Emitted(nals: seq<seq<byte>>, k: nat, p: Params, sps: seq<byte>, pps: seq<byte>,
                   inBand: bool): (seq<seq<byte>>, Params)
    requires k <= |nals|
    decreases k
  {
    if k == 0 then ([], p)
    else
      var (out, q) := Emitted(nals, k - 1, p, sps, pps, inBand);
      var (more, q1) := EmitOne(nals[k - 1], q, sps, pps, inBand);
      (out + more, q1)
  }

  function EmitOne(nal: seq<byte>, q: Params, sps: seq<byte>, pps: seq<byte>, inBand: bool): (seq<seq<byte>>, Params) {
    if nal == [] then ([], q)
    else if NalType(nal) == IDR && Needs(q, sps, pps, inBand) then (Sets(sps, pps) + [nal], WithSets(q, sps, pps))
    else ([nal], q)
  }

  function Aud(hasAud: bool): seq<seq<byte>> {
    if hasAud then [] else [DEFAULT_AUD]
  }

  /** Start codes in front of NAL units. */
  function Pieces(nals: seq<seq<byte>>): seq<seq<byte>>
    decreases |nals|
  {
    if nals == [] then [] else Pieces(nals[..|nals| - 1]) + [START_CODE, nals[|nals| - 1]]
  }

  function Total(pieces: seq<seq<byte>>): nat
    decreases |pieces|
  {
    if pieces == [] then 0 else Total(pieces[..|pieces| - 1]) + |pieces[|pieces| - 1]|
  }

  lemma PiecesMore(nals: seq<seq<byte>>, nal: seq<byte>)
    ensures Pieces(nals + [nal]) == Pieces(nals) + [START_CODE, nal]
    ensures Total(Pieces(nals + [nal])) == Total(Pieces(nals)) + 3 + |nal|
  {
    assert (nals + [nal])[..|nals|] == nals;
    var p := Pieces(nals);
    TotalMore(p, START_CODE);
    TotalMore(p + [START_CODE], nal);
    assert p + [START_CODE] + [nal] == p + [START_CODE, nal];
  }

  lemma TotalMore(pieces: seq<seq<byte>>, x: seq<byte>)
    ensures Total(pieces + [x]) == Total(pieces) + |x|
  {
    assert (pieces + [x])[..|pieces|] == pieces;
  }

  /** Fragment: where an access unit goes; it remembers which parameter sets it has. */
  class AvcWriter {
    var sps: seq<byte>
    var pps: seq<byte>
    var spsPpsAppended: bool

    constructor ()
      ensures Now() == Params([], [], false)
    {
      sps, pps, spsPpsAppended := [], [], false;
    }

    function Now(): Params
      reads this
    {
      Params(sps, pps, spsPpsAppended)
    }

    /** The parameter sets the demuxer has, each behind a start code. */
    method InsertSets(demux: VideoDemux, pieces: seq<seq<byte>>, size: nat, ghost nals: seq<seq<byte>>)
      returns (result: seq<seq<byte>>, totalSize: nat)
      requires pieces == Pieces(nals) && size == Total(pieces)
      modifies this
      ensures result == Pieces(nals + Sets(demux.sps, demux.pps)) && totalSize == Total(result)
      ensures Now() == WithSets(old(Now()), demux.sps, demux.pps)
    {
      hide Pieces, Total;
      ghost var all := nals;
      result, totalSize := pieces, size;
      if demux.sps != [] {
        PiecesMore(all, demux.sps);
        all := all + [demux.sps];
        result := result + [START_CODE, demux.sps];
        totalSize := totalSize + 3 + |demux.sps|;
        sps := demux.sps;
      }
      if demux.pps != [] {
        PiecesMore(all, demux.pps);
        all := all + [demux.pps];
        result := result + [START_CODE, demux.pps];
        totalSize := totalSize + 3 + |demux.pps|;
        pps := demux.pps;
      }
      spsPpsAppended := true;
      assert all == nals + Sets(demux.sps, demux.pps);
    }

    /** One sample of EncodeAvc. */
    method EncodeNal(demux: VideoDemux, l: seq<byte>, pieces: seq<seq<byte>>, size: nat, ghost nals: seq<seq<byte>>)
      returns (result: seq<seq<byte>>, totalSize: nat)
      requires pieces == Pieces(nals) && size == Total(pieces)
      modifies this
      ensures var (more, p) := EmitOne(l, old(Now()), demux.sps, demux.pps, demux.hasSpsPps);
              result == Pieces(nals + more) && Now() == p
      ensures totalSize == Total(result)
    {
      hide Pieces, Total, NalType, Sets, WithSets;
      ghost var all := nals;
      result, totalSize := pieces, size;
      if |l| <= 0 {
        assert nals + [] == nals;
        return;
      }
      if NalType(l) == IDR && !demux.hasSpsPps && (sps != demux.sps || pps != demux.pps || !spsPpsAppended) {
        result, totalSize := InsertSets(demux, result, totalSize, nals);
        all := nals + Sets(demux.sps, demux.pps);
        assert all + [l] == nals + (Sets(demux.sps, demux.pps) + [l]);
      }
      PiecesMore(all, l);
      result := result + [START_CODE, l];
      totalSize := totalSize + 3 + |l|;
    }

    /** VideoEncoder::EncodeAvc up to WriteVideoPes: the pieces of the payload and its announced size. */
    method EncodeAvc(demux: VideoDemux, samples: seq<seq<byte>>) returns (result: seq<seq<byte>>, totalSize: nat)
      modifies this
      ensures var (out, p) := Emitted(samples, |samples|, old(Now()), demux.sps, demux.pps, demux.hasSpsPps);
              result == Pieces(Aud(demux.hasAud) + out) && Now() == p
      ensures totalSize == Total(result)
    {
      hide Pieces, Total, EmitOne;
      ghost var nals: seq<seq<byte>> := [];
      NoPieces();
      result, totalSize := [], 0;
      if !demux.hasAud {
        PiecesMore(nals, DEFAULT_AUD);
        nals := nals + [DEFAULT_AUD];
        result := result + [START_CODE, DEFAULT_AUD];
        totalSize := totalSize + 3 + 2;
      }
      ghost var out: seq<seq<byte>> := [];
      assert nals == Aud(demux.hasAud) + out;
      var i := 0;
      while i < |samples|
        invariant 0 <= i <= |samples|
        invariant result == Pieces(Aud(demux.hasAud) + out) && totalSize == Total(result)
        invariant (out, Now()) == Emitted(samples, i, old(Now()), demux.sps, demux.pps, demux.hasSpsPps)
      {
        ghost var more := EmitOne(samples[i], Now(), demux.sps, demux.pps, demux.hasSpsPps).0;
        result, totalSize := EncodeNal(demux, samples[i], result, totalSize, Aud(demux.hasAud) + out);
        assert Aud(demux.hasAud) + out + more == Aud(demux.hasAud) + (out + more);
        out := out + more;
        i := i + 1;
      }
    }
  }

  lemma NoPieces()
    ensures Pieces([]) == [] && Total([]) == 0
  {
  }

  // ---- What is sent ----

  predicate AllFilled(nals: seq<seq<byte>>) {
    forall i :: 0 <= i < |nals| ==> nals[i] != []
  }

  /** The first IDR unit among the first `k`, or `k`. */
  function FirstIdr(nals: seq<seq<byte>>, k: nat): (r: nat)
    requires k <= |nals|
    ensures r <= k && (forall i :: 0 <= i < r ==> NalType(nals[i]) != IDR) && (r < k ==> NalType(nals[r]) == IDR)
    decreases k
  {
    if k == 0 then 0
    else
      var r := FirstIdr(nals, k - 1);
      if r < k - 1 then r else if NalType(nals[k - 1]) == IDR then k - 1 else k
  }

  /** The writer has a parameter set that the demuxer lacks, so the two never agree. */
  predicate Stale(p: Params, sps: seq<byte>, pps: seq<byte>) {
    (sps == [] && p.sps != []) || (pps == [] && p.pps != [])
  }

  /** The units with the parameter sets before every IDR unit. */
  function BeforeEveryIdr(nals: seq<seq<byte>>, k: nat, sets: seq<seq<byte>>): seq<seq<byte>>
    requires k <= |nals|
    decreases k
  {
    if k == 0 then []
    else BeforeEveryIdr(nals, k - 1, sets) + (if NalType(nals[k - 1]) == IDR then sets else []) + [nals[k - 1]]
  }

  /** What an access unit becomes: the units in order, with the parameter sets where they are due. */
  function Due(nals: seq<seq<byte>>, k: nat, p: Params, sps: seq<byte>, pps: seq<byte>, inBand: bool): seq<seq<byte>>
    requires k <= |nals|
  {
    var f := FirstIdr(nals, k);
    if !Needs(p, sps, pps, inBand) || f == k then nals[..k]
    else if Stale(p, sps, pps) then BeforeEveryIdr(nals, k, Sets(sps, pps))
    else nals[..f] + Sets(sps, pps) + nals[f..k]
  }

  /**
   * Every NAL unit is sent once and in order. Parameter sets that are not in band and that the writer lacks go directly
   * before the first IDR unit, once; but before every IDR unit if the demuxer lacks a set that the writer has.
   */
  lemma {:induction false} SentOnce(nals: seq<seq<byte>>, k: nat, p: Params, sps: seq<byte>, pps: seq<byte>,
                                    inBand: bool)
    requires k <= |nals| && AllFilled(nals)
    ensures var (out, q) := Emitted(nals, k, p, sps, pps, inBand);
            out == Due(nals, k, p, sps, pps, inBand) &&
            q == if Needs(p, sps, pps, inBand) && FirstIdr(nals, k) < k then WithSets(p, sps, pps) else p
    decreases k
  {
    hide NalType, EmitOne, FirstIdr, Needs, Stale, Sets, WithSets, BeforeEveryIdr;
    FirstIdrBound(nals, k);
    if k > 0 {
      SentOnce(nals, k - 1, p, sps, pps, inBand);
      var q := Emitted(nals, k - 1, p, sps, pps, inBand).1;
      OneSent(nals[k - 1], q, sps, pps, inBand);
      NeedsAgain(p, sps, pps, inBand);
      DueNext(nals, k, p, sps, pps, inBand);
    }
  }

  lemma FirstIdrBound(nals: seq<seq<byte>>, k: nat)
    requires k <= |nals|
    ensures FirstIdr(nals, k) <= k && (k == 0 ==> FirstIdr(nals, k) == 0)
  {
  }

  lemma OneSent(nal: seq<byte>, q: Params, sps: seq<byte>, pps: seq<byte>, inBand: bool)
    requires nal != []
    ensures EmitOne(nal, q, sps, pps, inBand) ==
            if NalType(nal) == IDR && Needs(q, sps, pps, inBand) then (Sets(sps, pps) + [nal], WithSets(q, sps, pps))
            else ([nal], q)
  {
  }

  lemma NeedsAgain(p: Params, sps: seq<byte>, pps: seq<byte>, inBand: bool)
    ensures var q := WithSets(p, sps, pps);
            WithSets(q, sps, pps) == q &&
            (Needs(p, sps, pps, inBand) ==> (Needs(q, sps, pps, inBand) <==> Stale(p, sps, pps)))
  {
  }

  /** What one more unit adds. */
  lemma DueNext(nals: seq<seq<byte>>, k: nat, p: Params, sps: seq<byte>, pps: seq<byte>, inBand: bool)
    requires 0 < k <= |nals|
    ensures var sets := NalType(nals[k - 1]) == IDR && Needs(p, sps, pps, inBand) &&
                        (FirstIdr(nals, k - 1) == k - 1 || Stale(p, sps, pps));
            Due(nals, k, p, sps, pps, inBand) ==
            Due(nals, k - 1, p, sps, pps, inBand) + ((if sets then Sets(sps, pps) else []) + [nals[k - 1]])
    ensures FirstIdr(nals, k) < k <==> FirstIdr(nals, k - 1) < k - 1 || NalType(nals[k - 1]) == IDR
  {
    hide NalType, FirstIdr, Needs, Stale, Sets, BeforeEveryIdr;
    FirstIdrNext(nals, k);
    FirstIdrBound(nals, k - 1);
    var f, s, x := FirstIdr(nals, k - 1), Sets(sps, pps), [nals[k - 1]];
    assert nals[..k] == nals[..k - 1] + x && [] + x == x;
    EveryIdrNext(nals, k, s);
    if f < k - 1 {
      InsertedNext(nals, f, k, s);
    } else {
      NoIdrYet(nals, k - 1, s);
      InsertedLast(nals, k, s);
    }
  }

  lemma EveryIdrNext(nals: seq<seq<byte>>, k: nat, s: seq<seq<byte>>)
    requires 0 < k <= |nals|
    ensures BeforeEveryIdr(nals, k, s) ==
            BeforeEveryIdr(nals, k - 1, s) + ((if NalType(nals[k - 1]) == IDR then s else []) + [nals[k - 1]])
  {
    hide NalType;
  }

  lemma InsertedNext(nals: seq<seq<byte>>, f: nat, k: nat, s: seq<seq<byte>>)
    requires f < k <= |nals|
    ensures nals[..f] + s + nals[f..k] == nals[..f] + s + nals[f..k - 1] + [nals[k - 1]]
  {
    assert nals[f..k] == nals[f..k - 1] + [nals[k - 1]];
  }

  lemma InsertedLast(nals: seq<seq<byte>>, k: nat, s: seq<seq<byte>>)
    requires 0 < k <= |nals|
    ensures nals[..k - 1] + s + nals[k - 1..k] == nals[..k - 1] + (s + [nals[k - 1]])
  {
    assert nals[k - 1..k] == [nals[k - 1]];
  }

  lemma {:induction false} NoIdrYet(nals: seq<seq<byte>>, k: nat, sets: seq<seq<byte>>)
    requires k <= |nals| && FirstIdr(nals, k) == k
    ensures BeforeEveryIdr(nals, k, sets) == nals[..k]
    decreases k
  {
    hide NalType;
    if k > 0 {
      NoIdrYet(nals, k - 1, sets);
      assert nals[..k] == nals[..k - 1] + [] + [nals[k - 1]];
    }
  }

  lemma FirstIdrNext(nals: seq<seq<byte>>, k: nat)
    requires 0 < k <= |nals|
    ensures var r := FirstIdr(nals, k - 1);
            FirstIdr(nals, k) == if r < k - 1 then r else if NalType(nals[k - 1]) == IDR then k - 1 else k
  {
  }

  // ---- The receiver of the start codes ----

  predicate CodeAt(s: seq<byte>, i: nat) {
    i + 3 <= |s| && s[i] == 0 && s[i + 1] == 0 && s[i + 2] == 1
  }

  /** The next start code at or after `i`, or the end. */
  function NextCode(s: seq<byte>, i: nat): (j: nat)
    requires i <= |s|
    ensures i <= j <= |s| && (forall m: nat :: i <= m < j ==> !CodeAt(s, m)) && (j < |s| ==> CodeAt(s, j))
    decreases |s| - i
  {
    if i == |s| || CodeAt(s, i) then i else NextCode(s, i + 1)
  }

  function ParseAnnexB(s: seq<byte>): seq<seq<byte>>
    decreases |s|
  {
    if !CodeAt(s, 0) then []
    else
      var j := NextCode(s, 3);
      [s[3..j]] + ParseAnnexB(s[j..])
  }

  function Joined(pieces: seq<seq<byte>>): seq<byte>
    decreases |pieces|
  {
    if pieces == [] then [] else pieces[0] + Joined(pieces[1..])
  }

  lemma {:induction false} JoinedAppend(a: seq<seq<byte>>, b: seq<seq<byte>>)
    ensures Joined(a + b) == Joined(a) + Joined(b)
    decreases |a|
  {
    if a == [] {
      assert a + b == b;
    } else {
      JoinedAppend(a[1..], b);
      assert (a + b)[1..] == a[1..] + b;
    }
  }

  /** NAL units behind start codes, front to back. */
  function AnnexB(nals: seq<seq<byte>>): seq<byte>
    decreases |nals|
  {
    if nals == [] then [] else START_CODE + nals[0] + AnnexB(nals[1..])
  }

  lemma {:induction false} AnnexBAppend(a: seq<seq<byte>>, nal: seq<byte>)
    ensures AnnexB(a + [nal]) == AnnexB(a) + START_CODE + nal
    decreases |a|
  {
    if a == [] {
      assert a + [nal] == [nal] && [nal][1..] == [];
      assert AnnexB([nal]) == START_CODE + nal + AnnexB([]);
    } else {
      AnnexBAppend(a[1..], nal);
      assert (a + [nal])[1..] == a[1..] + [nal];
    }
  }

  /** The payload is the NAL units behind start codes, and its size is what the encoder announced. */
  lemma {:induction false} PayloadIs(nals: seq<seq<byte>>)
    ensures Joined(Pieces(nals)) == AnnexB(nals) && Total(Pieces(nals)) == |AnnexB(nals)|
    decreases |nals|
  {
    hide Total;
    if nals == [] {
      NoPieces();
    } else {
      var n := |nals| - 1;
      var a, nal := nals[..n], nals[n];
      PayloadIs(a);
      PiecesMore(a, nal);
      AnnexBAppend(a, nal);
      assert a + [nal] == nals;
      JoinedAppend(Pieces(a), [START_CODE, nal]);
      JoinedPair(START_CODE, nal);
    }
  }

  lemma JoinedPair(x: seq<byte>, y: seq<byte>)
    ensures Joined([x, y]) == x + y
  {
    assert [x, y][1..] == [y] && [y][1..] == [];
    assert Joined([y]) == y + [];
  }

  /** A NAL unit after emulation prevention contains no start code. */
  ghost predicate Clean(nal: seq<byte>) {
    forall i: nat :: !CodeAt(nal, i)
  }

  /** Every list of clean NAL units is read back from its start codes. */
  lemma {:induction false} AnnexBParsed(nals: seq<seq<byte>>)
    requires forall i :: 0 <= i < |nals| ==> Clean(nals[i])
    ensures ParseAnnexB(AnnexB(nals)) == nals
    decreases |nals|
  {
    if nals != [] {
      hide Clean;
      var nal, tail := nals[0], AnnexB(nals[1..]);
      var s := START_CODE + nal + tail;
      NalEnds(nal, nals[1..]);
      AnnexBParsed(nals[1..]);
      assert s[3..3 + |nal|] == nal && s[3 + |nal|..] == tail;
      assert CodeAt(s, 0);
    }
  }

  /** No start code begins inside a clean NAL unit, not even with bytes of the next start code. */
  lemma NoCodeInside(nal: seq<byte>, tail: seq<byte>, m: nat)
    requires Clean(nal) && m < |nal|
    requires tail == [] || (|tail| >= 3 && tail[0] == 0 && tail[1] == 0)
    ensures !CodeAt(nal + tail, m)
  {
    if m + 3 <= |nal| {
      assert !CodeAt(nal, m);
    }
  }

  lemma NalEnds(nal: seq<byte>, rest: seq<seq<byte>>)
    requires Clean(nal)
    ensures NextCode(START_CODE + nal + AnnexB(rest), 3) == 3 + |nal|
  {
    hide Clean;
    var tail := AnnexB(rest);
    var s := START_CODE + nal + tail;
    assert s == START_CODE + (nal + tail);
    assert tail == [] || (|tail| >= 3 && tail[0] == 0 && tail[1] == 0 && tail[2] == 1);
    forall m: nat | 3 <= m < 3 + |nal| ensures !CodeAt(s, m) {
      NoCodeInside(nal, tail, m - 3);
      CodeShifts(nal + tail, m - 3);
    }
    if tail != [] {
      assert s[3 + |nal|] == tail[0] && s[4 + |nal|] == tail[1] && s[5 + |nal|] == tail[2];
      assert CodeAt(s, 3 + |nal|);
    }
  }

  lemma CodeShifts(s: seq<byte>, m: nat)
    ensures CodeAt(START_CODE + s, m + 3) <==> CodeAt(s, m)
  {
  }

  /**
   * From AVCC to Annex B: a clean access unit is split if and only if its lengths are readable, and then sent and found
   * again behind start codes, after the access unit delimiter and with the parameter sets where they are due.
   */
  lemma AccessUnitPreserved(nals: seq<seq<byte>>, unitLength: nat, hasAud: bool, p: Params, sps: seq<byte>,
                            pps: seq<byte>, inBand: bool)
    requires unitLength < 4 && Fits(nals, unitLength)
    requires Needs(p, sps, pps, inBand) ==> Clean(sps) && Clean(pps)
    requires forall i :: 0 <= i < |nals| ==> Clean(nals[i])
    ensures SplitFrom(Avcc(nals, unitLength), unitLength, []) == Units(nals) <==> AllReadable(nals, unitLength)
    ensures var out := Emitted(nals, |nals|, p, sps, pps, inBand).0;
            ParseAnnexB(Joined(Pieces(Aud(hasAud) + out))) == Aud(hasAud) + Due(nals, |nals|, p, sps, pps, inBand)
  {
    hide SplitFrom, Avcc, Emitted, ParseAnnexB, Joined, Pieces, AnnexB, Clean, FirstIdr, Needs, Due;
    SplitsAvcc(nals, unitLength, []);
    assert [] + nals == nals;
    SentOnce(nals, |nals|, p, sps, pps, inBand);
    var out := Emitted(nals, |nals|, p, sps, pps, inBand).0;
    DueClean(nals, |nals|, p, sps, pps, inBand);
    PayloadIs(Aud(hasAud) + out);
    AudClean();
    AnnexBParsed(Aud(hasAud) + out);
  }

  lemma DueClean(nals: seq<seq<byte>>, k: nat, p: Params, sps: seq<byte>, pps: seq<byte>, inBand: bool)
    requires k <= |nals| && forall i :: 0 <= i < |nals| ==> Clean(nals[i])
    requires Needs(p, sps, pps, inBand) ==> Clean(sps) && Clean(pps)
    ensures forall x :: x in Due(nals, k, p, sps, pps, inBand) ==> Clean(x)
  {
    hide Clean, Needs, FirstIdr, Stale;
    if Needs(p, sps, pps, inBand) {
      EveryClean(nals, k, Sets(sps, pps));
    }
  }

  lemma {:induction false} EveryClean(nals: seq<seq<byte>>, k: nat, sets: seq<seq<byte>>)
    requires k <= |nals| && (forall i :: 0 <= i < |nals| ==> Clean(nals[i])) && forall x :: x in sets ==> Clean(x)
    ensures forall x :: x in BeforeEveryIdr(nals, k, sets) ==> Clean(x)
    decreases k
  {
    hide Clean, NalType;
    if k > 0 {
      EveryClean(nals, k - 1, sets);
    }
  }

  lemma AudClean()
    ensures Clean(DEFAULT_AUD)
  {
  }

  // ---- The cases of a stream, in plain numbers ----

  /** What a receiver finds behind the start codes that EncodeAvc writes. */
  function Sent(nals: seq<seq<byte>>, hasAud: bool, p: Params, sps: seq<byte>, pps: seq<byte>, inBand: bool)
    : seq<seq<byte>>
  {
    ParseAnnexB(Joined(Pieces(Aud(hasAud) + Emitted(nals, |nals|, p, sps, pps, inBand).0)))
  }

  /** The delimiter put in front. */
  function Delimiter(hasAud: bool): seq<seq<byte>> {
    if hasAud then [] else [[0x09, 0xf0]]
  }

  ghost predicate AllClean(nals: seq<seq<byte>>) {
    forall i :: 0 <= i < |nals| ==> Clean(nals[i]) && nals[i] != []
  }

  /** The first unit of type 5 is at `f`. */
  ghost predicate FirstIdrAt(nals: seq<seq<byte>>, f: nat)
    requires AllClean(nals)
  {
    f < |nals| && nals[f][0] as int % 32 == 5 && forall i :: 0 <= i < f ==> nals[i][0] as int % 32 != 5
  }

  lemma SentIsDue(nals: seq<seq<byte>>, hasAud: bool, p: Params, sps: seq<byte>, pps: seq<byte>, inBand: bool)
    requires AllClean(nals) && Clean(sps) && Clean(pps)
    ensures Sent(nals, hasAud, p, sps, pps, inBand) == Delimiter(hasAud) + Due(nals, |nals|, p, sps, pps, inBand)
  {
    hide SplitFrom, Avcc, Emitted, ParseAnnexB, Joined, Pieces, AnnexB, Clean, FirstIdr, Needs, Due;
    SentOnce(nals, |nals|, p, sps, pps, inBand);
    DueClean(nals, |nals|, p, sps, pps, inBand);
    var all := Aud(hasAud) + Due(nals, |nals|, p, sps, pps, inBand);
    PayloadIs(all);
    AudClean();
    AnnexBParsed(all);
  }

  lemma FirstIdrIs(nals: seq<seq<byte>>, f: nat)
    requires AllClean(nals) && FirstIdrAt(nals, f)
    ensures FirstIdr(nals, |nals|) == f
  {
    hide Clean;
    var r := FirstIdr(nals, |nals|);
    assert nals[f] != [] && (r < |nals| ==> nals[r] != []);
  }

  lemma NoIdr(nals: seq<seq<byte>>)
    requires AllClean(nals) && forall i :: 0 <= i < |nals| ==> nals[i][0] as int % 32 != 5
    ensures FirstIdr(nals, |nals|) == |nals|
  {
    hide Clean;
    assert forall i :: 0 <= i < |nals| ==> nals[i] != [] && NalType(nals[i]) != IDR;
  }

  /** Parameter sets in band: exactly the units come out. */
  lemma SetsInBand(nals: seq<seq<byte>>, hasAud: bool, p: Params, sps: seq<byte>, pps: seq<byte>)
    requires AllClean(nals) && Clean(sps) && Clean(pps)
    ensures Sent(nals, hasAud, p, sps, pps, true) == Delimiter(hasAud) + nals
    ensures Emitted(nals, |nals|, p, sps, pps, true).1 == p
  {
    hide Clean, Emitted, Sent, FirstIdr;
    SentIsDue(nals, hasAud, p, sps, pps, true);
    SentOnce(nals, |nals|, p, sps, pps, true);
    assert nals[..|nals|] == nals;
  }

  /**
   * None in band, and a writer that has none: the sets the demuxer has go once, the sequence set first, directly before
   * the first IDR unit, and the writer has them from then on; without an IDR unit nothing is added.
   */
  lemma FreshWriter(nals: seq<seq<byte>>, hasAud: bool, sps: seq<byte>, pps: seq<byte>, f: nat)
    requires AllClean(nals) && Clean(sps) && Clean(pps) && (f == |nals| || FirstIdrAt(nals, f))
    requires f == |nals| ==> forall i :: 0 <= i < |nals| ==> nals[i][0] as int % 32 != 5
    ensures var sets := (if sps == [] then [] else [sps]) + (if pps == [] then [] else [pps]);
            Sent(nals, hasAud, Params([], [], false), sps, pps, false) ==
            Delimiter(hasAud) + (nals[..f] + (if f < |nals| then sets else []) + nals[f..])
    ensures Emitted(nals, |nals|, Params([], [], false), sps, pps, false).1 ==
            if f < |nals| then Params(sps, pps, true) else Params([], [], false)
  {
    hide Clean, Emitted, Sent, FirstIdr;
    if f < |nals| {
      FirstIdrIs(nals, f);
    } else {
      NoIdr(nals);
      assert nals[..f] + [] + nals[f..] == nals[..|nals|];
    }
    SentIsDue(nals, hasAud, Params([], [], false), sps, pps, false);
    SentOnce(nals, |nals|, Params([], [], false), sps, pps, false);
  }

  /** None in band, and a writer that has just these sets: exactly the units come out. */
  lemma KnownSets(nals: seq<seq<byte>>, hasAud: bool, sps: seq<byte>, pps: seq<byte>)
    requires AllClean(nals) && Clean(sps) && Clean(pps)
    ensures Sent(nals, hasAud, Params(sps, pps, true), sps, pps, false) == Delimiter(hasAud) + nals
    ensures Emitted(nals, |nals|, Params(sps, pps, true), sps, pps, false).1 == Params(sps, pps, true)
  {
    hide Clean, Emitted, Sent, FirstIdr;
    SentIsDue(nals, hasAud, Params(sps, pps, true), sps, pps, false);
    SentOnce(nals, |nals|, Params(sps, pps, true), sps, pps, false);
    assert nals[..|nals|] == nals;
  }

  /** Other sets than the writer has: the new ones go before the first IDR unit. */
  lemma ChangedSets(nals: seq<seq<byte>>, hasAud: bool, old1: seq<byte>, old2: seq<byte>, sps: seq<byte>,
                    pps: seq<byte>, f: nat)
    requires AllClean(nals) && Clean(sps) && Clean(pps) && FirstIdrAt(nals, f)
    requires sps != [] && pps != [] && (old1 != sps || old2 != pps)
    ensures Sent(nals, hasAud, Params(old1, old2, true), sps, pps, false) ==
            Delimiter(hasAud) + (nals[..f] + [sps, pps] + nals[f..])
    ensures Emitted(nals, |nals|, Params(old1, old2, true), sps, pps, false).1 == Params(sps, pps, true)
  {
    hide Clean, Emitted, Sent, FirstIdr;
    FirstIdrIs(nals, f);
    SentIsDue(nals, hasAud, Params(old1, old2, true), sps, pps, false);
    SentOnce(nals, |nals|, Params(old1, old2, true), sps, pps, false);
    assert [sps] + [pps] == [sps, pps];
  }

  /** The units that are not empty. */
  function Filled(nals: seq<seq<byte>>, k: nat): seq<seq<byte>>
    requires k <= |nals|
    decreases k
  {
    if k == 0 then [] else Filled(nals, k - 1) + if nals[k - 1] == [] then [] else [nals[k - 1]]
  }

  lemma {:induction false} EmittedPrefix(a: seq<seq<byte>>, b: seq<seq<byte>>, k: nat, p: Params, sps: seq<byte>,
                                         pps: seq<byte>, inBand: bool)
    requires k <= |a|
    ensures Emitted(a + b, k, p, sps, pps, inBand) == Emitted(a, k, p, sps, pps, inBand)
    decreases k
  {
    hide EmitOne;
    if k > 0 {
      EmittedPrefix(a, b, k - 1, p, sps, pps, inBand);
    }
  }

  /** Empty units leave no trace: an access unit is sent as it is without them. */
  lemma {:induction false} EmptyUnitsDropped(nals: seq<seq<byte>>, k: nat, p: Params, sps: seq<byte>, pps: seq<byte>,
                                             inBand: bool)
    requires k <= |nals|
    ensures var f := Filled(nals, k);
            Emitted(nals, k, p, sps, pps, inBand) == Emitted(f, |f|, p, sps, pps, inBand)
    decreases k
  {
    if k > 0 {
      EmptyUnitsDropped(nals, k - 1, p, sps, pps, inBand);
      hide NalType, Needs, Sets, WithSets;
      var f, nal := Filled(nals, k - 1), nals[k - 1];
      if nal == [] {
        assert Filled(nals, k) == f + [] == f;
        assert Emitted(nals, k - 1, p, sps, pps, inBand).0 + [] == Emitted(nals, k - 1, p, sps, pps, inBand).0;
      } else {
        EmittedPrefix(f, [nal], |f|, p, sps, pps, inBand);
      }
    }
  }
}
