/** Whole runs of the encoders: frames and program tables mixed in one transport stream come out of it again. */
module TsMux {
  import opened Bytes
  import opened Options
  import opened TsPackets
  import opened TsDemux
  import opened PesEncoders
  import opened PsiWriters

  /**
   * One call of WriteVideoPes or WriteAudioPes, or of WriteSection for a PAT or PMT, by encoder `enc`, whose pid is
   * `pid` at this moment.
   */
  datatype Call =
    | Frame(enc: nat, pid: nat, sid: byte, data: seq<byte>, pts: int, dts: int, key: bool)
    | Table(enc: nat, pid: nat, fields: Parsed)

  predicate Sound(f: Call) {
    f.pid < 0x2000 &&
    match f
    case Frame(_, _, _, data, _, _, _) => data != []
    case Table(_, _, t) => t.version < 32 && t.id < 0x10000 && |t.data| + 12 <= SECTION_SIZE
  }

  function HeaderOf(f: Call): (s: seq<byte>)
    requires f.Frame?
    ensures 14 <= |s| <= 19
  {
    PesHeader(f.sid, |f.data|, f.pts, f.dts)
  }

  function SectionOf(t: Parsed): (s: seq<byte>)
    requires t.version < 32 && |t.data| + 12 <= SECTION_SIZE
    ensures s != []
  {
    Section(t.tableId, t.id, t.version, t.secNum, t.lastSecNum, t.data)
  }

  /** What PesEncoder.WritePes or PsiWriter.WriteSection adds to the writer. */
  function CallPackets(cc: int, f: Call): (ps: seq<seq<byte>>)
    requires Sound(f)
    ensures forall p :: p in ps ==> |p| == PACKET_SIZE
  {
    match f
    case Frame(_, pid, _, data, pts, _, key) =>
      Packets(pid, true, cc, if key then Some(pts) else None, HeaderOf(f), data)
    case Table(_, pid, t) => SectionPackets(pid, true, cc, SectionOf(t))
  }

  /** What a demultiplexer gathers from it: a PES packet, or pointer field, section and filler. */
  function UnitOf(f: Call): seq<byte>
    requires Sound(f)
  {
    match f
    case Frame(_, _, _, data, _, _, _) => HeaderOf(f) + data
    case Table(_, _, t) => [0] + SectionOf(t) + Fill(FillerOf(true, |SectionOf(t)|), 0xff)
  }

  function CounterOf(ccs: map<nat, int>, enc: nat): int {
    if enc in ccs then ccs[enc] else -1
  }

  function After(ccs: map<nat, int>, f: Call): map<nat, int>
    requires Sound(f)
  {
    var cc := CounterOf(ccs, f.enc);
    ccs[f.enc := CcAfter(cc, |CallPackets(cc, f)|)]
  }

  function FirstCall(fs: seq<Call>): (f: Call)
    requires fs != [] && forall f :: f in fs ==> Sound(f)
    ensures f == fs[0] && Sound(f)
  {
    assert fs[0] in fs;
    fs[0]
  }

  /** The transport stream of a run of calls; every encoder has a counter of its own, which a change of pid keeps. */
  function Mux(ccs: map<nat, int>, fs: seq<Call>): (ps: seq<seq<byte>>)
    requires forall f :: f in fs ==> Sound(f)
    ensures forall p :: p in ps ==> |p| == PACKET_SIZE
    decreases |fs|
  {
    if fs == [] then []
    else
      var f := FirstCall(fs);
      CallPackets(CounterOf(ccs, f.enc), f) + Mux(After(ccs, f), fs[1..])
  }

  function OnlyPid(ps: seq<seq<byte>>, pid: nat): (r: seq<seq<byte>>)
    requires forall p :: p in ps ==> |p| == PACKET_SIZE
    ensures forall p :: p in r ==> |p| == PACKET_SIZE
    decreases |ps|
  {
    if ps == [] then []
    else (if PidOf(First(ps)) == pid then [First(ps)] else []) + OnlyPid(ps[1..], pid)
  }

  function Calls(fs: seq<Call>, pid: nat): (r: seq<Call>)
    ensures forall f :: f in r ==> f in fs
    decreases |fs|
  {
    if fs == [] then [] else (if fs[0].pid == pid then [fs[0]] else []) + Calls(fs[1..], pid)
  }

  function UnitsOf(fs: seq<Call>): (r: seq<seq<byte>>)
    requires forall f :: f in fs ==> Sound(f)
    ensures |r| == |fs|
    decreases |fs|
  {
    if fs == [] then [] else [UnitOf(FirstCall(fs))] + UnitsOf(fs[1..])
  }

  lemma OnlyPidCons(p: seq<byte>, ps: seq<seq<byte>>, pid: nat)
    requires |p| == PACKET_SIZE && forall q :: q in ps ==> |q| == PACKET_SIZE
    ensures OnlyPid([p] + ps, pid) == (if PidOf(p) == pid then [p] else []) + OnlyPid(ps, pid)
  {
    hide PidOf;
    assert ([p] + ps)[0] == p && ([p] + ps)[1..] == ps;
  }

  lemma OnlyPidNone(pid: nat)
    ensures OnlyPid([], pid) == []
  {
  }

  lemma {:induction false} OnlyPidAppend(a: seq<seq<byte>>, b: seq<seq<byte>>, pid: nat)
    requires (forall p :: p in a ==> |p| == PACKET_SIZE) && forall p :: p in b ==> |p| == PACKET_SIZE
    ensures OnlyPid(a + b, pid) == OnlyPid(a, pid) + OnlyPid(b, pid)
    decreases |a|
  {
    hide PidOf, OnlyPid;
    if a == [] {
      OnlyPidNone(pid);
      assert a + b == b && [] + OnlyPid(b, pid) == OnlyPid(b, pid);
    } else {
      var p, rest := First(a), a[1..];
      assert a == [p] + rest && a + b == [p] + (rest + b);
      OnlyPidCons(p, rest + b, pid);
      OnlyPidCons(p, rest, pid);
      OnlyPidAppend(rest, b, pid);
      Shift(if PidOf(p) == pid then [p] else [], OnlyPid(rest, pid), OnlyPid(b, pid));
    }
  }

  lemma {:induction false} OnlyPidOfRun(ps: seq<seq<byte>>, own: nat, cc: int, pid: nat)
    requires forall p :: p in ps ==> |p| == PACKET_SIZE
    requires Continuous(ps, own, cc)
    ensures OnlyPid(ps, pid) == if own == pid then ps else []
    decreases |ps|
  {
    hide PidOf, CcOf;
    if ps != [] {
      assert ps[0] in ps && PidOf(ps[0]) == own;
      assert Continuous(ps[1..], own, cc + 1) by {
        forall i | 0 <= i < |ps[1..]|
          ensures ps[1..][i][0] == 0x47 && PidOf(ps[1..][i]) == own && CcOf(ps[1..][i]) == (cc + 1 + 1 + i) % 16
        {
          assert ps[1..][i] == ps[i + 1];
        }
      }
      OnlyPidOfRun(ps[1..], own, cc + 1, pid);
    }
  }

  /** What the run shows of one pid. */
  ghost predicate Recovered(ccs: map<nat, int>, fs: seq<Call>, pid: nat)
    requires forall f :: f in fs ==> Sound(f)
  {
    Gather(OnlyPid(Mux(ccs, fs), pid)) == Units([], UnitsOf(Calls(fs, pid)))
  }

  lemma {:induction false} SectionContinuous(pid: nat, first: bool, cc: int, data: seq<byte>)
    requires pid < 0x2000
    ensures Continuous(SectionPackets(pid, first, cc, data), pid, cc)
    decreases |data|
  {
    hide SectionPacket, Part, PidOf, StartOf, CcOf, PayloadOf;
    if data != [] {
      var n := Part(first, |data|);
      PartRange(first, data);
      SectionPacketRead(pid, first, NextCc(cc), data);
      SectionContinuous(pid, false, NextCc(cc), data[n..]);
      OneMore(SectionPacket(pid, first, NextCc(cc), data), SectionPackets(pid, false, NextCc(cc), data[n..]), pid, cc);
    }
  }

  /** Units gathered from packets that are followed by the start of another unit. */
  lemma {:induction false} GatherAppend(a: seq<seq<byte>>, b: seq<seq<byte>>)
    requires (forall p :: p in a ==> |p| == PACKET_SIZE) && forall p :: p in b ==> |p| == PACKET_SIZE
    requires Gather(b).lead == []
    ensures Gather(a + b) == Units(Gather(a).lead, Gather(a).units + Gather(b).units)
    decreases |a|
  {
    hide StartOf, PayloadOf, Gather;
    if a == [] {
      GatherNone();
      assert a + b == b && [] + Gather(b).units == Gather(b).units;
    } else {
      assert a == [a[0]] + a[1..] && a + b == [a[0]] + (a[1..] + b);
      GatherAppend(a[1..], b);
      GatherCons(a[0], a[1..]);
      GatherCons(a[0], a[1..] + b);
      Shift([PayloadOf(a[0]) + Gather(a[1..]).lead], Gather(a[1..]).units, Gather(b).units);
    }
  }

  lemma Shift(a: seq<seq<byte>>, b: seq<seq<byte>>, c: seq<seq<byte>>)
    ensures a + (b + c) == a + b + c
  {
  }

  /** The packets of one call: continuous, and gathered into one unit. */
  lemma CallGathered(f: Call, cc: int, more: seq<seq<byte>>)
    requires Sound(f) && forall p :: p in more ==> |p| == PACKET_SIZE
    requires Gather(more).lead == []
    ensures Continuous(CallPackets(cc, f), f.pid, cc)
    ensures Gather(CallPackets(cc, f) + more) == Units([], [UnitOf(f)] + Gather(more).units)
  {
    hide Gather, HeaderOf, SectionOf, Continuous, Packets, SectionPackets, Fill, FillerOf;
    match f {
      case Frame(_, pid, _, data, pts, _, key) =>
        var pcr := if key then Some(pts) else None;
        PacketsContinuous(pid, true, cc, pcr, HeaderOf(f), data);
        UnitGathered(pid, cc, pcr, HeaderOf(f), data, more);
      case Table(_, pid, t) =>
        SectionContinuous(pid, true, cc, SectionOf(t));
        SectionGathered(pid, cc, SectionOf(t));
        GatherAppend(CallPackets(cc, f), more);
    }
  }

  /**
   * For every mixture of calls, by encoders that may change their pids, and every pid: a demultiplexer gathers from the
   * packets of that pid exactly one unit for each of its calls, in order.
   */
  lemma {:induction false} StreamRecovered(ccs: map<nat, int>, fs: seq<Call>, pid: nat)
    requires forall f :: f in fs ==> Sound(f)
    ensures Recovered(ccs, fs, pid)
    decreases |fs|
  {
    hide Gather, OnlyPid, CallPackets, UnitOf, CcAfter;
    if fs == [] {
      EmptyRun(ccs, pid);
    } else {
      var f := fs[0];
      assert f in fs;
      StreamRecovered(After(ccs, f), fs[1..], pid);
      CallAdded(ccs, fs, pid);
    }
  }

  lemma EmptyRun(ccs: map<nat, int>, pid: nat)
    ensures Recovered(ccs, [], pid)
  {
  }

  lemma CallAdded(ccs: map<nat, int>, fs: seq<Call>, pid: nat)
    requires fs != [] && forall f :: f in fs ==> Sound(f)
    requires Sound(fs[0]) && Recovered(After(ccs, fs[0]), fs[1..], pid)
    ensures Recovered(ccs, fs, pid)
  {
    hide Gather, OnlyPid, UnitOf, Continuous, CcAfter, CallPackets;
    var f := fs[0];
    var cc := CounterOf(ccs, f.enc);
    var ps := CallPackets(cc, f);
    var rest := Mux(After(ccs, f), fs[1..]);
    CallGathered(f, cc, []) by {
      GatherNone();
    }
    OnlyPidAppend(ps, rest, pid);
    OnlyPidOfRun(ps, f.pid, cc, pid);
    var mine := OnlyPid(rest, pid);
    if f.pid == pid {
      CallGathered(f, cc, mine);
      assert Calls(fs, pid) == [f] + Calls(fs[1..], pid);
    } else {
      assert [] + mine == mine;
      assert Calls(fs, pid) == Calls(fs[1..], pid);
    }
  }

  // ---- Continuity counters ----

  /** Packets whose counters run on modulo 16 from one to the next. */
  ghost predicate Consecutive(ps: seq<seq<byte>>)
    requires forall p :: p in ps ==> |p| == PACKET_SIZE
  {
    forall i {:trigger ps[i]} :: 0 < i < |ps| ==> CcOf(ps[i]) == (CcOf(ps[i - 1]) + 1) % 16
  }

  /** They go on from `last`, the counter of the packet before. */
  ghost predicate GoesOn(last: Option<int>, ps: seq<seq<byte>>)
    requires forall p :: p in ps ==> |p| == PACKET_SIZE
  {
    last.None? || ps == [] || CcOf(ps[0]) == (last.value + 1) % 16
  }

  function PacketCount(f: Call): nat
    requires Sound(f)
  {
    |CallPackets(0, f)|
  }

  /**
   * Between two calls on `pid` its encoder sends a multiple of 16 packets with other pids; `gap` of them since the last
   * call on `pid`, if there was one.
   */
  predicate GapsFull(fs: seq<Call>, enc: nat, pid: nat, gap: nat, started: bool)
    requires forall f :: f in fs ==> Sound(f)
    decreases |fs|
  {
    fs == [] ||
    var f := FirstCall(fs);
    if f.pid == pid then (started ==> gap % 16 == 0) && GapsFull(fs[1..], enc, pid, 0, true)
    else if f.enc == enc then GapsFull(fs[1..], enc, pid, gap + PacketCount(f), started)
    else GapsFull(fs[1..], enc, pid, gap, started)
  }

  lemma {:induction false} PacketsLength(pid: nat, start: bool, c: int, d: int, pcr: Option<int>, pes: seq<byte>,
                                         data: seq<byte>)
    requires pid < 0x10000 && |pes| <= 19 && (start || pcr.None?)
    ensures |Packets(pid, start, c, pcr, pes, data)| == |Packets(pid, start, d, pcr, pes, data)|
    ensures data != [] ==> Packets(pid, start, c, pcr, pes, data) != []
    decreases |data|
  {
    hide Packet, Take;
    if data != [] {
      PacketsLength(pid, false, NextCc(c), NextCc(d), None, [], data[Take(pcr, pes, data)..]);
    }
  }

  lemma {:induction false} SectionLength(pid: nat, first: bool, c: int, d: int, data: seq<byte>)
    requires pid < 0x10000
    ensures |SectionPackets(pid, first, c, data)| == |SectionPackets(pid, first, d, data)|
    ensures data != [] ==> SectionPackets(pid, first, c, data) != []
    decreases |data|
  {
    hide SectionPacket, Part;
    if data != [] {
      PartRange(first, data);
      SectionLength(pid, false, NextCc(c), NextCc(d), data[Part(first, |data|)..]);
    }
  }

  /** How many packets a call makes does not depend on the counter. */
  lemma CountIs(f: Call, cc: int)
    requires Sound(f)
    ensures |CallPackets(cc, f)| == PacketCount(f) > 0
  {
    hide Packets, SectionPackets, HeaderOf, SectionOf;
    match f {
      case Frame(_, pid, _, data, pts, _, key) =>
        PacketsLength(pid, true, cc, 0, if key then Some(pts) else None, HeaderOf(f), data);
      case Table(_, pid, t) =>
        SectionLength(pid, true, cc, 0, SectionOf(t));
    }
  }

  /** The pair at `i` is a good one. */
  ghost predicate Steps(ps: seq<seq<byte>>, i: nat)
    requires forall p :: p in ps ==> |p| == PACKET_SIZE
    requires 0 < i < |ps|
  {
    CcOf(ps[i]) == (CcOf(ps[i - 1]) + 1) % 16
  }

  lemma AsSteps(ps: seq<seq<byte>>)
    requires forall p :: p in ps ==> |p| == PACKET_SIZE
    ensures Consecutive(ps) <==> forall i :: 0 < i < |ps| ==> Steps(ps, i)
  {
    hide CcOf;
    if forall i :: 0 < i < |ps| ==> Steps(ps, i) {
      forall i {:trigger ps[i]} | 0 < i < |ps| ensures CcOf(ps[i]) == (CcOf(ps[i - 1]) + 1) % 16 {
        assert Steps(ps, i);
      }
    }
  }

  lemma StepsAppend(a: seq<seq<byte>>, b: seq<seq<byte>>, i: nat)
    requires (forall p :: p in a ==> |p| == PACKET_SIZE) && (forall p :: p in b ==> |p| == PACKET_SIZE) && a != []
    requires 0 < i < |a + b|
    ensures i < |a| ==> (Steps(a + b, i) <==> Steps(a, i))
    ensures i > |a| ==> (Steps(a + b, i) <==> Steps(b, i - |a|))
    ensures i == |a| ==> (Steps(a + b, i) <==> GoesOn(Some(CcOf(a[|a| - 1])), b))
  {
    hide CcOf;
  }

  lemma ConsecutiveAppend(a: seq<seq<byte>>, b: seq<seq<byte>>)
    requires (forall p :: p in a ==> |p| == PACKET_SIZE) && (forall p :: p in b ==> |p| == PACKET_SIZE) && a != []
    ensures Consecutive(a + b) <==> Consecutive(a) && Consecutive(b) && GoesOn(Some(CcOf(a[|a| - 1])), b)
  {
    hide CcOf, Consecutive, Steps;
    var ps := a + b;
    AsSteps(a);
    AsSteps(b);
    AsSteps(ps);
    forall i | 0 < i < |ps|
      ensures i < |a| ==> (Steps(ps, i) <==> Steps(a, i))
      ensures i > |a| ==> (Steps(ps, i) <==> Steps(b, i - |a|))
      ensures i == |a| ==> (Steps(ps, i) <==> GoesOn(Some(CcOf(a[|a| - 1])), b))
    {
      StepsAppend(a, b, i);
    }
    if Consecutive(ps) {
      forall i | 0 < i < |a| ensures Steps(a, i) {
        assert Steps(ps, i);
      }
      forall i | 0 < i < |b| ensures Steps(b, i) {
        StepsAppend(a, b, |a| + i);
        assert Steps(ps, |a| + i);
      }
      if b != [] {
        assert Steps(ps, |a|);
      }
    }
  }

  /** The counters of one call: consecutive, the first one after `cc`, the last one what the encoder remembers. */
  lemma CallCounters(ps: seq<seq<byte>>, pid: nat, cc: int)
    requires (forall p :: p in ps ==> |p| == PACKET_SIZE) && ps != [] && Continuous(ps, pid, cc)
    ensures Consecutive(ps) && CcOf(ps[0]) == (cc + 1) % 16 && CcOf(ps[|ps| - 1]) == CcAfter(cc, |ps|)
  {
    hide CcOf, PidOf;
    assert ps[|ps| - 1] == ps[|ps| - 1];
    forall i {:trigger ps[i]} | 0 < i < |ps| ensures CcOf(ps[i]) == (CcOf(ps[i - 1]) + 1) % 16 {
      assert ps[i - 1] in ps;
      CcStep(cc, i);
    }
  }

  lemma CcGap(last: int, cc: int, gap: nat)
    requires cc % 16 == (last + gap) % 16
    ensures (cc + 1) % 16 == (last + 1) % 16 <==> gap % 16 == 0
  {
    var k := cc / 16 - (last + gap) / 16;
    assert cc == last + gap + 16 * k;
    SameResidue(last + 1 + gap, k);
    assert cc + 1 == last + 1 + gap + 16 * k;
    AddedResidue(last + 1, gap);
  }

  lemma SameResidue(a: int, k: int)
    ensures (a + 16 * k) % 16 == a % 16
  {
  }

  lemma AddedResidue(a: int, n: nat)
    ensures (a + n) % 16 == a % 16 <==> n % 16 == 0
  {
    SameResidue(a + n % 16, n / 16);
    assert a + n == a + n % 16 + 16 * (n / 16);
  }

  lemma CcOn(last: int, cc: int, gap: nat, n: nat)
    requires cc % 16 == (last + gap) % 16
    ensures CcAfter(cc, n) % 16 == (last + (gap + n)) % 16
  {
    var k := cc / 16 - (last + gap) / 16;
    assert cc + n == last + (gap + n) + 16 * k;
    SameResidue(last + (gap + n), k);
    assert (cc + n) % 16 % 16 == (cc + n) % 16;
  }

  /**
   * For every mixture of calls and every pid that only encoder `enc` uses: its packets carry consecutive counters, on
   * from `last` before them, if and only if its gaps are full. The counter is `gap` packets ahead of `last`.
   */
  lemma {:induction false} PidConsecutive(ccs: map<nat, int>, fs: seq<Call>, enc: nat, pid: nat, last: Option<int>,
                                          gap: nat)
    requires forall f :: f in fs ==> Sound(f) && (f.pid == pid ==> f.enc == enc)
    requires last.Some? ==> CounterOf(ccs, enc) % 16 == (last.value + gap) % 16
    ensures var mine := OnlyPid(Mux(ccs, fs), pid);
            Consecutive(mine) && GoesOn(last, mine) <==> GapsFull(fs, enc, pid, gap, last.Some?)
    decreases |fs|
  {
    hide OnlyPid, CallPackets, CcOf, CcAfter, Consecutive, GoesOn, PacketCount, Sound, GapsFull, After, Mux;
    if fs == [] {
      NothingMuxed(ccs, pid, last);
      NoGaps(enc, pid, gap, last.Some?);
    } else {
      var f := FirstCall(fs);
      var ccs1, rest := After(ccs, f), fs[1..];
      assert forall g :: g in rest ==> g in fs;
      var cc := CounterOf(ccs, f.enc);
      CountIs(f, cc);
      MuxSplit(ccs, fs, pid);
      GapsStep(fs, enc, pid, gap, last.Some?);
      CounterAfter(ccs, f, enc);
      NothingBefore(OnlyPid(Mux(ccs1, rest), pid));
      if f.pid == pid {
        assert f in fs;
        CcOn(CcAfter(cc, PacketCount(f)), CcAfter(cc, PacketCount(f)), 0, 0);
        PidConsecutive(ccs1, rest, enc, pid, Some(CcAfter(cc, PacketCount(f))), 0);
        OwnCall(f, cc, last, gap, OnlyPid(Mux(ccs1, rest), pid));
      } else if f.enc == enc {
        if last.Some? {
          CcOn(last.value, cc, gap, PacketCount(f));
        }
        PidConsecutive(ccs1, rest, enc, pid, last, gap + PacketCount(f));
      } else {
        PidConsecutive(ccs1, rest, enc, pid, last, gap);
      }
    }
  }

  lemma NoGaps(enc: nat, pid: nat, gap: nat, started: bool)
    ensures GapsFull([], enc, pid, gap, started)
  {
  }

  lemma NothingBefore(ps: seq<seq<byte>>)
    ensures [] + ps == ps
  {
  }

  lemma GapsStep(fs: seq<Call>, enc: nat, pid: nat, gap: nat, started: bool)
    requires fs != [] && forall f :: f in fs ==> Sound(f)
    ensures var f := FirstCall(fs);
            GapsFull(fs, enc, pid, gap, started) ==
            if f.pid == pid then (started ==> gap % 16 == 0) && GapsFull(fs[1..], enc, pid, 0, true)
            else if f.enc == enc then GapsFull(fs[1..], enc, pid, gap + PacketCount(f), started)
            else GapsFull(fs[1..], enc, pid, gap, started)
  {
    hide PacketCount, Sound;
  }

  lemma CounterAfter(ccs: map<nat, int>, f: Call, enc: nat)
    requires Sound(f)
    ensures CounterOf(After(ccs, f), enc) ==
            if f.enc == enc then CcAfter(CounterOf(ccs, enc), |CallPackets(CounterOf(ccs, enc), f)|)
            else CounterOf(ccs, enc)
  {
    hide CcAfter, CallPackets, Sound;
  }

  lemma NothingMuxed(ccs: map<nat, int>, pid: nat, last: Option<int>)
    ensures var mine := OnlyPid(Mux(ccs, []), pid);
            Consecutive(mine) && GoesOn(last, mine)
  {
  }

  lemma MuxSplit(ccs: map<nat, int>, fs: seq<Call>, pid: nat)
    requires fs != [] && (forall f :: f in fs ==> Sound(f)) && Sound(fs[0])
    ensures OnlyPid(Mux(ccs, fs), pid) ==
            (if fs[0].pid == pid then CallPackets(CounterOf(ccs, fs[0].enc), fs[0]) else []) +
            OnlyPid(Mux(After(ccs, fs[0]), fs[1..]), pid)
  {
    hide OnlyPid, CallPackets, CcAfter, Sound, UnitOf, Gather, Continuous;
    var f := fs[0];
    var cc := CounterOf(ccs, f.enc);
    CallGathered(f, cc, []) by {
      GatherNone();
    }
    OnlyPidAppend(CallPackets(cc, f), Mux(After(ccs, f), fs[1..]), pid);
    OnlyPidOfRun(CallPackets(cc, f), f.pid, cc, pid);
  }

  lemma OwnCall(f: Call, cc: int, last: Option<int>, gap: nat, mine: seq<seq<byte>>)
    requires Sound(f) && forall p :: p in mine ==> |p| == PACKET_SIZE
    requires last.Some? ==> cc % 16 == (last.value + gap) % 16
    ensures var ps := CallPackets(cc, f);
            Consecutive(ps + mine) && GoesOn(last, ps + mine) <==>
            (last.Some? ==> gap % 16 == 0) && Consecutive(mine) && GoesOn(Some(CcAfter(cc, PacketCount(f))), mine)
  {
    hide CallPackets, CcOf, CcAfter, Consecutive, PacketCount, Sound, UnitOf, Gather, Continuous;
    var ps := CallPackets(cc, f);
    CountIs(f, cc);
    CallGathered(f, cc, []) by {
      GatherNone();
    }
    CallCounters(ps, f.pid, cc);
    ConsecutiveAppend(ps, mine);
    assert (ps + mine)[0] == ps[0];
    if last.Some? {
      CcGap(last.value, cc, gap);
    }
  }

  /** An encoder that keeps its pid, and a pid that keeps its encoder: the counters never break. */
  lemma {:induction false} SteadyPid(fs: seq<Call>, enc: nat, pid: nat, started: bool)
    requires forall f :: f in fs ==> Sound(f) && (f.pid == pid <==> f.enc == enc)
    ensures GapsFull(fs, enc, pid, 0, started)
    decreases |fs|
  {
    if fs != [] {
      assert fs[0] in fs;
      SteadyPid(fs[1..], enc, pid, true);
      SteadyPid(fs[1..], enc, pid, started);
    }
  }

  /** AAC, MP3 and AAC again, one packet each: the packets of pid 0x101 skip a number. */
  lemma PidChangeExample(data: byte)
    ensures var aac, mp3 := Frame(1, 0x101, 0xc0, [data], 0, 0, false), Frame(1, 0x102, 0xc0, [data], 0, 0, false);
            !Consecutive(OnlyPid(Mux(map[], [aac, mp3, aac]), 0x101))
  {
    hide Consecutive, OnlyPid, Mux, GoesOn, GapsFull, PacketCount;
    var aac, mp3 := Frame(1, 0x101, 0xc0, [data], 0, 0, false), Frame(1, 0x102, 0xc0, [data], 0, 0, false);
    var fs := [aac, mp3, aac];
    PidConsecutive(map[], fs, 1, 0x101, None, 0);
    OnePacket(mp3);
    GapOfOne(aac, mp3);
    NoneGoesOn(OnlyPid(Mux(map[], fs), 0x101));
  }

  lemma GapOfOne(a: Call, b: Call)
    requires Sound(a) && Sound(b) && a.pid != b.pid && b.enc == a.enc && PacketCount(b) == 1
    ensures !GapsFull([a, b, a], a.enc, a.pid, 0, false)
  {
    hide PacketCount, Sound;
    assert [a, b, a][1..] == [b, a] && [b, a][1..] == [a];
    assert !GapsFull([a], a.enc, a.pid, 1, true);
    assert !GapsFull([b, a], a.enc, a.pid, 0, true);
  }

  lemma NoneGoesOn(ps: seq<seq<byte>>)
    requires forall p :: p in ps ==> |p| == PACKET_SIZE
    ensures GoesOn(None, ps)
  {
  }

  lemma OnePacket(f: Call)
    requires Sound(f) && f.Frame? && !f.key && |f.data| == 1
    ensures PacketCount(f) == 1
  {
    hide Packet;
    var h := HeaderOf(f);
    assert Take(None, h, f.data) == 1;
    assert f.data[1..] == [];
    assert Packets(f.pid, false, NextCc(0), None, [], []) == [];
  }

  // ---- Reading the units ----

  /** A gathered unit reads back as the call that sent it. */
  predicate ReadsBack(u: seq<byte>, f: Call) {
    match f
    case Frame(_, _, sid, data, pts, dts, _) =>
      var pes := ParsePes(u);
      pes.Some? && pes.value.data == data && pes.value.sid == sid && pes.value.pts == pts % TWO33 &&
      pes.value.dts == dts % TWO33 && pes.value.length == if |u| - 6 > 0xffff then 0 else |u| - 6
    case Table(_, _, t) =>
      var s := FindSection(u);
      s.Some? && ParseSection(s.value) == Some(t)
  }

  /** Every gathered unit is read back: payload, stream id and time stamps, or every field of the table, CRC checked. */
  lemma {:induction false} UnitsRead(fs: seq<Call>, i: nat)
    requires i < |fs| && forall f :: f in fs ==> Sound(f)
    ensures ReadsBack(UnitsOf(fs)[i], fs[i])
    decreases |fs|
  {
    hide UnitOf, ReadsBack, Sound;
    assert fs[0] in fs && Sound(fs[0]);
    if i > 0 {
      UnitsRead(fs[1..], i - 1);
    } else {
      UnitRead(fs[0]);
    }
  }

  lemma UnitRead(f: Call)
    requires Sound(f)
    ensures ReadsBack(UnitOf(f), f)
  {
    hide ParsePes, PesHeader, FindSection, ParseSection, Section, Fill, FillerOf;
    match f {
      case Frame(_, _, sid, data, pts, dts, _) =>
        PesHeaderRead(sid, |data|, pts, dts, data);
      case Table(_, _, t) =>
        SectionFound(t.tableId, t.id, t.version, t.secNum, t.lastSecNum, t.data,
          Fill(FillerOf(true, |SectionOf(t)|), 0xff));
        SectionRead(t.tableId, t.id, t.version, t.secNum, t.lastSecNum, t.data);
    }
  }

  // ---- Clocks ----

  lemma {:induction false} NoClocks(pid: nat, cc: int, data: seq<byte>)
    requires pid < 0x2000
    ensures forall p :: p in Packets(pid, false, cc, None, [], data) ==>
              Sound188(p) && !StartOf(p) && PcrOf(p) == None
    decreases |data|
  {
    hide Packet, Sound188, StartOf, PcrOf, PidOf, CcOf, PayloadOf;
    if data != [] {
      PacketRead(pid, false, NextCc(cc), None, [], data);
      NoClocks(pid, NextCc(cc), data[Take(None, [], data)..]);
    }
  }

  /**
   * Every packet of a frame is well formed, the first one alone has the start flag, and a clock is in the first packet
   * of a key frame and nowhere else: it is the frame's presentation time.
   */
  lemma ClocksRead(cc: int, f: Call)
    requires Sound(f) && f.Frame?
    ensures var ps := CallPackets(cc, f);
            ps != [] && Sound188(ps[0]) && StartOf(ps[0]) &&
            PcrOf(ps[0]) == (if f.key then Some(f.pts % 0x2_0000_0000) else None) &&
            forall i :: 0 < i < |ps| ==> Sound188(ps[i]) && !StartOf(ps[i]) && PcrOf(ps[i]) == None
  {
    hide Packet, Sound188, StartOf, PcrOf, PidOf, CcOf, PayloadOf, PesHeader;
    var pcr, pes := if f.key then Some(f.pts) else None, HeaderOf(f);
    PacketRead(f.pid, true, NextCc(cc), pcr, pes, f.data);
    NoClocks(f.pid, NextCc(cc), f.data[Take(pcr, pes, f.data)..]);
  }
}
