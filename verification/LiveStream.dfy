/** The live stream and its players as the objects the server keeps, tied to the packet history. */
module LiveStream {
  import opened Options
  import opened LiveModel
  import opened LivePlayers

  // ---- GOP index ----

  /** The GOPs after index `min`. */
  function Above(gs: seq<Gop>, min: int): seq<Gop>
    decreases |gs|
  {
    if gs == [] then []
    else Above(gs[..|gs| - 1], min) + if gs[|gs| - 1].index > min then [gs[|gs| - 1]] else []
  }

  lemma {:induction false} AboveAppend(a: seq<Gop>, b: seq<Gop>, min: int)
    ensures Above(a + b, min) == Above(a, min) + Above(b, min)
    decreases |b|
  {
    if b == [] {
      assert a + b == a;
    } else {
      var n := |b| - 1;
      AboveAppend(a, b[..n], min);
      assert (a + b)[..|a + b| - 1] == a + b[..n];
    }
  }

  /** Removing old GOPs from the index is the same as never having counted them. */
  lemma {:induction false} GopsAbove(h: seq<Pkt>, from: int, min: int)
    requires from <= min
    ensures Above(Gops(h, from), min) == Gops(h, min)
    decreases |h|
  {
    if h != [] {
      var n := |h| - 1;
      GopsAbove(h[..n], from, min);
      AboveAppend(Gops(h[..n], from), if h[n].key && n > from then [Gop(n, h[n].ts)] else [], min);
    }
  }

  /** What a packet adds to the GOP index. */
  function NewGop(x: Pkt, n: nat): seq<Gop> {
    if x.key then [Gop(n, x.ts)] else []
  }

  class GopMgr {
    var gops: seq<Gop>
    var lastestTimestamp: int

    constructor ()
      ensures gops == [] && lastestTimestamp == 0
    {
      gops, lastestTimestamp := [], 0;
    }

    method AddFrame(packet: Pkt)
      modifies this
      ensures lastestTimestamp == packet.ts
      ensures gops == old(gops) + NewGop(packet, packet.index)
    {
      lastestTimestamp := packet.ts;
      if packet.key {
        gops := gops + [Gop(packet.index, packet.ts)];
      }
    }

    method GetGopByLatency(contentLatency: int) returns (got: int)
      ensures got == ByLatency(gops, lastestTimestamp, contentLatency)
    {
      got := -1;
      var i := |gops|;
      ByLatencyFrom(gops, |gops|, lastestTimestamp, contentLatency, -1);
      while i > 0
        invariant 0 <= i <= |gops|
        invariant ByLatency(gops, lastestTimestamp, contentLatency) ==
                  Rest(gops[..i], lastestTimestamp, contentLatency, got)
      {
        var item := gops[i - 1];
        assert gops[..i][..i - 1] == gops[..i - 1];
        if lastestTimestamp - item.ts <= contentLatency {
          got := item.index;
        } else {
          break;
        }
        i := i - 1;
      }
    }

    method ClearExpriedGop(minIdx: int)
      modifies this
      ensures gops == Above(old(gops), minIdx)
      ensures lastestTimestamp == old(lastestTimestamp)
    {
      hide Above;
      var i := 0;
      ghost var j := 0;
      ghost var was := gops;
      AboveNone(minIdx);
      while i < |gops|
        invariant 0 <= i <= |gops| && 0 <= j <= |was|
        invariant gops[..i] == Above(was[..j], minIdx) && gops[i..] == was[j..]
        invariant lastestTimestamp == old(lastestTimestamp)
        decreases |gops| - i
      {
        assert gops[i] == gops[i..][0] && gops[i] == was[j];
        assert gops[i + 1..] == gops[i..][1..] && was[j + 1..] == was[j..][1..];
        AboveNext(was, j, minIdx);
        if gops[i].index <= minIdx {
          ghost var kept := gops[..i];
          gops := gops[..i] + gops[i + 1..];
          assert gops[..i] == kept && gops[i..] == was[j + 1..];
        } else {
          assert gops[..i + 1] == gops[..i] + [gops[i]];
          i := i + 1;
        }
        j := j + 1;
      }
      assert was[..j] == was && gops[..i] == gops;
    }
  }

  lemma AboveNext(gs: seq<Gop>, j: nat, min: int)
    requires j < |gs|
    ensures Above(gs[..j + 1], min) == if gs[j].index > min then Above(gs[..j], min) + [gs[j]] else Above(gs[..j], min)
  {
    assert gs[..j + 1][..j] == gs[..j];
  }

  /** What is left to find when the newer GOPs have given `got`. */
  function Rest(gs: seq<Gop>, latest: int, latency: int, got: int): int {
    var r := ByLatency(gs, latest, latency);
    if r == -1 then got else r
  }

  lemma ByLatencyFrom(gs: seq<Gop>, n: nat, latest: int, latency: int, got: int)
    requires n == |gs| && got == -1
    ensures gs[..n] == gs && Rest(gs, latest, latency, got) == ByLatency(gs, latest, latency)
  {
  }

  // ---- Codec headers ----

  class CodecHeader {
    var meta: Option<Pkt>
    var audioHeader: Option<Pkt>
    var videoHeader: Option<Pkt>
    var metaPackets: seq<Pkt>
    var audioHeaderPackets: seq<Pkt>
    var videoHeaderPackets: seq<Pkt>

    ghost predicate Valid()
      reads this
    {
      meta == Last(metaPackets) && audioHeader == Last(audioHeaderPackets) && videoHeader == Last(videoHeaderPackets)
    }

    constructor ()
      ensures Valid() && metaPackets == [] && audioHeaderPackets == [] && videoHeaderPackets == []
    {
      meta, audioHeader, videoHeader := None, None, None;
      metaPackets, audioHeaderPackets, videoHeaderPackets := [], [], [];
    }

    method Meta(idx: int) returns (r: Option<Pkt>)
      requires Valid()
      ensures r == HeaderFor(metaPackets, idx)
    {
      r := Lookup(metaPackets, meta, idx);
    }

    method AudioHeader(idx: int) returns (r: Option<Pkt>)
      requires Valid()
      ensures r == HeaderFor(audioHeaderPackets, idx)
    {
      r := Lookup(audioHeaderPackets, audioHeader, idx);
    }

    method VideoHeader(idx: int) returns (r: Option<Pkt>)
      requires Valid()
      ensures r == HeaderFor(videoHeaderPackets, idx)
    {
      r := Lookup(videoHeaderPackets, videoHeader, idx);
    }

    /** The loop the three lookups share: from the newest packet back to one that is not after `idx`. */
    static method Lookup(packets: seq<Pkt>, newest: Option<Pkt>, idx: int) returns (r: Option<Pkt>)
      requires newest == Last(packets)
      ensures r == HeaderFor(packets, idx)
    {
      if idx <= 0 {
        return newest;
      }
      var i := |packets|;
      assert packets[..i] == packets;
      while i > 0
        invariant 0 <= i <= |packets|
        invariant NotAfter(packets, idx) == NotAfter(packets[..i], idx)
      {
        assert packets[..i][..i - 1] == packets[..i - 1];
        if packets[i - 1].index <= idx {
          return Some(packets[i - 1]);
        }
        i := i - 1;
      }
      r := newest;
    }

    method ParseCodecHeader(packet: Pkt)
      requires Valid()
      modifies this
      ensures Valid()
      ensures metaPackets == old(metaPackets) + if packet.kind.Meta? then [packet] else []
      ensures audioHeaderPackets == old(audioHeaderPackets) + if packet.kind.Audio? then [packet] else []
      ensures videoHeaderPackets == old(videoHeaderPackets) + if packet.kind.Video? then [packet] else []
    {
      if packet.kind.Meta? {
        meta := Some(packet);
        metaPackets := metaPackets + [packet];
      } else if packet.kind.Audio? {
        audioHeader := Some(packet);
        audioHeaderPackets := audioHeaderPackets + [packet];
      } else if packet.kind.Video? {
        videoHeader := Some(packet);
        videoHeaderPackets := videoHeaderPackets + [packet];
      }
    }
  }

  // ---- The stream ----

  /** What cache slot `k` holds after history `h`. */
  function SlotOf(h: seq<Pkt>, k: nat): Option<Pkt> {
    if k < |h| then Some(h[Newest(|h|, k)]) else None
  }

  lemma NewestMoves(n: nat, k: nat)
    requires k < CACHE && k < n
    ensures n % CACHE == k ==> Newest(n + 1, k) == n
    ensures n % CACHE != k ==> Newest(n + 1, k) == Newest(n, k)
  {
  }

  lemma SlotMoves(h: seq<Pkt>, x: Pkt, k: nat)
    requires k < CACHE
    ensures SlotOf(h + [x], k) == if k == |h| % CACHE then Some(x) else SlotOf(h, k)
  {
    hide Newest;
    var n := |h|;
    if k < n {
      NewestMoves(n, k);
      if n % CACHE != k {
        assert (h + [x])[Newest(n, k)] == h[Newest(n, k)];
      }
    } else if k == n {
      NewestLast(n);
    } else {
      SlotEmpty(n, k);
    }
  }

  lemma NewestLast(n: nat)
    ensures Newest(n + 1, n) == n
  {
  }

  lemma SlotEmpty(n: nat, k: nat)
    requires n < k < CACHE
    ensures n % CACHE != k
  {
  }

  /** The slot of index `i` holds the newest packet that shares it. */
  lemma SlotRead(h: seq<Pkt>, i: nat)
    requires i < |h|
    ensures SlotOf(h, i % CACHE) == Some(h[Newest(|h|, i)])
  {
    var n := |h|;
    assert i == i / CACHE * CACHE + i % CACHE;
    assert (n - 1 - i % CACHE) / CACHE == (n - 1 - i) / CACHE + i / CACHE;
  }

  lemma GopsGrow(h: seq<Pkt>, x: Pkt, from: int)
    ensures Gops(h + [x], from) == Gops(h, from) + if |h| > from then NewGop(x, |h|) else []
  {
    var g := h + [x];
    assert g[..|g| - 1] == h;
  }

  lemma AboveOne(g: Gop, min: int)
    ensures Above([g], min) == if g.index > min then [g] else []
  {
    assert [g][..0] == [];
  }

  lemma GopsShift(h: seq<Pkt>, x: Pkt, from: int, min: int)
    requires from <= min < |h|
    ensures Gops(h + [x], min) == Above(Gops(h, from) + NewGop(x, |h|), min)
  {
    hide Gops, Above;
    GopsGrow(h, x, min);
    GopsAbove(h, from, min);
    AboveAppend(Gops(h, from), NewGop(x, |h|), min);
    AboveOne(Gop(|h|, x.ts), min);
    AboveNone(min);
  }

  lemma GopIndexIs(h: seq<Pkt>, n: nat)
    requires |h| == n
    ensures GopIndex(h) == Gops(h, if n > CACHE + 1 then n - 1 - CACHE else -1)
  {
    hide Gops;
  }

  lemma GopIndexShifts(h: seq<Pkt>, x: Pkt)
    requires |h| > CACHE
    ensures GopIndex(h + [x]) == Above(GopIndex(h) + NewGop(x, |h|), |h| - CACHE)
  {
    hide Gops, Above, NewGop, GopIndex;
    var n := |h|;
    GopIndexIs(h, n);
    GopIndexIs(h + [x], n + 1);
    GopsShift(h, x, if n > CACHE + 1 then n - 1 - CACHE else -1, n - CACHE);
  }

  lemma GopIndexGrows(h: seq<Pkt>, x: Pkt)
    requires |h| <= CACHE
    ensures GopIndex(h + [x]) == GopIndex(h) + NewGop(x, |h|)
  {
    hide Gops, NewGop, GopIndex;
    GopIndexIs(h, |h|);
    GopIndexIs(h + [x], |h| + 1);
    GopsGrow(h, x, -1);
  }

  lemma AboveNone(min: int)
    ensures Above([], min) == []
  {
  }

  lemma BurstNext(h: seq<Pkt>, from: int, k: nat)
    requires Indexed(h) && from >= -1 && k > 0 && from + 1 < |h|
    ensures var x := h[Newest(|h|, from + 1)];
            x.index >= 0 && Burst(h, from, k) == [x] + Burst(h, x.index, k - 1)
  {
  }

  lemma BurstDone(h: seq<Pkt>, from: int, k: nat)
    requires from >= -1 && (k == 0 || from + 1 >= |h|)
    ensures Burst(h, from, k) == []
  {
  }

  /** A player after taking packets `b` so far. */
  function Taken(p: Player, b: seq<Pkt>): Player {
    if b == [] then p else Take(p, b)
  }

  lemma TakeMore(p: Player, b: seq<Pkt>, x: Pkt)
    ensures var q := Taken(p, b);
            Taken(p, b + [x]) == q.(outFrames := q.outFrames + [x], outIndex := x.index, outTs := x.ts)
  {
    assert p.outFrames + (b + [x]) == Taken(p, b).outFrames + [x];
  }

  lemma HeadersGrow(h: seq<Pkt>, x: Pkt, kind: Kind)
    ensures Headers(h + [x], kind) == Headers(h, kind) + if x.header && x.kind == kind then [x] else []
  {
    var g := h + [x];
    assert g[..|g| - 1] == h;
  }

  lemma NoHeaderGrows(h: seq<Pkt>, x: Pkt)
    requires !x.header
    ensures forall kind :: Headers(h + [x], kind) == Headers(h, kind)
    ensures forall kind :: Has(h + [x], kind) == Has(h, kind)
  {
    forall kind ensures Headers(h + [x], kind) == Headers(h, kind) {
      HeadersGrow(h, x, kind);
    }
  }

  lemma IndexedGrows(h: seq<Pkt>, x: Pkt)
    requires Indexed(h) && x.index == |h| && (x.key ==> x.kind.Video?)
    ensures Indexed(h + [x]) && LatestTs(h + [x]) == x.ts
  {
  }

  lemma ReadyGrows(h: seq<Pkt>, x: Pkt)
    ensures LivePlayers.Ready(h + [x]) <==> LivePlayers.Ready(h) || x.key
  {
    var g := h + [x];
    assert g[..|g| - 1] == h;
  }

  class Stream {
    const packetBuffer: array<Option<Pkt>>
    const gopMgr: GopMgr
    const codecHeaders: CodecHeader
    var frameIndex: int
    var hasMeta: bool
    var hasAudio: bool
    var hasVideo: bool
    var ready: bool
    var streamVersion: int
    ghost var history: seq<Pkt>

    ghost predicate SlotsOk()
      reads this, packetBuffer
    {
      packetBuffer.Length == CACHE && forall k :: 0 <= k < CACHE ==> packetBuffer[k] == SlotOf(history, k)
    }

    ghost predicate HeadersFit(h: seq<Pkt>)
      reads `hasMeta, `hasAudio, `hasVideo, codecHeaders
    {
      codecHeaders.Valid() &&
      codecHeaders.metaPackets == Headers(h, Meta) &&
      codecHeaders.audioHeaderPackets == Headers(h, Audio) &&
      codecHeaders.videoHeaderPackets == Headers(h, Video) &&
      (hasMeta <==> Has(h, Meta)) && (hasAudio <==> Has(h, Audio)) && (hasVideo <==> Has(h, Video))
    }

    ghost predicate HeadersOk()
      reads this, codecHeaders
    {
      HeadersFit(history)
    }

    /** Cache, GOP index, headers and flags all agree with the history. */
    ghost predicate Valid()
      reads this, packetBuffer, gopMgr, codecHeaders
    {
      Indexed(history) && frameIndex == |history| - 1 && SlotsOk() && HeadersOk() &&
      gopMgr.gops == GopIndex(history) && gopMgr.lastestTimestamp == LatestTs(history) &&
      (ready <==> LivePlayers.Ready(history))
    }

    constructor ()
      ensures Valid() && history == []
      ensures fresh(packetBuffer) && fresh(gopMgr) && fresh(codecHeaders)
    {
      packetBuffer := new Option<Pkt>[CACHE](_ => None);
      gopMgr := new GopMgr();
      codecHeaders := new CodecHeader();
      frameIndex, streamVersion := -1, -1;
      hasMeta, hasAudio, hasVideo, ready := false, false, false, false;
      history := [];
    }

    lemma ValidParts()
      requires Valid()
      ensures Indexed(history) && HeadersOk()
    {
    }

    method HasAnyMedia() returns (r: bool)
      requires Valid()
      ensures r <==> HasMedia(history)
    {
      r := hasAudio || hasVideo || hasMeta;
    }

    method SaveHeader(packet: Pkt)
      requires HeadersOk() && packet.header
      modifies this`hasMeta, this`hasAudio, this`hasVideo, this`streamVersion, codecHeaders
      ensures HeadersFit(history + [packet])
    {
      hide Headers;
      codecHeaders.ParseCodecHeader(packet);
      if packet.kind.Video? {
        hasVideo := true;
        streamVersion := streamVersion + 1;
      } else if packet.kind.Audio? {
        hasAudio := true;
        streamVersion := streamVersion + 1;
      } else if packet.kind.Meta? {
        hasMeta := true;
        streamVersion := streamVersion + 1;
      }
      HeadersGrow(history, packet, Meta);
      HeadersGrow(history, packet, Audio);
      HeadersGrow(history, packet, Video);
    }

    lemma HeadersStay(packet: Pkt)
      requires HeadersFit(history) && !packet.header
      ensures HeadersFit(history + [packet])
    {
      hide Headers, Has;
      NoHeaderGrows(history, packet);
    }

    method AddPacket(pkt: Pkt)
      requires Valid()
      modifies this, packetBuffer, gopMgr, codecHeaders
      ensures Valid() && history == old(history) + [Stamped(old(history), pkt)]
    {
      hide HeadersFit, Gops, GopIndex, Above, NewGop, Newest, SlotOf, LivePlayers.Ready, Indexed, LatestTs;
      frameIndex := frameIndex + 1;
      var packet := pkt.(index := frameIndex, key := pkt.key && pkt.kind.Video?);
      assert packet == Stamped(history, pkt);
      if packet.key {
        ready := true;
      }
      if packet.header {
        SaveHeader(packet);
      } else {
        HeadersStay(packet);
      }
      gopMgr.AddFrame(packet);
      packetBuffer[frameIndex % CACHE] := Some(packet);
      var minIdx := frameIndex - CACHE;
      if minIdx > 0 {
        GopIndexShifts(history, packet);
        gopMgr.ClearExpriedGop(minIdx);
      } else {
        GopIndexGrows(history, packet);
      }
      ReadyGrows(history, packet);
      IndexedGrows(history, packet);
      ghost var was := history;
      history := history + [packet];
      assert SlotsOk() by {
        forall k | 0 <= k < CACHE ensures packetBuffer[k] == SlotOf(history, k) {
          SlotMoves(was, packet, k);
        }
      }
      assert HeadersOk();
    }

    method GetFrames(user: PlayerUser)
      requires Valid() && user.outIndex >= -1
      modifies user
      ensures user.State() == LiveModel.GetFrames(history, user.contentLatency, old(user.State()))
    {
      hide Locate, Skip, Next, Headers, GopIndex, Gops, Newest, SlotOf, ByLatency;
      var hasMedia := HasAnyMedia();
      if !hasMedia {
        return;
      }
      if user.meta.Some? || user.audioHeader.Some? || user.videoHeader.Some? || user.outFrames != [] {
        return;
      }
      if user.outIndex >= 0 {
        var minIdx := frameIndex - CACHE;
        if user.outIndex < minIdx || gopMgr.lastestTimestamp - user.outFrameTimestamp > 2 * user.contentLatency {
          SkipFrame(user);
        }
      } else {
        var found := LocateGop(user);
        if !found {
          return;
        }
      }
      GetNextFrame(user);
    }

    method LocateMeta(user: PlayerUser, idx: int)
      requires HeadersOk()
      modifies user
      ensures user.State() == LiveModel.LocateMeta(history, idx, old(user.State()))
      ensures user.outIndex == old(user.outIndex)
    {
      hide HeaderFor, Headers, Has;
      user.waitMeta := user.waitMeta && hasMeta;
      if user.waitMeta {
        var header := codecHeaders.Meta(idx);
        if header.Some? {
          user.waitMeta := false;
          user.meta := header;
          user.metaIndex := header.value.index;
        }
      }
    }

    method LocateAudio(user: PlayerUser, idx: int)
      requires HeadersOk()
      modifies user
      ensures user.State() == LiveModel.LocateAudio(history, idx, old(user.State()))
      ensures user.outIndex == old(user.outIndex)
    {
      hide HeaderFor, Headers, Has;
      user.waitAudio := user.waitAudio && hasAudio;
      if user.waitAudio {
        var header := codecHeaders.AudioHeader(idx);
        if header.Some? {
          user.waitAudio := false;
          user.audioHeader := header;
          user.audioHeaderIndex := header.value.index;
        }
      }
    }

    method LocateVideo(user: PlayerUser, idx: int)
      requires HeadersOk()
      modifies user
      ensures user.State() == LiveModel.LocateVideo(history, idx, old(user.State()))
      ensures user.outIndex == old(user.outIndex)
    {
      hide HeaderFor, Headers, Has;
      user.waitVideo := user.waitVideo && hasVideo;
      if user.waitVideo {
        var header := codecHeaders.VideoHeader(idx);
        if header.Some? {
          user.waitVideo := false;
          user.videoHeader := header;
          user.videoHeaderIndex := header.value.index;
        }
      }
    }

    method LocateGop(user: PlayerUser) returns (found: bool)
      requires Valid() && user.outIndex == -1
      modifies user
      ensures (user.State(), found) == Locate(history, user.contentLatency, old(user.State()))
      ensures user.outIndex >= -1
    {
      hide HeadersOk, SlotsOk, Indexed, LiveModel.LocateMeta, LiveModel.LocateAudio, LiveModel.LocateVideo, ByLatency,
           GopIndex, LatestTs;
      ValidParts();
      LocatedGop(history, user.contentLatency);
      var idx := gopMgr.GetGopByLatency(user.contentLatency);
      if idx == -1 {
        return false;
      }
      user.outIndex := idx - 1;
      LocateMeta(user, idx);
      LocateAudio(user, idx);
      LocateVideo(user, idx);
      if user.waitMeta || user.waitAudio || user.waitVideo {
        return false;
      }
      user.waitMeta := true;
      user.waitAudio := true;
      user.waitVideo := true;
      return true;
    }

    method SkipFrame(user: PlayerUser)
      requires Valid() && user.outIndex >= 0
      modifies user
      ensures user.State() == Skip(history, user.contentLatency, old(user.State()))
      ensures user.outIndex >= -1
    {
      hide SlotsOk, Indexed, HeaderFor, Headers, Has, ByLatency, GopIndex, LatestTs;
      var idx := gopMgr.GetGopByLatency(user.contentLatency);
      if idx == -1 || idx <= user.outIndex {
        return;
      }
      var meta := codecHeaders.Meta(idx);
      var audio := codecHeaders.AudioHeader(idx);
      var video := codecHeaders.VideoHeader(idx);
      user.TakeNewer(meta, audio, video);
      user.outIndex := idx - 1;
    }

    method GetNextFrame(user: PlayerUser)
      requires Valid() && user.outIndex >= -1
      modifies user
      ensures user.State() == Next(history, old(user.State()))
    {
      hide HeadersOk, GopIndex, LatestTs, SlotOf, Newest, Burst, Taken;
      var idx := user.outIndex + 1;
      var maxIdx := frameIndex;
      ghost var was := user.State();
      ghost var b: seq<Pkt> := [];
      TakenNone(was);
      var i := 0;
      while i < 10
        invariant 0 <= i <= 10 && user.outIndex >= -1 && idx == user.outIndex + 1
        invariant user.State() == Taken(was, b)
        invariant Burst(history, was.outIndex, BURST) == b + Burst(history, user.outIndex, 10 - i)
      {
        if idx > maxIdx {
          break;
        }
        SlotRead(history, idx);
        BurstNext(history, user.outIndex, 10 - i);
        var pkt := packetBuffer[idx % CACHE];
        if pkt.Some? {
          TakeMore(was, b, pkt.value);
          user.outFrames := user.outFrames + [pkt.value];
          user.outIndex := pkt.value.index;
          user.outFrameTimestamp := pkt.value.ts;
          idx := pkt.value.index + 1;
          b := b + [pkt.value];
        } else {
          break;
        }
        i := i + 1;
      }
      BurstDone(history, user.outIndex, 10 - i);
      assert b + [] == b;
      NextTakes(history, was);
    }
  }

  lemma TakenNone(p: Player)
    ensures Taken(p, []) == p
  {
  }

  lemma NextTakes(h: seq<Pkt>, p: Player)
    requires p.outIndex >= -1
    ensures Next(h, p) == Taken(p, Burst(h, p.outIndex, BURST))
  {
  }

  // ---- Players ----

  class PlayerUser {
    const contentLatency: int
    var meta: Option<Pkt>
    var audioHeader: Option<Pkt>
    var videoHeader: Option<Pkt>
    var waitMeta: bool
    var waitAudio: bool
    var waitVideo: bool
    var metaIndex: int
    var audioHeaderIndex: int
    var videoHeaderIndex: int
    var outIndex: int
    var outFrameTimestamp: int
    var outFrames: seq<Pkt>

    constructor (latency: int)
      ensures State() == NEW_PLAYER && contentLatency == latency
    {
      contentLatency := latency;
      meta, audioHeader, videoHeader := None, None, None;
      waitMeta, waitAudio, waitVideo := true, true, true;
      metaIndex, audioHeaderIndex, videoHeaderIndex := 0, 0, 0;
      outIndex, outFrameTimestamp, outFrames := -1, 0, [];
    }

    function State(): Player
      reads this
    {
      Player(meta, audioHeader, videoHeader, waitMeta, waitAudio, waitVideo,
             metaIndex, audioHeaderIndex, videoHeaderIndex, outIndex, outFrameTimestamp, outFrames)
    }

    /** The newer headers a player needs when it skips ahead. */
    method TakeNewer(m: Option<Pkt>, a: Option<Pkt>, v: Option<Pkt>)
      modifies this
      ensures State() == Newer(old(State()), m, a, v)
    {
      if m.Some? {
        if m.value.index > metaIndex {
          meta := m;
          metaIndex := m.value.index;
        }
      }
      if a.Some? {
        if a.value.index > audioHeaderIndex {
          audioHeader := a;
          audioHeaderIndex := a.value.index;
        }
      }
      if v.Some? {
        if v.value.index > videoHeaderIndex {
          videoHeader := v;
          videoHeaderIndex := v.value.index;
        }
      }
    }

    /** RtmpPlayerUser::PostFrames; `accepts` is what the connection answers, `out` what it then takes. */
    method PostFrames(stream: Stream, accepts: bool) returns (out: seq<Item>, active: bool)
      requires stream.Valid() && this.outIndex >= -1
      modifies this
      ensures (State(), out) == LivePlayers.PostFrames(stream.history, contentLatency, old(State()), accepts)
      ensures active <==> LivePlayers.Ready(stream.history) && HasMedia(stream.history) &&
                          Busy(LiveModel.GetFrames(stream.history, contentLatency, old(State())))
    {
      hide LiveModel.GetFrames, LivePlayers.Ready, Has, AsFrames;
      out := [];
      active := false;
      var hasMedia := stream.HasAnyMedia();
      if !stream.ready || !hasMedia {
        return;
      }
      stream.GetFrames(this);
      if meta.Some? {
        if accepts {
          out, meta := Offer(Meta, meta), None;
        }
        active := true;
      } else if audioHeader.Some? {
        if accepts {
          out, audioHeader := Offer(Audio, audioHeader), None;
        }
        active := true;
      } else if videoHeader.Some? {
        if accepts {
          out, videoHeader := Offer(Video, videoHeader), None;
        }
        active := true;
      } else if outFrames != [] {
        if accepts {
          out, outFrames := AsFrames(outFrames), [];
        }
        active := true;
      } else {
        NoFrames();
      }
    }
  }
}
