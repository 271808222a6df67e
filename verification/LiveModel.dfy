/**
 * A live stream as a function of its packet history: which packets the 1000-slot cache still holds, which key frames
 * the GOP index lists, which codec headers are known, and what a player is given.
 */
module LiveModel {
  import opened Options

  datatype Kind = Video | Audio | Meta | Other

  /** A packet with its index in the stream and its corrected time stamp. */
  datatype Pkt = Pkt(index: nat, ts: int, kind: Kind, key: bool, header: bool)

  datatype Gop = Gop(index: nat, ts: int)

  const CACHE := 1000
  const BURST := 10

  /** Packets carry their position in the history, and only video packets are key frames. */
  ghost predicate Indexed(h: seq<Pkt>) {
    forall i :: 0 <= i < |h| ==> h[i].index == i && (h[i].key ==> h[i].kind.Video?)
  }

  /** The newest index that shares a cache slot with `i`. */
  function Newest(n: nat, i: nat): (j: nat)
    requires i < n
    ensures i <= j < n && j >= n - CACHE && j % CACHE == i % CACHE
  {
    i + (n - 1 - i) / CACHE * CACHE
  }

  /** Indices up to this one have been removed from the GOP index. */
  function Expired(n: nat): int {
    if n - 1 > CACHE then n - 1 - CACHE else -1
  }

  /** The key frames after index `from`. */
  function Gops(h: seq<Pkt>, from: int): seq<Gop>
    decreases |h|
  {
    if h == [] then []
    else
      var n := |h| - 1;
      Gops(h[..n], from) + if h[n].key && n > from then [Gop(n, h[n].ts)] else []
  }

  function GopIndex(h: seq<Pkt>): seq<Gop> {
    Gops(h, Expired(|h|))
  }

  function LatestTs(h: seq<Pkt>): int {
    if h == [] then 0 else h[|h| - 1].ts
  }

  /** The oldest GOP from which on every GOP is within the latency; -1 if the newest already is not. */
  function ByLatency(gs: seq<Gop>, latest: int, latency: int): int
    decreases |gs|
  {
    if gs == [] then -1
    else
      var n := |gs| - 1;
      if latest - gs[n].ts > latency then -1
      else
        var g := ByLatency(gs[..n], latest, latency);
        if g == -1 then gs[n].index else g
  }

  /** The codec headers of one kind, oldest first. */
  function Headers(h: seq<Pkt>, kind: Kind): seq<Pkt>
    decreases |h|
  {
    if h == [] then []
    else
      var n := |h| - 1;
      Headers(h[..n], kind) + if h[n].header && h[n].kind == kind then [h[n]] else []
  }

  function Has(h: seq<Pkt>, kind: Kind): bool {
    Headers(h, kind) != []
  }

  function Last(hs: seq<Pkt>): Option<Pkt> {
    if hs == [] then None else Some(hs[|hs| - 1])
  }

  /** The newest header not after `idx`, or simply the newest. */
  function NotAfter(hs: seq<Pkt>, idx: int): Option<Pkt>
    decreases |hs|
  {
    if hs == [] then None
    else if hs[|hs| - 1].index <= idx then Some(hs[|hs| - 1])
    else NotAfter(hs[..|hs| - 1], idx)
  }

  function HeaderFor(hs: seq<Pkt>, idx: int): Option<Pkt> {
    if idx <= 0 || NotAfter(hs, idx).None? then Last(hs) else NotAfter(hs, idx)
  }

  /** What a player holds. */
  datatype Player = Player(
    meta: Option<Pkt>, audio: Option<Pkt>, video: Option<Pkt>,
    waitMeta: bool, waitAudio: bool, waitVideo: bool,
    metaIndex: int, audioIndex: int, videoIndex: int,
    outIndex: int, outTs: int, outFrames: seq<Pkt>)

  const NEW_PLAYER := Player(None, None, None, true, true, true, 0, 0, 0, -1, 0, [])

  predicate Busy(p: Player) {
    p.meta.Some? || p.audio.Some? || p.video.Some? || p.outFrames != []
  }

  predicate HasMedia(h: seq<Pkt>) {
    Has(h, Audio) || Has(h, Video) || Has(h, Meta)
  }

  /** Stream::LocateGop: the first position of a new player and the headers it needs; false if it has to wait. */
  function Locate(h: seq<Pkt>, latency: int, p: Player): (Player, bool) {
    var idx := ByLatency(GopIndex(h), LatestTs(h), latency);
    if idx == -1 then (p, false)
    else
      var p1 := p.(outIndex := idx - 1);
      var p2 := LocateMeta(h, idx, p1);
      var p3 := LocateAudio(h, idx, p2);
      var p4 := LocateVideo(h, idx, p3);
      if p4.waitMeta || p4.waitAudio || p4.waitVideo then (p4, false)
      else (p4.(waitMeta := true, waitAudio := true, waitVideo := true), true)
  }

  function LocateMeta(h: seq<Pkt>, idx: int, p: Player): Player {
    var wait := p.waitMeta && Has(h, Meta);
    var x := HeaderFor(Headers(h, Meta), idx);
    if wait && x.Some? then p.(waitMeta := false, meta := x, metaIndex := x.value.index) else p.(waitMeta := wait)
  }

  function LocateAudio(h: seq<Pkt>, idx: int, p: Player): Player {
    var wait := p.waitAudio && Has(h, Audio);
    var x := HeaderFor(Headers(h, Audio), idx);
    if wait && x.Some? then p.(waitAudio := false, audio := x, audioIndex := x.value.index) else p.(waitAudio := wait)
  }

  function LocateVideo(h: seq<Pkt>, idx: int, p: Player): Player {
    var wait := p.waitVideo && Has(h, Video);
    var x := HeaderFor(Headers(h, Video), idx);
    if wait && x.Some? then p.(waitVideo := false, video := x, videoIndex := x.value.index) else p.(waitVideo := wait)
  }

  /** Stream::SkipFrame: a player that fell behind moves to a later GOP and gets the headers that changed. */
  function Skip(h: seq<Pkt>, latency: int, p: Player): Player {
    var idx := ByLatency(GopIndex(h), LatestTs(h), latency);
    if idx == -1 || idx <= p.outIndex then p
    else
      Newer(p, HeaderFor(Headers(h, Meta), idx), HeaderFor(Headers(h, Audio), idx), HeaderFor(Headers(h, Video), idx))
      .(outIndex := idx - 1)
  }

  /** The headers that are newer than those the player already got. */
  function Newer(p: Player, m: Option<Pkt>, a: Option<Pkt>, v: Option<Pkt>): Player {
    var p1 := if m.Some? && m.value.index > p.metaIndex then p.(meta := m, metaIndex := m.value.index) else p;
    var p2 := if a.Some? && a.value.index > p.audioIndex then p1.(audio := a, audioIndex := a.value.index) else p1;
    if v.Some? && v.value.index > p.videoIndex then p2.(video := v, videoIndex := v.value.index) else p2
  }

  /** Stream::GetNextFrame: up to `k` packets out of the cache, starting after index `from`. */
  function Burst(h: seq<Pkt>, from: int, k: nat): seq<Pkt>
    requires from >= -1
    decreases k
  {
    if k == 0 || from + 1 >= |h| then []
    else
      var j := Newest(|h|, from + 1);
      [h[j]] + Burst(h, j, k - 1)
  }

  function Next(h: seq<Pkt>, p: Player): Player
    requires p.outIndex >= -1
  {
    var b := Burst(h, p.outIndex, BURST);
    if b == [] then p else Take(p, b)
  }

  function Take(p: Player, b: seq<Pkt>): Player
    requires b != []
  {
    var x := b[|b| - 1];
    p.(outFrames := p.outFrames + b, outIndex := x.index, outTs := x.ts)
  }

  predicate Behind(h: seq<Pkt>, latency: int, p: Player) {
    p.outIndex < |h| - 1 - CACHE || LatestTs(h) - p.outTs > 2 * latency
  }

  /** Stream::GetFrames. */
  function GetFrames(h: seq<Pkt>, latency: int, p: Player): Player
    requires p.outIndex >= -1
  {
    if !HasMedia(h) || Busy(p) then p
    else if p.outIndex >= 0 then Next(h, SkipIfBehind(h, latency, p))
    else
      var (q, found) := Locate(h, latency, p);
      if found && q.outIndex >= -1 then Next(h, q) else q
  }

  function SkipIfBehind(h: seq<Pkt>, latency: int, p: Player): (q: Player)
    requires p.outIndex >= 0
    ensures q.outIndex >= -1
  {
    if Behind(h, latency, p) then Skip(h, latency, p) else p
  }
}
