/** Any number of players on one live stream: what each of them is sent, over every run. */
module LivePlayers {
  import opened Options
  import opened LiveModel

  /** A frame handed to a player, with the length of the history at that moment. */
  datatype Entry = Entry(index: nat, n: nat)

  /** What goes out to a player's connection. */
  datatype Item = HeaderItem(kind: Kind, pkt: Pkt) | FrameItem(pkt: Pkt)

  /** A player with its latency setting, the frames handed to it and what its connection accepted. */
  datatype Seat = Seat(p: Player, latency: int, log: seq<Entry>, sent: seq<Item>)

  function Ready(h: seq<Pkt>): bool {
    Gops(h, -1) != []
  }

  function Offer(kind: Kind, x: Option<Pkt>): seq<Item> {
    if x.Some? then [HeaderItem(kind, x.value)] else []
  }

  function AsFrames(b: seq<Pkt>): seq<Item> {
    seq(|b|, i requires 0 <= i < |b| => FrameItem(b[i]))
  }

  /** What a player holds, in the order in which it will be sent. */
  function Waiting(p: Player): seq<Item> {
    Offer(Meta, p.meta) + Offer(Audio, p.audio) + Offer(Video, p.video) + AsFrames(p.outFrames)
  }

  function Pending(p: Player, kind: Kind): Option<Pkt> {
    match kind
    case Meta => p.meta
    case Audio => p.audio
    case Video => p.video
    case Other => None
  }

  function Entries(b: seq<Pkt>, n: nat): seq<Entry>
    decreases |b|
  {
    if b == [] then [] else [Entry(b[0].index, n)] + Entries(b[1..], n)
  }

  /**
   * RtmpPlayerUser::PostFrames after GetFrames: one pending header, or else all frames, if the connection takes them.
   */
  function SendOne(q: Player, accepts: bool): (Player, seq<Item>) {
    if !accepts then (q, [])
    else if q.meta.Some? then (q.(meta := None), Offer(Meta, q.meta))
    else if q.audio.Some? then (q.(audio := None), Offer(Audio, q.audio))
    else if q.video.Some? then (q.(video := None), Offer(Video, q.video))
    else (q.(outFrames := []), AsFrames(q.outFrames))
  }

  function PostFrames(h: seq<Pkt>, latency: int, p: Player, accepts: bool): (Player, seq<Item>)
    requires p.outIndex >= -1
  {
    if !Ready(h) || !HasMedia(h) then (p, []) else SendOne(GetFrames(h, latency, p), accepts)
  }

  // ---- The laws of what a player receives ----

  /** Each frame follows its predecessor, or starts a GOP, or the missing ones had left the cache. */
  ghost predicate Follows(h: seq<Pkt>, a: Entry, b: Entry) {
    a.index < b.index && b.index < |h| &&
    (b.index == a.index + 1 || h[b.index].key || a.index + 1 < b.n - CACHE)
  }

  ghost predicate Lawful(h: seq<Pkt>, log: seq<Entry>) {
    (forall i :: 0 <= i < |log| ==> log[i].index < log[i].n <= |h|) &&
    (forall i {:trigger log[i]} :: 0 < i < |log| ==> Follows(h, log[i - 1], log[i]))
  }

  /** The first frame starts a GOP, but for one moment of the stream's life. */
  ghost predicate StartsWell(h: seq<Pkt>, log: seq<Entry>) {
    log != [] && log[0].index < |h| ==>
      h[log[0].index].key || (log[0].n == CACHE + 1 && log[0].index == CACHE && h[0].key)
  }

  function Frames(items: seq<Item>): seq<Pkt>
    decreases |items|
  {
    if items == [] then []
    else Frames(items[..|items| - 1]) + if items[|items| - 1].FrameItem? then [items[|items| - 1].pkt] else []
  }

  function Packets(h: seq<Pkt>, log: seq<Entry>): seq<Pkt>
    decreases |log|
  {
    if log == [] then []
    else
      var e := log[|log| - 1];
      Packets(h, log[..|log| - 1]) + if e.index < |h| then [h[e.index]] else []
  }

  /** The headers a player needs that starts on the stream as it is. */
  function Opening(h: seq<Pkt>, latency: int): seq<Item> {
    var idx := ByLatency(GopIndex(h), LatestTs(h), latency);
    Offer(Meta, HeaderFor(Headers(h, Meta), idx)) +
    Offer(Audio, HeaderFor(Headers(h, Audio), idx)) +
    Offer(Video, HeaderFor(Headers(h, Video), idx))
  }

  function HeaderIndex(p: Player, kind: Kind): int {
    match kind
    case Meta => p.metaIndex
    case Audio => p.audioIndex
    case Video => p.videoIndex
    case Other => 0
  }

  /** Headers of one kind only get newer, and the player remembers the newest. */
  ghost predicate HeadersAscend(items: seq<Item>, p: Player) {
    (forall i, j :: 0 <= i < j < |items| && items[i].HeaderItem? && items[j].HeaderItem? &&
                    items[i].kind == items[j].kind
                    ==> items[i].pkt.index < items[j].pkt.index) &&
    (forall i :: 0 <= i < |items| && items[i].HeaderItem? ==> items[i].pkt.index <= HeaderIndex(p, items[i].kind))
  }

  /** Everything handed to the player so far: sent items and waiting items. */
  function Script(s: Seat): seq<Item> {
    s.sent + Waiting(s.p)
  }

  ghost predicate Cursor(p: Player, log: seq<Entry>) {
    p.outIndex == (if log == [] then -1 else log[|log| - 1].index) && p.waitMeta && p.waitAudio && p.waitVideo
  }

  ghost predicate OpensWell(h: seq<Pkt>, s: Seat) {
    if s.log == [] then Script(s) == [] && s.p.metaIndex == 0 && s.p.audioIndex == 0 && s.p.videoIndex == 0
    else s.log[0].n <= |h| && Opening(h[..s.log[0].n], s.latency) <= Script(s)
  }

  ghost predicate SeatOk(h: seq<Pkt>, s: Seat) {
    Lawful(h, s.log) && StartsWell(h, s.log) && Cursor(s.p, s.log) &&
    Frames(Script(s)) == Packets(h, s.log) && OpensWell(h, s) && HeadersAscend(Script(s), s.p)
  }

  // ---- Facts about the history functions ----

  lemma NewestCached(n: nat, i: nat)
    requires i < n
    ensures i >= n - CACHE ==> Newest(n, i) == i
    ensures i < n - CACHE ==> Newest(n, i) > i
  {
    if i >= n - CACHE {
      assert (n - 1 - i) / CACHE == 0;
    } else {
      assert (n - 1 - i) / CACHE >= 1;
    }
  }

  lemma {:induction false} GopsSound(h: seq<Pkt>, from: int, k: nat)
    requires Indexed(h) && k < |Gops(h, from)|
    ensures var g := Gops(h, from)[k];
            from < g.index < |h| && 0 <= g.index && h[g.index].key && h[g.index].ts == g.ts
    decreases |h|
  {
    var n := |h| - 1;
    assert Indexed(h[..n]);
    if k < |Gops(h[..n], from)| {
      GopsSound(h[..n], from, k);
    }
  }

  lemma {:induction false} ByLatencySound(h: seq<Pkt>, from: int, gs: seq<Gop>, latest: int, latency: int)
    requires Indexed(h) && gs <= Gops(h, from)
    ensures var r := ByLatency(gs, latest, latency);
            r == -1 || (from < r < |h| && 0 <= r && h[r].key)
    decreases |gs|
  {
    if gs != [] {
      var n := |gs| - 1;
      GopsSound(h, from, n);
      ByLatencySound(h, from, gs[..n], latest, latency);
    }
  }

  /**
   * A located GOP is a key frame of the history, still cached unless the history is exactly one longer than the cache.
   */
  lemma LocatedGop(h: seq<Pkt>, latency: int)
    requires Indexed(h)
    ensures var r := ByLatency(GopIndex(h), LatestTs(h), latency);
            r == -1 || (0 <= r < |h| && h[r].key && (r >= |h| - CACHE || (r == 0 && |h| == CACHE + 1)))
  {
    ByLatencySound(h, Expired(|h|), GopIndex(h), LatestTs(h), latency);
  }

  /** A burst goes on without gaps once it has started. */
  ghost predicate BurstOk(h: seq<Pkt>, from: int, b: seq<Pkt>) {
    (forall i :: 0 <= i < |b| ==> from < b[i].index < |h| && 0 <= b[i].index && b[i] == h[b[i].index]) &&
    (forall i {:trigger b[i]} :: 0 < i < |b| ==> b[i].index == b[i - 1].index + 1) &&
    (b != [] ==> 0 <= from + 1 < |h| && b[0].index == Newest(|h|, from + 1))
  }

  lemma {:induction false} BurstShape(h: seq<Pkt>, from: int, k: nat)
    requires Indexed(h) && from >= -1
    ensures BurstOk(h, from, Burst(h, from, k))
    ensures k > 0 && from + 1 < |h| ==> Burst(h, from, k) != []
    decreases k
  {
    hide Newest, BurstOk;
    NoBurst(h, from);
    if k > 0 && from + 1 < |h| {
      var j := Newest(|h|, from + 1);
      BurstShape(h, j, k - 1);
      BurstCons(h, from, j, Burst(h, j, k - 1));
    }
  }

  lemma NoBurst(h: seq<Pkt>, from: int)
    ensures BurstOk(h, from, [])
  {
  }

  lemma BurstCons(h: seq<Pkt>, from: int, j: nat, rest: seq<Pkt>)
    requires Indexed(h) && -1 <= from && from + 1 < |h| && j == Newest(|h|, from + 1) && BurstOk(h, j, rest)
    ensures BurstOk(h, from, [h[j]] + rest)
  {
    hide Newest;
    if j + 1 < |h| {
      NewestCached(|h|, j + 1);
    }
    assert j > from by {
      NewestCached(|h|, from + 1);
    }
    var b := [h[j]] + rest;
    assert forall i :: 0 < i < |b| ==> b[i] == rest[i - 1];
  }

  lemma {:induction false} EntriesFacts(b: seq<Pkt>, n: nat)
    ensures var es := Entries(b, n);
            |es| == |b| && forall i :: 0 <= i < |b| ==> es[i] == Entry(b[i].index, n)
    decreases |b|
  {
    if b != [] {
      EntriesFacts(b[1..], n);
      var es := Entries(b, n);
      forall i | 0 <= i < |b| ensures es[i] == Entry(b[i].index, n) {
        if i > 0 {
          assert es[i] == Entries(b[1..], n)[i - 1];
        }
      }
    }
  }

  lemma PacketsLast(h: seq<Pkt>, log: seq<Entry>, e: Entry)
    ensures Packets(h, log + [e]) == Packets(h, log) + if e.index < |h| then [h[e.index]] else []
  {
    assert (log + [e])[..|log|] == log;
  }

  lemma {:induction false} PacketsAppend(h: seq<Pkt>, log: seq<Entry>, es: seq<Entry>, b: seq<Pkt>)
    requires |es| == |b| && forall i :: 0 <= i < |b| ==> es[i].index < |h| && b[i] == h[es[i].index]
    ensures Packets(h, log + es) == Packets(h, log) + b
    decreases |es|
  {
    if es == [] {
      assert log + es == log && Packets(h, log) + [] == Packets(h, log);
    } else {
      var n := |es| - 1;
      PacketsAppend(h, log, es[..n], b[..n]);
      PacketsLast(h, log + es[..n], es[n]);
      assert log + es == log + es[..n] + [es[n]];
      assert Packets(h, log) + b == Packets(h, log) + b[..n] + [b[n]];
    }
  }

  /** Inside a burst every frame follows the one before it. */
  lemma BurstFollows(h: seq<Pkt>, from: int, b: seq<Pkt>, es: seq<Entry>, k: nat)
    requires BurstOk(h, from, b) && |es| == |b| && 0 < k < |b|
    requires forall i :: 0 <= i < |b| ==> es[i] == Entry(b[i].index, |h|)
    ensures Follows(h, es[k - 1], es[k])
  {
    hide Newest;
    assert b[k].index == b[k - 1].index + 1;
  }

  lemma BurstIndices(h: seq<Pkt>, from: int, b: seq<Pkt>, es: seq<Entry>)
    requires BurstOk(h, from, b) && |es| == |b|
    requires forall i :: 0 <= i < |b| ==> es[i] == Entry(b[i].index, |h|)
    ensures forall i :: 0 <= i < |es| ==> es[i].index < es[i].n <= |h|
  {
    hide Newest;
  }

  lemma LawfulJoin(h: seq<Pkt>, log: seq<Entry>, es: seq<Entry>)
    requires Lawful(h, log) && forall i :: 0 <= i < |es| ==> es[i].index < es[i].n <= |h|
    requires forall k {:trigger es[k]} :: 0 < k < |es| ==> Follows(h, es[k - 1], es[k])
    requires log != [] && es != [] ==> Follows(h, log[|log| - 1], es[0])
    ensures Lawful(h, log + es)
  {
    hide Follows;
    var all := log + es;
    forall i {:trigger all[i]} | 0 < i < |all| ensures Follows(h, all[i - 1], all[i]) {
      if i < |log| {
        assert all[i] == log[i] && all[i - 1] == log[i - 1];
      } else if i > |log| {
        assert all[i] == es[i - |log|] && all[i - 1] == es[i - |log| - 1];
      }
    }
  }

  /** A burst continues a lawful log if its first frame may follow the last one. */
  lemma LawfulAppend(h: seq<Pkt>, log: seq<Entry>, b: seq<Pkt>, from: int, es: seq<Entry>)
    requires Lawful(h, log) && BurstOk(h, from, b)
    requires |es| == |b| && forall i :: 0 <= i < |b| ==> es[i] == Entry(b[i].index, |h|)
    requires log != [] && b != [] ==> Follows(h, log[|log| - 1], es[0])
    ensures Lawful(h, log + es)
  {
    hide Lawful, BurstOk, Follows;
    BurstIndices(h, from, b, es);
    forall k {:trigger es[k]} | 0 < k < |es| ensures Follows(h, es[k - 1], es[k]) {
      BurstFollows(h, from, b, es, k);
    }
    LawfulJoin(h, log, es);
  }

  // ---- Locating the first position ----

  lemma HeaderExists(h: seq<Pkt>, kind: Kind, idx: int)
    requires Has(h, kind)
    ensures HeaderFor(Headers(h, kind), idx).Some?
  {
  }

  /** Once a GOP is found, a player is never kept waiting for a header: every kind announced by the stream is stored. */
  lemma NeverStalls(h: seq<Pkt>, latency: int, p: Player)
    requires p.waitMeta && p.waitAudio && p.waitVideo
    requires ByLatency(GopIndex(h), LatestTs(h), latency) != -1
    ensures var idx := ByLatency(GopIndex(h), LatestTs(h), latency);
            var (q, found) := Locate(h, latency, p);
            found && q.outIndex == idx - 1 && q.waitMeta && q.waitAudio && q.waitVideo &&
            q.outFrames == p.outFrames &&
            q.meta == (if Has(h, Meta) then HeaderFor(Headers(h, Meta), idx) else p.meta) &&
            q.audio == (if Has(h, Audio) then HeaderFor(Headers(h, Audio), idx) else p.audio) &&
            q.video == (if Has(h, Video) then HeaderFor(Headers(h, Video), idx) else p.video)
  {
    hide HeaderFor, Headers, ByLatency, GopIndex, LatestTs, Has;
    var idx := ByLatency(GopIndex(h), LatestTs(h), latency);
    if Has(h, Meta) { HeaderExists(h, Meta, idx); }
    if Has(h, Audio) { HeaderExists(h, Audio, idx); }
    if Has(h, Video) { HeaderExists(h, Video, idx); }
  }

  lemma {:induction false} NotAfterSound(hs: seq<Pkt>, idx: int)
    ensures NotAfter(hs, idx).None? ==> forall i :: 0 <= i < |hs| ==> hs[i].index > idx
    ensures NotAfter(hs, idx).Some? ==>
              exists k :: 0 <= k < |hs| && hs[k] == NotAfter(hs, idx).value && hs[k].index <= idx &&
                          forall i :: k < i < |hs| ==> hs[i].index > idx
    decreases |hs|
  {
    if hs != [] {
      var n := |hs| - 1;
      if hs[n].index > idx {
        NotAfterSound(hs[..n], idx);
        if NotAfter(hs, idx).Some? {
          var k :| 0 <= k < n && hs[..n][k] == NotAfter(hs, idx).value && hs[..n][k].index <= idx &&
                   forall i :: k < i < n ==> hs[..n][i].index > idx;
          assert forall i :: k < i < |hs| ==> hs[i].index > idx by {
            forall i | k < i < |hs| ensures hs[i].index > idx {
              if i < n {
                assert hs[..n][i] == hs[i];
              }
            }
          }
        } else {
          assert forall i :: 0 <= i < n ==> hs[i] == hs[..n][i];
        }
      }
    }
  }

  lemma {:induction false} HeadersSound(h: seq<Pkt>, kind: Kind, k: nat)
    requires Indexed(h) && k < |Headers(h, kind)|
    ensures var x := Headers(h, kind)[k];
            0 <= x.index < |h| && x == h[x.index] && x.header && x.kind == kind
    ensures k > 0 ==> Headers(h, kind)[k - 1].index < Headers(h, kind)[k].index
    decreases |h|
  {
    var n := |h| - 1;
    assert Indexed(h[..n]);
    if k < |Headers(h[..n], kind)| {
      HeadersSound(h[..n], kind, k);
    } else if k > 0 {
      HeadersSound(h[..n], kind, k - 1);
    }
  }

  lemma {:induction false} HeadersComplete(h: seq<Pkt>, kind: Kind, i: nat)
    requires Indexed(h) && i < |h| && h[i].header && h[i].kind == kind
    ensures h[i] in Headers(h, kind)
    decreases |h|
  {
    var n := |h| - 1;
    assert Indexed(h[..n]);
    if i < n {
      HeadersComplete(h[..n], kind, i);
    }
  }

  /** For a GOP after the first packet: if any header is not after it, the newest such header is chosen. */
  lemma HeaderChoice(h: seq<Pkt>, kind: Kind, idx: int, i: nat)
    requires Indexed(h) && idx > 0 && i < |h| && i <= idx && h[i].header && h[i].kind == kind
    ensures var x := HeaderFor(Headers(h, kind), idx);
            x.Some? && x.value.header && x.value.kind == kind && i <= x.value.index <= idx
  {
    var hs := Headers(h, kind);
    HeadersComplete(h, kind, i);
    NotAfterSound(hs, idx);
    var j :| 0 <= j < |hs| && hs[j] == h[i];
    assert hs[j].index <= idx;
    var k :| 0 <= k < |hs| && hs[k] == NotAfter(hs, idx).value && hs[k].index <= idx &&
             forall m :: k < m < |hs| ==> hs[m].index > idx;
    HeadersSound(h, kind, k);
    Ascending(h, kind, j, k);
  }

  lemma {:induction false} Ascending(h: seq<Pkt>, kind: Kind, j: nat, k: nat)
    requires Indexed(h) && j <= k < |Headers(h, kind)|
    ensures Headers(h, kind)[j].index <= Headers(h, kind)[k].index
    decreases k
  {
    if j < k {
      HeadersSound(h, kind, k);
      Ascending(h, kind, j, k - 1);
    }
  }

  // ---- One step of one player ----

  /** The seat after GetFrames: the new burst enters the log. */
  function GetSeat(h: seq<Pkt>, s: Seat): Seat
    requires s.p.outIndex >= -1
  {
    var q := GetFrames(h, s.latency, s.p);
    if Busy(s.p) then s.(p := q) else s.(p := q, log := s.log + Entries(q.outFrames, |h|))
  }

  /** The seat after PostFrames. */
  function PostSeat(h: seq<Pkt>, s: Seat, accepts: bool): Seat
    requires s.p.outIndex >= -1
  {
    if !Ready(h) || !HasMedia(h) then s
    else
      var g := GetSeat(h, s);
      var (q, out) := SendOne(g.p, accepts);
      g.(p := q, sent := g.sent + out)
  }

  // ---- Items ----

  lemma {:induction false} FramesAppend(a: seq<Item>, b: seq<Item>)
    ensures Frames(a + b) == Frames(a) + Frames(b)
    decreases |b|
  {
    if b == [] {
      assert a + b == a;
    } else {
      var n := |b| - 1;
      FramesAppend(a, b[..n]);
      assert (a + b)[..|a + b| - 1] == a + b[..n];
    }
  }

  lemma {:induction false} FramesOfAsFrames(b: seq<Pkt>)
    ensures Frames(AsFrames(b)) == b
    decreases |b|
  {
    if b != [] {
      var n := |b| - 1;
      FramesOfAsFrames(b[..n]);
      assert AsFrames(b)[..n] == AsFrames(b[..n]);
      assert b == b[..n] + [b[n]];
    }
  }

  lemma FramesOfOffer(kind: Kind, x: Option<Pkt>)
    ensures Frames(Offer(kind, x)) == []
  {
  }

  lemma FramesWaiting(p: Player)
    ensures Frames(Waiting(p)) == p.outFrames
  {
    var a, b, c := Offer(Meta, p.meta), Offer(Audio, p.audio), Offer(Video, p.video);
    FramesAppend(a + b + c, AsFrames(p.outFrames));
    FramesAppend(a + b, c);
    FramesAppend(a, b);
    FramesOfOffer(Meta, p.meta);
    FramesOfOffer(Audio, p.audio);
    FramesOfOffer(Video, p.video);
    FramesOfAsFrames(p.outFrames);
  }

  lemma WaitingShape(p: Player)
    ensures var w := Waiting(p);
            (forall i :: 0 <= i < |w| && w[i].HeaderItem? ==> Pending(p, w[i].kind) == Some(w[i].pkt)) &&
            (forall i, j :: 0 <= i < j < |w| && w[i].HeaderItem? && w[j].HeaderItem? ==> w[i].kind != w[j].kind)
  {
  }

  /** A pending header is one the player has just been given; it is newer than any before. */
  ghost predicate HeaderStep(strict: bool, p: Player, q: Player, kind: Kind) {
    match Pending(q, kind)
    case None => HeaderIndex(q, kind) == HeaderIndex(p, kind)
    case Some(x) => HeaderIndex(q, kind) == x.index &&
                    (if strict then HeaderIndex(p, kind) < x.index else HeaderIndex(p, kind) <= x.index)
  }

  ghost predicate HeaderSteps(strict: bool, p: Player, q: Player) {
    HeaderStep(strict, p, q, Meta) && HeaderStep(strict, p, q, Audio) && HeaderStep(strict, p, q, Video)
  }

  lemma AscendAppend(items: seq<Item>, p: Player, q: Player)
    requires HeadersAscend(items, p) && HeaderSteps(items != [], p, q)
    ensures HeadersAscend(items + Waiting(q), q)
  {
    hide Waiting;
    var w := Waiting(q);
    WaitingShape(q);
    var all := items + w;
    assert forall i :: 0 <= i < |items| ==> all[i] == items[i];
    assert forall i :: |items| <= i < |all| ==> all[i] == w[i - |items|];
    assert forall kind :: HeaderIndex(p, kind) <= HeaderIndex(q, kind);
    forall i, j | 0 <= i < |items| <= j < |all| && all[i].HeaderItem? && all[j].HeaderItem? &&
      all[i].kind == all[j].kind
      ensures all[i].pkt.index < all[j].pkt.index
    {
      assert Pending(q, all[j].kind) == Some(all[j].pkt);
    }
  }

  // ---- GetFrames keeps the laws ----

  /** A player in position for its next burst: where it stands and which headers it has just been given. */
  ghost predicate Placed(h: seq<Pkt>, p: Player, m: Player) {
    m.outFrames == [] && m.waitMeta && m.waitAudio && m.waitVideo && m.outIndex >= -1 &&
    HeaderSteps(p.outIndex >= 0, p, m) &&
    (Busy(m) ==> m.outIndex + 1 < |h|) &&
    (m.outIndex == p.outIndex || (p.outIndex <= m.outIndex && m.outIndex + 1 < |h| && h[m.outIndex + 1].key))
  }

  lemma SkipPlaces(h: seq<Pkt>, latency: int, p: Player)
    requires Indexed(h) && !Busy(p) && p.waitMeta && p.waitAudio && p.waitVideo && p.outIndex >= 0
    ensures var m := SkipIfBehind(h, latency, p);
            Placed(h, p, m) && (m.outIndex == p.outIndex ==> m == p || h[m.outIndex + 1].key) &&
            (m != p ==> m.outIndex + 1 < |h| && m.outIndex + 1 >= |h| - CACHE && h[m.outIndex + 1].key)
  {
    hide ByLatency, GopIndex, LatestTs, HeaderFor, Headers;
    LocatedGop(h, latency);
  }

  lemma NextShape(h: seq<Pkt>, m: Player)
    requires Indexed(h) && m.outIndex >= -1 && m.outFrames == []
    ensures var q := Next(h, m); var b := q.outFrames;
            BurstOk(h, m.outIndex, b) && (b == [] <==> m.outIndex + 1 >= |h|) &&
            q.outIndex == (if b == [] then m.outIndex else b[|b| - 1].index) &&
            q == m.(outFrames := b, outIndex := q.outIndex, outTs := q.outTs)
  {
    hide Burst, BurstOk;
    BurstShape(h, m.outIndex, BURST);
    BurstEmpty(h, m.outIndex, BURST);
    var b := Burst(h, m.outIndex, BURST);
    assert [] + b == b;
  }

  lemma BurstEmpty(h: seq<Pkt>, from: int, k: nat)
    requires from >= -1
    ensures from + 1 >= |h| ==> Burst(h, from, k) == []
  {
  }

  /** The log and the cursor after a burst that starts where the player was placed. */
  lemma LogStep(h: seq<Pkt>, s: Seat, m: Player, q: Player)
    requires Indexed(h) && Lawful(h, s.log) && StartsWell(h, s.log) && Cursor(s.p, s.log)
    requires Placed(h, s.p, m) && BurstOk(h, m.outIndex, q.outFrames)
    requires q.outFrames == [] ==> m.outIndex + 1 >= |h|
    requires q.outIndex == (if q.outFrames == [] then m.outIndex else q.outFrames[|q.outFrames| - 1].index)
    requires q.waitMeta && q.waitAudio && q.waitVideo
    requires s.log == [] && q.outFrames != [] ==>
               h[m.outIndex + 1].key && (m.outIndex + 1 >= |h| - CACHE || (m.outIndex == -1 && |h| == CACHE + 1))
    requires s.log != [] ==> m.outIndex == s.p.outIndex || m.outIndex + 1 >= |h| - CACHE
    ensures var es := Entries(q.outFrames, |h|);
            Lawful(h, s.log + es) && StartsWell(h, s.log + es) && Cursor(q, s.log + es) &&
            Packets(h, s.log + es) == Packets(h, s.log) + q.outFrames
  {
    hide Newest, Packets, Entries;
    var b := q.outFrames;
    var es := Entries(b, |h|);
    EntriesFacts(b, |h|);
    PacketsAppend(h, s.log, es, b);
    if b == [] {
      assert s.log + es == s.log;
    } else {
      NewestCached(|h|, m.outIndex + 1);
      assert b[0].index == Newest(|h|, m.outIndex + 1);
      FirstCached(|h|, m.outIndex + 1);
      LawfulAppend(h, s.log, b, m.outIndex, es);
    }
  }

  /** The only slot of a history one longer than the cache that no longer holds what it first held. */
  lemma FirstCached(n: nat, i: nat)
    requires i < n
    ensures i == 0 && n == CACHE + 1 ==> Newest(n, i) == CACHE
  {
  }

  lemma WaitingAppend(h: seq<Pkt>, s: Seat, q: Player, log: seq<Entry>)
    requires !Busy(s.p) && Frames(Script(s)) == Packets(h, s.log) && HeadersAscend(Script(s), s.p)
    requires Packets(h, log) == Packets(h, s.log) + q.outFrames
    requires HeaderSteps(Script(s) != [], s.p, q)
    ensures var t := s.(p := q, log := log);
            Script(t) == Script(s) + Waiting(q) &&
            Frames(Script(t)) == Packets(h, log) && HeadersAscend(Script(t), q)
  {
    hide Frames, Packets, HeadersAscend, HeaderSteps;
    assert Waiting(s.p) == [];
    assert Script(s) == s.sent;
    FramesAppend(s.sent, Waiting(q));
    FramesWaiting(q);
    AscendAppend(s.sent, s.p, q);
  }

  lemma OpeningOffered(h: seq<Pkt>, latency: int, p: Player)
    requires Indexed(h) && Cursor(p, []) && !Busy(p)
    requires ByLatency(GopIndex(h), LatestTs(h), latency) != -1
    ensures var (q, found) := Locate(h, latency, p);
            found && Opening(h, latency) <= Waiting(q) &&
            q.outIndex == ByLatency(GopIndex(h), LatestTs(h), latency) - 1 && q.outFrames == [] &&
            q.waitMeta && q.waitAudio && q.waitVideo
  {
    hide ByLatency, GopIndex, LatestTs, Locate, HeaderFor, Headers, Has;
    NeverStalls(h, latency, p);
    var idx := ByLatency(GopIndex(h), LatestTs(h), latency);
    NoHeader(h, Meta, idx);
    NoHeader(h, Audio, idx);
    NoHeader(h, Video, idx);
  }

  lemma NoHeader(h: seq<Pkt>, kind: Kind, idx: int)
    ensures !Has(h, kind) ==> HeaderFor(Headers(h, kind), idx) == None
  {
  }

  /** A player that has frames already: skip if it fell behind, then the next burst. */
  lemma GoesOn(h: seq<Pkt>, s: Seat)
    requires Indexed(h) && SeatOk(h, s) && HasMedia(h) && !Busy(s.p) && s.log != []
    ensures SeatOk(h, GetSeat(h, s))
  {
    hide Newest, SkipIfBehind, Next, BurstOk, Lawful, StartsWell, Frames, Packets, HeadersAscend, HeaderSteps, Waiting,
         Opening, Entries;
    var m := SkipIfBehind(h, s.latency, s.p);
    SkipPlaces(h, s.latency, s.p);
    NextShape(h, m);
    var q := Next(h, m);
    LogStep(h, s, m, q);
    EmptyStepHasNoHeader(h, s.p, m, q);
    StepsKept(s, m, q);
    var log := s.log + Entries(q.outFrames, |h|);
    WaitingAppend(h, s, q, log);
    assert s.sent + Waiting(s.p) <= Script(s.(p := q, log := log));
  }

  lemma EmptyStepHasNoHeader(h: seq<Pkt>, p: Player, m: Player, q: Player)
    requires Placed(h, p, m)
    requires q == m.(outFrames := q.outFrames, outIndex := q.outIndex, outTs := q.outTs)
    ensures HeaderSteps(p.outIndex >= 0, p, q)
  {
  }

  lemma StepsKept(s: Seat, m: Player, q: Player)
    requires Cursor(s.p, s.log) && HeaderSteps(s.p.outIndex >= 0, s.p, q)
    requires s.log == [] ==> Script(s) == []
    ensures HeaderSteps(Script(s) != [], s.p, q)
  {
  }

  lemma LocatePlaces(h: seq<Pkt>, latency: int, p: Player)
    requires Indexed(h) && !Busy(p) && Cursor(p, [])
    requires p.metaIndex == 0 && p.audioIndex == 0 && p.videoIndex == 0
    requires ByLatency(GopIndex(h), LatestTs(h), latency) != -1
    ensures Placed(h, p, Locate(h, latency, p).0)
  {
    hide ByLatency, GopIndex, LatestTs, HeaderFor, Headers;
    LocatedGop(h, latency);
    NeverStalls(h, latency, p);
  }

  /** A player without frames: find the first GOP, or go on waiting. */
  lemma Begins(h: seq<Pkt>, s: Seat)
    requires Indexed(h) && SeatOk(h, s) && HasMedia(h) && !Busy(s.p) && s.log == []
    ensures SeatOk(h, GetSeat(h, s))
  {
    hide Newest, Locate, Next, BurstOk, Lawful, StartsWell, Frames, Packets, HeadersAscend, HeaderSteps, Waiting,
         Opening, Entries, ByLatency, GopIndex, LatestTs;
    var idx := ByLatency(GopIndex(h), LatestTs(h), s.latency);
    if idx == -1 {
      Waits(h, s.latency, s.p);
      NoEntries(h);
      assert s.log + Entries([], |h|) == s.log;
    } else {
      LocatedGop(h, s.latency);
      OpeningOffered(h, s.latency, s.p);
      LocatePlaces(h, s.latency, s.p);
      var m := Locate(h, s.latency, s.p).0;
      NextShape(h, m);
      var q := Next(h, m);
      LogStep(h, s, m, q);
      EmptyStepHasNoHeader(h, s.p, m, q);
      StepsKept(s, m, q);
      var log := s.log + Entries(q.outFrames, |h|);
      WaitingAppend(h, s, q, log);
      FirstEntry(q.outFrames, |h|);
      assert log[0].n == |h| && h[..|h|] == h;
      OpeningKept(m, q);
    }
  }

  lemma Waits(h: seq<Pkt>, latency: int, p: Player)
    requires ByLatency(GopIndex(h), LatestTs(h), latency) == -1
    ensures Locate(h, latency, p) == (p, false)
  {
  }

  lemma NoEntries(h: seq<Pkt>)
    ensures Entries([], |h|) == []
  {
  }

  lemma FirstEntry(b: seq<Pkt>, n: nat)
    requires b != []
    ensures Entries(b, n) != [] && Entries(b, n)[0].n == n
  {
  }

  lemma OpeningKept(m: Player, q: Player)
    requires m.outFrames == [] && q == m.(outFrames := q.outFrames, outIndex := q.outIndex, outTs := q.outTs)
    ensures Waiting(m) <= Waiting(q)
  {
  }

  lemma GetKeeps(h: seq<Pkt>, s: Seat)
    requires Indexed(h) && SeatOk(h, s)
    ensures s.p.outIndex >= -1
    ensures SeatOk(h, GetSeat(h, s))
  {
    hide Lawful, StartsWell, Packets, HeadersAscend, Opening, Newest, Locate, Skip, Burst;
    if HasMedia(h) && !Busy(s.p) {
      if s.log == [] {
        Begins(h, s);
      } else {
        GoesOn(h, s);
      }
    } else if !Busy(s.p) {
      NoEntries(h);
      assert s.log + Entries([], |h|) == s.log;
    }
  }

  lemma SendTakes(p: Player, accepts: bool)
    ensures var (q, out) := SendOne(p, accepts);
            out + Waiting(q) == Waiting(p)
  {
    hide AsFrames;
    var (q, out) := SendOne(p, accepts);
    var a, b, c, d := Offer(Meta, p.meta), Offer(Audio, p.audio), Offer(Video, p.video), AsFrames(p.outFrames);
    if !accepts {
      assert [] + Waiting(p) == Waiting(p);
    } else if p.meta.Some? {
      assert a + ([] + b + c + d) == a + b + c + d;
    } else if p.audio.Some? {
      assert b + ([] + [] + c + d) == [] + b + c + d;
    } else if p.video.Some? {
      assert c + ([] + [] + [] + d) == [] + [] + c + d;
    } else {
      NoFrames();
      assert d + ([] + [] + [] + []) == [] + [] + [] + d;
    }
  }

  lemma NoFrames()
    ensures AsFrames([]) == []
  {
  }

  /** Sending moves waiting items to the connection, in order, and changes nothing else. */
  lemma SendMoves(s: Seat, accepts: bool)
    ensures var (q, out) := SendOne(s.p, accepts);
            Script(s.(p := q, sent := s.sent + out)) == Script(s) && q.outIndex == s.p.outIndex &&
            (s.p.waitMeta && s.p.waitAudio && s.p.waitVideo ==> q.waitMeta && q.waitAudio && q.waitVideo) &&
            q.metaIndex == s.p.metaIndex && q.audioIndex == s.p.audioIndex && q.videoIndex == s.p.videoIndex
  {
    hide Waiting, AsFrames, Offer;
    var (q, out) := SendOne(s.p, accepts);
    SendTakes(s.p, accepts);
    assert s.sent + (out + Waiting(q)) == (s.sent + out) + Waiting(q);
  }

  lemma SameIndices(items: seq<Item>, p: Player, q: Player)
    requires HeadersAscend(items, p)
    requires q.metaIndex == p.metaIndex && q.audioIndex == p.audioIndex && q.videoIndex == p.videoIndex
    ensures HeadersAscend(items, q)
  {
    assert forall k :: HeaderIndex(q, k) == HeaderIndex(p, k);
  }

  lemma SendKeeps(h: seq<Pkt>, s: Seat, accepts: bool)
    requires SeatOk(h, s)
    ensures var (q, out) := SendOne(s.p, accepts);
            SeatOk(h, s.(p := q, sent := s.sent + out))
  {
    hide SendOne, Script, Lawful, StartsWell, Packets, Opening, Frames, HeadersAscend;
    SendMoves(s, accepts);
    SameIndices(Script(s), s.p, SendOne(s.p, accepts).0);
  }

  lemma SeatPlaced(h: seq<Pkt>, s: Seat)
    requires SeatOk(h, s)
    ensures s.p.outIndex >= -1
  {
  }

  /** A seat's step is PostFrames of its player. */
  lemma PostSeatPosts(h: seq<Pkt>, s: Seat, accepts: bool)
    requires s.p.outIndex >= -1
    ensures var (q, out) := PostFrames(h, s.latency, s.p, accepts);
            PostSeat(h, s, accepts).p == q && PostSeat(h, s, accepts).sent == s.sent + out
  {
    hide GetFrames, SendOne, Ready, HasMedia, Entries;
  }

  lemma PostKeeps(h: seq<Pkt>, s: Seat, accepts: bool)
    requires Indexed(h) && SeatOk(h, s)
    ensures s.p.outIndex >= -1
    ensures SeatOk(h, PostSeat(h, s, accepts))
  {
    hide SeatOk, GetSeat, SendOne;
    SeatPlaced(h, s);
    GetKeeps(h, s);
    SendKeeps(h, GetSeat(h, s), accepts);
  }

  lemma {:induction false} PacketsGrow(h: seq<Pkt>, x: Pkt, log: seq<Entry>)
    requires forall i :: 0 <= i < |log| ==> log[i].index < |h|
    ensures Packets(h + [x], log) == Packets(h, log)
    decreases |log|
  {
    if log != [] {
      PacketsGrow(h, x, log[..|log| - 1]);
    }
  }

  /** A new packet does not disturb what players were given before. */
  lemma AddKeeps(h: seq<Pkt>, s: Seat, x: Pkt)
    requires SeatOk(h, s)
    ensures SeatOk(h + [x], s)
  {
    hide Packets, Frames, Opening, HeadersAscend, Script;
    PacketsGrow(h, x, s.log);
    if s.log != [] {
      var n := s.log[0].n;
      assert (h + [x])[..n] == h[..n];
    }
    assert forall i :: 0 <= i < |h| ==> (h + [x])[i] == h[i];
  }

  // ---- The whole system ----

  datatype Event =
    | AddPacket(pkt: Pkt)
    | Join(latency: int)
    | Post(player: nat, accepts: bool)

  /** A live stream with everyone who joined it. */
  datatype System = System(h: seq<Pkt>, seats: seq<Seat>)

  const START := System([], [])

  /** The stream gives each packet its index. */
  function Stamped(h: seq<Pkt>, x: Pkt): Pkt {
    x.(index := |h|, key := x.key && x.kind.Video?)
  }

  function Step(y: System, e: Event): System
    requires forall s :: s in y.seats ==> s.p.outIndex >= -1
  {
    match e
    case AddPacket(x) => y.(h := y.h + [Stamped(y.h, x)])
    case Join(latency) => y.(seats := y.seats + [Seat(NEW_PLAYER, latency, [], [])])
    case Post(k, accepts) => if k < |y.seats| then y.(seats := y.seats[k := PostSeat(y.h, y.seats[k], accepts)]) else y
  }

  ghost predicate SystemOk(y: System) {
    Indexed(y.h) && forall s :: s in y.seats ==> SeatOk(y.h, s)
  }

  lemma NewSeatOk(h: seq<Pkt>, latency: int)
    ensures SeatOk(h, Seat(NEW_PLAYER, latency, [], []))
  {
    assert AsFrames([]) == [];
  }

  lemma StepKeeps(y: System, e: Event)
    requires SystemOk(y)
    ensures forall s :: s in y.seats ==> s.p.outIndex >= -1
    ensures SystemOk(Step(y, e))
  {
    hide PostSeat, SeatOk;
    SeatsPlaced(y);
    match e
    case AddPacket(x) =>
      forall s | s in y.seats ensures SeatOk(y.h + [Stamped(y.h, x)], s) {
        AddKeeps(y.h, s, Stamped(y.h, x));
      }
    case Join(latency) =>
      NewSeatOk(y.h, latency);
    case Post(k, accepts) =>
      if k < |y.seats| {
        PostKeeps(y.h, y.seats[k], accepts);
      }
  }

  lemma SeatsPlaced(y: System)
    requires SystemOk(y)
    ensures forall s :: s in y.seats ==> s.p.outIndex >= -1
  {
  }

  /** The system after any interleaving of packets, joins and posts. */
  function Run(es: seq<Event>): (y: System)
    ensures SystemOk(y)
    decreases |es|
  {
    if es == [] then START
    else
      StepKeeps(Run(es[..|es| - 1]), es[|es| - 1]);
      Step(Run(es[..|es| - 1]), es[|es| - 1])
  }

  // ---- What the laws mean for a player ----

  lemma OpeningHasNoFrames(h: seq<Pkt>, latency: int)
    ensures forall i :: 0 <= i < |Opening(h, latency)| ==> Opening(h, latency)[i].HeaderItem?
  {
    hide HeaderFor, Headers, ByLatency, GopIndex, LatestTs;
  }

  /**
   * In every run, before its first frame a player's connection has taken every header the stream had at that moment.
   */
  lemma HeadersPrecedeFrames(es: seq<Event>, k: nat, i: nat)
    requires k < |Run(es).seats| && i < |Run(es).seats[k].sent| && Run(es).seats[k].sent[i].FrameItem?
    ensures var y := Run(es); var s := y.seats[k];
            s.log != [] && s.log[0].n <= |y.h| && Opening(y.h[..s.log[0].n], s.latency) <= s.sent[..i]
  {
    hide Run, Opening, Waiting, HeadersAscend, Frames, Packets, Lawful, StartsWell;
    var y := Run(es);
    var s := y.seats[k];
    assert SeatOk(y.h, s);
    assert Script(s)[i] == s.sent[i];
    var o := Opening(y.h[..s.log[0].n], s.latency);
    OpeningHasNoFrames(y.h[..s.log[0].n], s.latency);
    assert |o| <= i;
    assert s.sent[..i][..|o|] == Script(s)[..|o|];
  }

  /** In every run, the frames a connection took are the first packets of the player's lawful list, in order. */
  lemma FramesSent(es: seq<Event>, k: nat)
    requires k < |Run(es).seats|
    ensures var y := Run(es); var s := y.seats[k];
            Lawful(y.h, s.log) && StartsWell(y.h, s.log) && Frames(s.sent) <= Packets(y.h, s.log)
  {
    hide Run, Waiting, HeadersAscend, Frames, Packets, Lawful, StartsWell, OpensWell;
    var y := Run(es);
    var s := y.seats[k];
    assert SeatOk(y.h, s);
    FramesAppend(s.sent, Waiting(s.p));
  }

  /** The first frame is the located key frame, except for GOP 0 in a history one longer than the cache. */
  lemma FirstFrame(h: seq<Pkt>, latency: int)
    requires Indexed(h) && ByLatency(GopIndex(h), LatestTs(h), latency) != -1
    ensures var idx := ByLatency(GopIndex(h), LatestTs(h), latency);
            idx >= 0 &&
            var b := Burst(h, idx - 1, BURST);
            b != [] && (b[0].index == idx <==> !(idx == 0 && |h| == CACHE + 1))
  {
    hide ByLatency, GopIndex, LatestTs, Burst, Newest;
    var idx := ByLatency(GopIndex(h), LatestTs(h), latency);
    LocatedGop(h, latency);
    BurstShape(h, idx - 1, BURST);
    NewestCached(|h|, idx);
    FirstCached(|h|, idx);
  }

  /** A stream of `n` packets whose only key frame is the first. */
  function OneGop(n: nat): (h: seq<Pkt>)
    ensures |h| == n && Indexed(h)
  {
    seq(n, i requires 0 <= i < n => Pkt(i, 0, Video, i == 0, false))
  }

  lemma {:induction false} OneGopIndexed(n: nat)
    requires n > 0
    ensures Gops(OneGop(n), -1) == [Gop(0, 0)]
    decreases n
  {
    var h := OneGop(n);
    assert h[..n - 1] == OneGop(n - 1);
    if n > 1 {
      OneGopIndexed(n - 1);
    }
  }

  /** With 1001 packets that GOP is still located, and the player's first frame is packet 1000, no key frame. */
  lemma StaleGop(latency: nat)
    ensures var h := OneGop(CACHE + 1);
            ByLatency(GopIndex(h), LatestTs(h), latency) == 0 &&
            var b := Burst(h, -1, BURST);
            b != [] && b[0].index == CACHE && !b[0].key
  {
    hide Burst, Gops, Newest;
    var h := OneGop(CACHE + 1);
    OneGopIndexed(CACHE + 1);
    assert GopIndex(h) == [Gop(0, 0)];
    assert ByLatency([], LatestTs(h), latency) == -1;
    assert [Gop(0, 0)][..0] == [];
    BurstShape(h, -1, BURST);
    FirstCached(CACHE + 1, 0);
  }

  /** A player that may send goes idle exactly when it waits for its first GOP or has everything. */
  lemma Idle(h: seq<Pkt>, s: Seat)
    requires Indexed(h) && SeatOk(h, s) && Ready(h) && HasMedia(h)
    ensures s.p.outIndex >= -1
    ensures PostFrames(h, s.latency, s.p, true).1 == [] <==>
            !Busy(s.p) && (if s.log == [] then ByLatency(GopIndex(h), LatestTs(h), s.latency) == -1
                           else s.p.outIndex >= |h| - 1)
  {
    hide Newest, Locate, Skip, Next, BurstOk, Lawful, StartsWell, Frames, Packets, HeadersAscend, HeaderSteps, Opening,
         Has, ByLatency, GopIndex, LatestTs, Script;
    if !Busy(s.p) {
      if s.log != [] {
        var m := SkipIfBehind(h, s.latency, s.p);
        SkipPlaces(h, s.latency, s.p);
        NextShape(h, m);
      } else if ByLatency(GopIndex(h), LatestTs(h), s.latency) == -1 {
        Waits(h, s.latency, s.p);
      } else {
        LocatedGop(h, s.latency);
        NeverStalls(h, s.latency, s.p);
        var m := Locate(h, s.latency, s.p).0;
        assert m.outFrames == [];
        NextShape(h, m);
      }
    }
  }
}
