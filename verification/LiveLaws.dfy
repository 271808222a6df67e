/**
 * What a player is given by one call of Stream::GetFrames, said of the history alone and in plain numbers: where it
 * starts, how many frames it gets, when it has to skip, and which headers go before.
 */
module LiveLaws {
  import opened Options
  import opened LiveModel
  import opened LivePlayers

  // ---- Where a player starts ----

  /** The choice is -1 for no GOP or a newest one too old, and else the start of the longest run of young GOPs. */
  lemma {:induction false} ByLatencyLaw(gs: seq<Gop>, latest: int, latency: int) returns (k: int)
    ensures var r := ByLatency(gs, latest, latency);
            if gs == [] || latest - gs[|gs| - 1].ts > latency then r == -1
            else 0 <= k < |gs| && r == gs[k].index && (forall i :: k <= i < |gs| ==> latest - gs[i].ts <= latency) &&
                 (k == 0 || latest - gs[k - 1].ts > latency)
    decreases |gs|
  {
    k := -1;
    if gs != [] && latest - gs[|gs| - 1].ts <= latency {
      var n := |gs| - 1;
      k := ByLatencyLaw(gs[..n], latest, latency);
      if n == 0 || latest - gs[n - 1].ts > latency {
        k := n;
      }
    }
  }

  /** A key frame among the newest thousand packets, or among the newest 1001 while there are no more. */
  ghost predicate Candidate(h: seq<Pkt>, i: int) {
    0 <= i < |h| && h[i].key && (|h| <= 1001 || i >= |h| - 1000)
  }

  ghost predicate InTime(h: seq<Pkt>, latency: int, i: int)
    requires 0 <= i < |h|
  {
    h[|h| - 1].ts - h[i].ts <= latency
  }

  /** The key frames listed are those after `from`, in order. */
  lemma {:induction false} GopsAre(h: seq<Pkt>, from: int)
    requires Indexed(h)
    ensures forall k :: 0 <= k < |Gops(h, from)| ==> KeyAfter(h, from, Gops(h, from)[k])
    ensures Rising(Gops(h, from))
    decreases |h|
  {
    hide KeyAfter;
    if h != [] {
      var n := |h| - 1;
      assert Indexed(h[..n]);
      GopsAre(h[..n], from);
      var old' := Gops(h[..n], from);
      forall k | 0 <= k < |old'| ensures KeyAfter(h, from, old'[k]) && old'[k].index < n {
        assert KeyAfter(h[..n], from, old'[k]);
        KeyStays(h, from, old'[k]);
      }
      if h[n].key && n > from {
        LastKey(h, from);
      }
    }
  }

  ghost predicate Rising(gs: seq<Gop>) {
    forall k, l :: 0 <= k < l < |gs| ==> gs[k].index < gs[l].index
  }

  ghost predicate KeyAfter(h: seq<Pkt>, from: int, g: Gop) {
    from < g.index < |h| && h[g.index].key && g.ts == h[g.index].ts
  }

  lemma KeyStays(h: seq<Pkt>, from: int, g: Gop)
    requires h != [] && KeyAfter(h[..|h| - 1], from, g)
    ensures KeyAfter(h, from, g) && g.index < |h| - 1
  {
  }

  lemma LastKey(h: seq<Pkt>, from: int)
    requires h != [] && h[|h| - 1].key && |h| - 1 > from
    ensures KeyAfter(h, from, Gop(|h| - 1, h[|h| - 1].ts))
  {
  }

  lemma {:induction false} GopsAll(h: seq<Pkt>, from: int, i: nat) returns (k: nat)
    requires Indexed(h) && from < i < |h| && h[i].key
    ensures k < |Gops(h, from)| && Gops(h, from)[k].index == i
    decreases |h|
  {
    var n := |h| - 1;
    if i == n {
      k := |Gops(h[..n], from)|;
    } else {
      assert Indexed(h[..n]);
      k := GopsAll(h[..n], from, i);
    }
  }

  lemma CandidatesListed(h: seq<Pkt>)
    requires Indexed(h)
    ensures Lists(h, GopIndex(h))
  {
    GopsAre(h, Expired(|h|));
    assert forall k :: 0 <= k < |GopIndex(h)| ==> KeyAfter(h, Expired(|h|), GopIndex(h)[k]);
    forall i | Candidate(h, i) ensures exists k :: 0 <= k < |GopIndex(h)| && GopIndex(h)[k].index == i {
      var k := GopsAll(h, Expired(|h|), i);
      assert GopIndex(h)[k].index == i;
    }
  }

  /** Where Stream::LocateGop puts a player. */
  function Start(h: seq<Pkt>, latency: int): int {
    ByLatency(GopIndex(h), LatestTs(h), latency)
  }

  /**
   * It is -1 exactly if the newest candidate, if there is one, is not in time; else a candidate such that it and all
   * after it are in time, and the one before it, if there is one, is not.
   */
  lemma StartLaw(h: seq<Pkt>, latency: int)
    requires Indexed(h)
    ensures var s := Start(h, latency);
            (s == -1 <==> TooOld(h, latency)) &&
            (s != -1 ==> Candidate(h, s) && (forall i :: Candidate(h, i) && i >= s ==> InTime(h, latency, i))) &&
            (forall i :: s != -1 && Candidate(h, i) && i < s && (forall j :: i < j < s ==> !Candidate(h, j)) ==>
                         !InTime(h, latency, i))
  {
    hide GopIndex, ByLatency, Candidate;
    var gs := GopIndex(h);
    CandidatesListed(h);
    var k := ByLatencyLaw(gs, LatestTs(h), latency);
    NoneListed(h, latency, gs);
    if gs != [] && LatestTs(h) - gs[|gs| - 1].ts <= latency {
      SomeListed(h, latency, gs, k);
    }
  }

  ghost predicate Lists(h: seq<Pkt>, gs: seq<Gop>) {
    (forall k :: 0 <= k < |gs| ==> Candidate(h, gs[k].index) && gs[k].ts == h[gs[k].index].ts) &&
    Rising(gs) &&
    (forall i :: Candidate(h, i) ==> exists k :: 0 <= k < |gs| && gs[k].index == i)
  }

  lemma LastListed(h: seq<Pkt>, gs: seq<Gop>)
    requires Lists(h, gs) && gs != []
    ensures var last := gs[|gs| - 1];
            Candidate(h, last.index) && last.ts == h[last.index].ts && forall i :: Candidate(h, i) ==> i <= last.index
  {
    var last := gs[|gs| - 1];
    assert Candidate(h, last.index) && last.ts == h[last.index].ts;
    forall i | Candidate(h, i) ensures i <= last.index {
      var k :| 0 <= k < |gs| && gs[k].index == i;
      assert k == |gs| - 1 || gs[k].index < gs[|gs| - 1].index;
    }
  }

  /** The newest candidate is not in time. */
  ghost predicate TooOld(h: seq<Pkt>, latency: int) {
    forall i :: Candidate(h, i) && (forall j :: i < j ==> !Candidate(h, j)) ==> !InTime(h, latency, i)
  }

  lemma NoneListed(h: seq<Pkt>, latency: int, gs: seq<Gop>)
    requires Lists(h, gs)
    ensures gs == [] || LatestTs(h) - gs[|gs| - 1].ts > latency <==> TooOld(h, latency)
  {
    if gs == [] {
      assert forall i :: !Candidate(h, i);
    } else {
      hide Lists;
      LastListed(h, gs);
      OldLast(h, latency, gs[|gs| - 1].index);
    }
  }

  lemma OldLast(h: seq<Pkt>, latency: int, last: int)
    requires Candidate(h, last) && forall i :: Candidate(h, i) ==> i <= last
    ensures InTime(h, latency, last) <==> LatestTs(h) - h[last].ts <= latency
    ensures TooOld(h, latency) <==> !InTime(h, latency, last)
  {
  }

  lemma SomeListed(h: seq<Pkt>, latency: int, gs: seq<Gop>, k: int)
    requires Lists(h, gs) && 0 <= k < |gs| && (forall i :: k <= i < |gs| ==> LatestTs(h) - gs[i].ts <= latency)
    requires k == 0 || LatestTs(h) - gs[k - 1].ts > latency
    ensures var s := gs[k].index;
            Candidate(h, s) && (forall i :: Candidate(h, i) && i >= s ==> InTime(h, latency, i)) &&
            (forall i :: Candidate(h, i) && i < s && (forall j :: i < j < s ==> !Candidate(h, j)) ==>
                         !InTime(h, latency, i))
  {
    var s := gs[k].index;
    forall i | Candidate(h, i) && i >= s ensures InTime(h, latency, i) {
      var l :| 0 <= l < |gs| && gs[l].index == i;
      assert l >= k;
    }
    forall i | Candidate(h, i) && i < s && (forall j :: i < j < s ==> !Candidate(h, j)) ensures !InTime(h, latency, i) {
      var l :| 0 <= l < |gs| && gs[l].index == i;
      assert l < k && Candidate(h, gs[k - 1].index);
      assert l == k - 1;
    }
  }

  // ---- Which header ----

  ghost predicate IsHeader(h: seq<Pkt>, kind: Kind, i: int) {
    0 <= i < |h| && h[i].header && h[i].kind == kind
  }

  /**
   * The header sent for a start at `idx`: the newest that is not after it, if it is not the first packet and there is
   * one, and else the newest of all; none exactly if there is none.
   */
  lemma HeaderLaw(h: seq<Pkt>, kind: Kind, idx: int)
    requires Indexed(h)
    ensures var x := HeaderFor(Headers(h, kind), idx);
            (x == None <==> forall i :: !IsHeader(h, kind, i)) &&
            (x.Some? ==>
               IsHeader(h, kind, x.value.index) && x.value == h[x.value.index] &&
               var bounded := idx > 0 && exists i :: IsHeader(h, kind, i) && i <= idx;
               (bounded ==> x.value.index <= idx) &&
               forall i :: IsHeader(h, kind, i) && (bounded ==> i <= idx) ==> i <= x.value.index)
  {
    hide Headers, NotAfter, IsHeader, Indexed;
    var hs := Headers(h, kind);
    HeadersAre(h, kind);
    assert forall k :: 0 <= k < |hs| ==> HeaderOf(h, kind, hs[k]);
    forall i | IsHeader(h, kind, i) ensures exists k :: 0 <= k < |hs| && hs[k].index == i {
      var k := HeadersAll(h, kind, i);
      assert hs[k].index == i;
    }
    var k := NotAfterIs(hs, idx);
    ChosenHeader(h, kind, idx, hs, k);
  }

  ghost predicate Climbing(hs: seq<Pkt>) {
    forall k, l :: 0 <= k < l < |hs| ==> hs[k].index < hs[l].index
  }

  ghost predicate ListsHeaders(h: seq<Pkt>, kind: Kind, hs: seq<Pkt>) {
    (forall k :: 0 <= k < |hs| ==> IsHeader(h, kind, hs[k].index) && hs[k] == h[hs[k].index]) &&
    Climbing(hs) &&
    (forall i :: IsHeader(h, kind, i) ==> exists k :: 0 <= k < |hs| && hs[k].index == i)
  }

  lemma {:induction false} NotAfterIs(hs: seq<Pkt>, idx: int) returns (k: int)
    ensures -1 <= k < |hs| && (forall m :: k < m < |hs| ==> hs[m].index > idx)
    ensures if k == -1 then NotAfter(hs, idx) == None else NotAfter(hs, idx) == Some(hs[k]) && hs[k].index <= idx
    decreases |hs|
  {
    if hs == [] {
      k := -1;
    } else if hs[|hs| - 1].index <= idx {
      k := |hs| - 1;
    } else {
      k := NotAfterIs(hs[..|hs| - 1], idx);
    }
  }

  lemma ChosenHeader(h: seq<Pkt>, kind: Kind, idx: int, hs: seq<Pkt>, k: int)
    requires ListsHeaders(h, kind, hs) && -1 <= k < |hs| && (forall m :: k < m < |hs| ==> hs[m].index > idx)
    requires if k == -1 then NotAfter(hs, idx) == None else NotAfter(hs, idx) == Some(hs[k]) && hs[k].index <= idx
    ensures var x := HeaderFor(hs, idx);
            (x == None <==> forall i :: !IsHeader(h, kind, i)) &&
            (x.Some? ==>
               IsHeader(h, kind, x.value.index) && x.value == h[x.value.index] &&
               var bounded := idx > 0 && exists i :: IsHeader(h, kind, i) && i <= idx;
               (bounded ==> x.value.index <= idx) &&
               forall i :: IsHeader(h, kind, i) && (bounded ==> i <= idx) ==> i <= x.value.index)
  {
    hide NotAfter, IsHeader;
    if hs != [] {
      var bounded := idx > 0 && exists i :: IsHeader(h, kind, i) && i <= idx;
      if bounded {
        var i :| IsHeader(h, kind, i) && i <= idx;
        var l :| 0 <= l < |hs| && hs[l].index == i;
        assert l <= k;
      }
      var c := if idx > 0 && k >= 0 then k else |hs| - 1;
      assert HeaderFor(hs, idx) == Some(hs[c]) && IsHeader(h, kind, hs[c].index);
      assert idx > 0 && k >= 0 ==> bounded;
      forall i | IsHeader(h, kind, i) && (bounded ==> i <= idx) ensures i <= hs[c].index {
        var l :| 0 <= l < |hs| && hs[l].index == i;
        assert l <= c;
      }
    }
  }

  lemma {:induction false} HeadersAll(h: seq<Pkt>, kind: Kind, i: int) returns (k: nat)
    requires Indexed(h) && IsHeader(h, kind, i)
    ensures k < |Headers(h, kind)| && Headers(h, kind)[k].index == i
    decreases |h|
  {
    var n := |h| - 1;
    if i == n {
      k := |Headers(h[..n], kind)|;
    } else {
      assert Indexed(h[..n]);
      k := HeadersAll(h[..n], kind, i);
    }
  }

  lemma {:induction false} HeadersAre(h: seq<Pkt>, kind: Kind)
    requires Indexed(h)
    ensures forall k :: 0 <= k < |Headers(h, kind)| ==> HeaderOf(h, kind, Headers(h, kind)[k])
    ensures Climbing(Headers(h, kind))
    decreases |h|
  {
    hide HeaderOf;
    if h != [] {
      var n := |h| - 1;
      assert Indexed(h[..n]);
      HeadersAre(h[..n], kind);
      var old' := Headers(h[..n], kind);
      forall k | 0 <= k < |old'| ensures HeaderOf(h, kind, old'[k]) && old'[k].index < n {
        assert HeaderOf(h[..n], kind, old'[k]);
        HeaderStays(h, kind, old'[k]);
      }
      if h[n].header && h[n].kind == kind {
        assert h[n].index == n;
        LastHeader(h, kind);
      }
    }
  }

  ghost predicate HeaderOf(h: seq<Pkt>, kind: Kind, x: Pkt) {
    IsHeader(h, kind, x.index) && x == h[x.index]
  }

  lemma HeaderStays(h: seq<Pkt>, kind: Kind, x: Pkt)
    requires h != [] && HeaderOf(h[..|h| - 1], kind, x)
    ensures HeaderOf(h, kind, x) && x.index < |h| - 1
  {
  }

  lemma LastHeader(h: seq<Pkt>, kind: Kind)
    requires h != [] && h[|h| - 1].index == |h| - 1 && h[|h| - 1].header && h[|h| - 1].kind == kind
    ensures HeaderOf(h, kind, h[|h| - 1])
  {
  }

  // ---- Which frames ----

  /** The packets from `i` on, ten at most. */
  function TenFrom(h: seq<Pkt>, i: int): seq<Pkt>
    requires 0 <= i <= |h|
  {
    if i + 10 <= |h| then h[i..i + 10] else h[i..]
  }

  lemma {:induction false} BurstIs(h: seq<Pkt>, from: int, k: nat)
    requires -1 <= from < |h| && from + 1 >= |h| - 1000
    ensures Burst(h, from, k) == h[from + 1..if from + 1 + k <= |h| then from + 1 + k else |h|]
    decreases k
  {
    hide Newest;
    if k > 0 && from + 1 < |h| {
      NewestCached(|h|, from + 1);
      BurstIs(h, from + 1, k - 1);
    }
  }

  lemma TenAre(h: seq<Pkt>, p: Player, i: int)
    requires 0 <= i < |h| && i >= |h| - 1000 && p.outIndex == i - 1 && Indexed(h)
    ensures var b := TenFrom(h, i);
            b != [] && Next(h, p) == p.(outFrames := p.outFrames + b, outIndex := i + |b| - 1, outTs := b[|b| - 1].ts)
  {
    hide Burst, Newest;
    BurstIs(h, i - 1, 10);
    var b := TenFrom(h, i);
    assert Burst(h, i - 1, 10) == b;
    assert b[|b| - 1] == h[i + |b| - 1];
  }

  /** A player that waits for its first GOP. */
  ghost predicate Fresh(p: Player) {
    p.outIndex == -1 && !Busy(p) && p.waitMeta && p.waitAudio && p.waitVideo
  }

  lemma NothingNew(h: seq<Pkt>, latency: int, p: Player)
    requires p.outIndex >= -1 && (Busy(p) || forall i: int, k: Kind :: k != Other ==> !IsHeader(h, k, i))
    requires Indexed(h)
    ensures GetFrames(h, latency, p) == p
  {
    HeaderLaw(h, Meta, 0);
    HeaderLaw(h, Audio, 0);
    HeaderLaw(h, Video, 0);
    hide Headers, Next, Locate, SkipIfBehind;
  }

  lemma MediaKnown(h: seq<Pkt>, k: Kind)
    requires Indexed(h) && k != Other && exists i :: IsHeader(h, k, i)
    ensures HasMedia(h) && Has(h, k)
  {
    HeaderLaw(h, k, 0);
    hide Headers;
  }

  /**
   * A new player on a stream with a codec header: nothing happens while there is no GOP in time; then it gets the
   * chosen headers, and ten frames from the start of its GOP on, but for the one history in which that has just left
   * the cache.
   */
  lemma NewPlayerGets(h: seq<Pkt>, latency: int, p: Player)
    requires Indexed(h) && Fresh(p) && HasMedia(h)
    ensures var s, q := Start(h, latency), GetFrames(h, latency, p);
            (s == -1 ==> q == p) &&
            (s != -1 ==>
               0 <= s < |h| &&
               q.meta == HeaderFor(Headers(h, Meta), s) && q.audio == HeaderFor(Headers(h, Audio), s) &&
               q.video == HeaderFor(Headers(h, Video), s) &&
               (!(s == 0 && |h| == 1001) ==>
                  q.outFrames == TenFrom(h, s) && q.outIndex == s + |q.outFrames| - 1))
  {
    hide Headers, Next, ByLatency, GopIndex, LatestTs, Locate, Burst, TenFrom;
    var s := Start(h, latency);
    if s == -1 {
      Waits(h, latency, p);
    } else {
      LocatedGop(h, latency);
      NeverStalls(h, latency, p);
      LocateHeaders(h, latency, p);
      var q := Locate(h, latency, p).0;
      if !(s == 0 && |h| == 1001) {
        TenAre(h, q, s);
      } else {
        NextKeeps(h, q);
      }
    }
  }

  lemma NextKeeps(h: seq<Pkt>, p: Player)
    requires p.outIndex >= -1
    ensures var q := Next(h, p); q.meta == p.meta && q.audio == p.audio && q.video == p.video
  {
    hide Burst;
  }

  lemma LocateHeaders(h: seq<Pkt>, latency: int, p: Player)
    requires Fresh(p) && Start(h, latency) != -1 && Indexed(h)
    ensures var s, q := Start(h, latency), Locate(h, latency, p).0;
            q.meta == HeaderFor(Headers(h, Meta), s) && q.audio == HeaderFor(Headers(h, Audio), s) &&
            q.video == HeaderFor(Headers(h, Video), s) && q.outFrames == [] && q.outIndex == s - 1 &&
            Locate(h, latency, p).1
  {
    hide ByLatency, GopIndex, LatestTs, HeaderFor, Headers, Locate;
    NeverStalls(h, latency, p);
    NoHeader(Start(h, latency));
  }

  lemma NoHeader(idx: int)
    ensures HeaderFor([], idx) == None
  {
  }

  /**
   * A player that has frames goes on with the next ten, unless the next one has left the cache or it is more than twice
   * its latency behind.
   */
  lemma FollowerGoesOn(h: seq<Pkt>, latency: int, p: Player)
    requires Indexed(h) && 0 <= p.outIndex < |h| - 1 && !Busy(p) && HasMedia(h)
    requires p.outIndex >= |h| - 1001 && h[|h| - 1].ts - p.outTs <= 2 * latency
    ensures var b := TenFrom(h, p.outIndex + 1);
            GetFrames(h, latency, p) == p.(outFrames := b, outIndex := p.outIndex + |b|, outTs := b[|b| - 1].ts)
  {
    hide HasMedia, Next, Locate, Skip, TenFrom, LatestTs, Indexed;
    TenAre(h, p, p.outIndex + 1);
    NewestTs(h);
    assert [] + TenFrom(h, p.outIndex + 1) == TenFrom(h, p.outIndex + 1);
  }

  /**
   * One that is behind goes on at the start of the chosen GOP if that is ahead of it, with the headers chosen for it
   * that are newer than those it has.
   */
  lemma FollowerSkips(h: seq<Pkt>, latency: int, p: Player)
    requires Indexed(h) && 0 <= p.outIndex < |h| && !Busy(p) && HasMedia(h)
    requires p.outIndex < |h| - 1001 || h[|h| - 1].ts - p.outTs > 2 * latency
    requires Start(h, latency) > p.outIndex
    ensures var s, q := Start(h, latency), GetFrames(h, latency, p);
            s < |h| && q.outFrames == TenFrom(h, s) && q.outIndex == s + |q.outFrames| - 1 &&
            var m, a := HeaderFor(Headers(h, Meta), s), HeaderFor(Headers(h, Audio), s);
            var v := HeaderFor(Headers(h, Video), s);
            q.meta == (if m.Some? && m.value.index > p.metaIndex then m else None) &&
            q.audio == (if a.Some? && a.value.index > p.audioIndex then a else None) &&
            q.video == (if v.Some? && v.value.index > p.videoIndex then v else None)
  {
    hide Headers, Next, ByLatency, GopIndex, LatestTs, TenFrom, HeaderFor, Skip, HasMedia;
    var s := Start(h, latency);
    LocatedGop(h, latency);
    SkipGets(h, latency, p);
    NewestTs(h);
    var q := Skip(h, latency, p);
    TenAre(h, q, s);
    assert [] + TenFrom(h, s) == TenFrom(h, s);
  }

  lemma NewestTs(h: seq<Pkt>)
    requires h != []
    ensures LatestTs(h) == h[|h| - 1].ts
  {
  }

  lemma SkipGets(h: seq<Pkt>, latency: int, p: Player)
    requires Start(h, latency) > p.outIndex >= 0 && !Busy(p)
    ensures var s, q := Start(h, latency), Skip(h, latency, p);
            var m, a := HeaderFor(Headers(h, Meta), s), HeaderFor(Headers(h, Audio), s);
            var v := HeaderFor(Headers(h, Video), s);
            q.meta == (if m.Some? && m.value.index > p.metaIndex then m else None) &&
            q.audio == (if a.Some? && a.value.index > p.audioIndex then a else None) &&
            q.video == (if v.Some? && v.value.index > p.videoIndex then v else None) &&
            q.outIndex == s - 1 && q.outFrames == []
  {
    hide Headers, ByLatency, GopIndex, LatestTs, HeaderFor;
  }

  /** One post sends the metadata, or else the audio header, or else the video header, or else all frames. */
  lemma OneAtATime(q: Player)
    ensures var out := SendOne(q, true).1;
            out ==
            if q.meta.Some? then [HeaderItem(Meta, q.meta.value)]
            else if q.audio.Some? then [HeaderItem(Audio, q.audio.value)]
            else if q.video.Some? then [HeaderItem(Video, q.video.value)]
            else AsFrames(q.outFrames)
    ensures SendOne(q, false) == (q, [])
  {
  }

  lemma {:induction false} KeyListed(h: seq<Pkt>)
    ensures Gops(h, -1) != [] <==> exists i :: 0 <= i < |h| && h[i].key
    decreases |h|
  {
    if h != [] {
      var n := |h| - 1;
      KeyListed(h[..n]);
      assert forall i :: 0 <= i < n ==> h[..n][i] == h[i];
    }
  }

  /** Nothing is sent before the first key frame, nor before the first codec header. */
  lemma Quiet(h: seq<Pkt>, latency: int, p: Player, accepts: bool)
    requires Indexed(h) && p.outIndex >= -1
    requires (forall i :: 0 <= i < |h| ==> !h[i].key) || forall i: int, k: Kind :: k != Other ==> !IsHeader(h, k, i)
    ensures PostFrames(h, latency, p, accepts) == (p, [])
  {
    KeyListed(h);
    HeaderLaw(h, Meta, 0);
    HeaderLaw(h, Audio, 0);
    HeaderLaw(h, Video, 0);
    hide GetFrames, SendOne, Headers, Gops;
  }

  /** Once both have come, a post is a look for frames and one message. */
  lemma Posts(h: seq<Pkt>, latency: int, p: Player, accepts: bool, k: Kind)
    requires Indexed(h) && p.outIndex >= -1 && k != Other
    requires (exists i :: 0 <= i < |h| && h[i].key) && exists i :: IsHeader(h, k, i)
    ensures PostFrames(h, latency, p, accepts) == SendOne(GetFrames(h, latency, p), accepts)
  {
    KeyListed(h);
    MediaKnown(h, k);
    hide GetFrames, SendOne, Headers, Gops, HasMedia;
  }
}
