/** HLS segments: cutting a stream into fragments, the sliding window of finished ones, and recycling. */
module Hls {
  import opened Options

  const WINDOW := 5
  const MIN_DURATION := 3000
  const MAX_DURATION := 12000

  /** What a playlist says about a fragment. */
  datatype Info = Info(no: int, duration: int, name: int)

  /** The target duration in seconds, the number of the first fragment, and the fragments. */
  datatype PlayList = PlayList(target: int, first: int, entries: seq<Info>)

  class Fragment {
    var sequenceNo: int
    var duration: int
    var startDts: int
    var fileName: int

    constructor ()
      ensures sequenceNo == 0 && duration == 0 && startDts == -1
    {
      sequenceNo, duration, startDts, fileName := 0, 0, -1, 0;
    }

    function Data(): Info
      reads this
    {
      Info(sequenceNo, duration, fileName)
    }

    method Reset()
      modifies this
      ensures sequenceNo == 0 && duration == 0 && startDts == -1
    {
      duration, sequenceNo, startDts := 0, 0, -1;
    }

    /** The duration is the distance from the earliest time stamp so far to the latest packet. */
    method AppendTimeStamp(dts: int)
      modifies `startDts, `duration
      ensures startDts == Start(old(startDts), dts) && duration == dts - startDts
    {
      if startDts == -1 {
        startDts := dts;
      }
      if dts < startDts {
        startDts := dts;
      }
      duration := dts - startDts;
    }
  }

  function Start(start: int, dts: int): int {
    if start == -1 || dts < start then dts else start
  }

  /** The start after the time stamps `ts`. */
  function Starts(ts: seq<int>): int
    decreases |ts|
  {
    if ts == [] then -1 else Start(Starts(ts[..|ts| - 1]), ts[|ts| - 1])
  }

  /** The start is the earliest of the time stamps, whatever their order. */
  lemma {:induction false} StartIsEarliest(ts: seq<int>)
    requires ts != [] && forall i :: 0 <= i < |ts| ==> ts[i] >= 0
    ensures Starts(ts) in ts && forall i :: 0 <= i < |ts| ==> Starts(ts) <= ts[i]
    decreases |ts|
  {
    var n := |ts| - 1;
    assert ts[n] in ts;
    if n > 0 {
      StartIsEarliest(ts[..n]);
      assert forall x :: x in ts[..n] ==> x in ts;
      assert forall i :: 0 <= i < n ==> ts[..n][i] == ts[i];
    }
  }

  ghost function Infos(fs: seq<Fragment>): (r: seq<Info>)
    reads fs
    ensures |r| == |fs| && forall i :: 0 <= i < |fs| ==> r[i] == fs[i].Data()
    decreases |fs|
  {
    if fs == [] then [] else Infos(fs[..|fs| - 1]) + [fs[|fs| - 1].Data()]
  }

  ghost predicate Distinct(fs: seq<Fragment>) {
    forall i, j :: 0 <= i < j < |fs| ==> fs[i] != fs[j]
  }

  function Longest(es: seq<Info>): (m: int)
    ensures m >= 0 && forall i :: 0 <= i < |es| ==> es[i].duration <= m
    ensures m == 0 || exists i :: 0 <= i < |es| && es[i].duration == m
    decreases |es|
  {
    if es == [] then 0
    else
      var m := Longest(es[..|es| - 1]);
      if es[|es| - 1].duration > m then es[|es| - 1].duration else m
  }

  /** Milliseconds rounded up to seconds. */
  function Seconds(m: int): int {
    (m + 999) / 1000
  }

  function Listing(es: seq<Info>): PlayList
    requires es != []
  {
    PlayList(Seconds(Longest(es)), es[0].no, es)
  }

  /** The target duration is the least number of seconds that covers every fragment listed. */
  lemma TargetCovers(es: seq<Info>)
    requires es != []
    ensures var t := Listing(es).target;
            (forall i :: 0 <= i < |es| ==> es[i].duration <= 1000 * t) &&
            (t == 0 || exists i :: 0 <= i < |es| && es[i].duration > 1000 * (t - 1))
  {
    var m := Longest(es);
    if m > 0 {
      var i :| 0 <= i < |es| && es[i].duration == m;
    }
  }

  /** A listing of the last five of fragments numbered from 0. */
  lemma ListingOf(es: seq<Info>)
    requires es != [] && forall i :: 0 <= i < |es| ==> es[i].no == i
    ensures var n := if |es| > 5 then |es| - 5 else 0; var p := Listing(Recent(es));
            p.first == n && p.entries == es[n..] &&
            forall i :: n <= i < |es| ==> es[i].duration <= 1000 * p.target
  {
    hide Longest, Seconds;
    RecentAreLast(es);
    TargetCovers(Recent(es));
    var n := if |es| > 5 then |es| - 5 else 0;
    forall i | n <= i < |es| ensures es[i].duration <= 1000 * Listing(Recent(es)).target {
      assert es[i] == Recent(es)[i - n];
    }
  }

  /** The last five of a list. */
  function Recent<T>(s: seq<T>): (r: seq<T>)
    ensures |r| == if |s| > 5 then 5 else |s|
  {
    if |s| > WINDOW then s[|s| - WINDOW..] else s
  }

  lemma RecentAreLast<T>(s: seq<T>)
    ensures Recent(s) == s[|s| - |Recent(s)|..]
  {
  }

  lemma DistinctFrom(fs: seq<Fragment>, i: nat)
    requires Distinct(fs) && i < |fs|
    ensures forall k :: i < k < |fs| ==> fs[k] != fs[i]
  {
  }

  lemma RecentIs<T>(s: seq<T>, i: nat)
    requires i == if |s| > WINDOW then |s| - WINDOW else 0
    ensures Recent(s) == s[i..]
  {
  }

  lemma InfosMore(fs: seq<Fragment>, f: Fragment)
    ensures Infos(fs + [f]) == Infos(fs) + [f.Data()]
  {
    assert (fs + [f])[..|fs|] == fs;
  }

  class FragmentWindow {
    var fragments: seq<Fragment>
    var free: seq<Fragment>
    var playlist: Option<PlayList>

    constructor ()
      ensures fragments == [] && free == [] && playlist == None
    {
      fragments, free, playlist := [], [], None;
    }

    method AppendFragment(f: Fragment)
      requires Distinct(fragments + [f])
      modifies this, fragments
      ensures fragments == Recent(old(fragments) + [f])
      ensures free == old(free) + (old(fragments) + [f])[..|old(fragments)| + 1 - |fragments|]
      ensures Infos(fragments) == Recent(old(Infos(fragments) + [f.Data()]))
      ensures playlist == if |fragments| < 3 then old(playlist) else Some(Listing(Infos(fragments)))
    {
      hide Recent, Listing, Distinct, Infos;
      InfosMore(fragments, f);
      fragments := fragments + [f];
      Shrink();
      UpdatePlayList();
      RecentIs(Infos(fragments), 0);
    }

    /** Fragments that leave the window are reset and kept for reuse. */
    method Shrink()
      requires Distinct(fragments)
      modifies this, fragments[..|fragments| - |Recent(fragments)|]
      ensures fragments == Recent(old(fragments))
      ensures free == old(free) + old(fragments)[..|old(fragments)| - |fragments|]
      ensures Infos(fragments) == Recent(old(Infos(fragments)))
      ensures playlist == old(playlist)
    {
      hide Infos, Distinct, Recent;
      ghost var was, infos := fragments, Infos(fragments);
      if |fragments| <= WINDOW {
        RecentIs(was, 0);
        RecentIs(infos, 0);
        return;
      }
      var removeIndex := |fragments| - WINDOW;
      RecentIs(was, removeIndex);
      RecentIs(infos, removeIndex);
      var i := 0;
      while i < removeIndex && fragments != []
        invariant 0 <= i <= removeIndex && fragments == was[i..]
        invariant free == old(free) + was[..i]
        invariant forall k :: removeIndex <= k < |was| ==> was[k].Data() == infos[k]
        invariant playlist == old(playlist)
      {
        var p := fragments[0];
        DistinctFrom(was, i);
        fragments := fragments[1..];
        p.Reset();
        free := free + [p];
        i := i + 1;
      }
      assert forall k :: 0 <= k < |fragments| ==> fragments[k] == was[removeIndex + k];
      assert Infos(fragments) == infos[removeIndex..];
    }

    /** The longest duration from fragment `i` on. */
    method LongestFrom(i: nat, ghost listed: seq<Info>) returns (m: int)
      requires i <= |fragments| && |listed| == |fragments| - i
      requires forall k :: 0 <= k < |listed| ==> listed[k] == fragments[i + k].Data()
      ensures m == Longest(listed)
    {
      var j := i;
      m := 0;
      while j < |fragments|
        invariant i <= j <= |fragments|
        invariant m == Longest(listed[..j - i])
      {
        assert listed[..j + 1 - i][..j - i] == listed[..j - i];
        assert fragments[i + (j - i)].duration == listed[j - i].duration;
        if fragments[j].duration > m {
          m := fragments[j].duration;
        }
        j := j + 1;
      }
      assert listed[..j - i] == listed;
    }

    method EntriesFrom(i: nat, ghost listed: seq<Info>) returns (entries: seq<Info>)
      requires i <= |fragments| && |listed| == |fragments| - i
      requires forall k :: 0 <= k < |listed| ==> listed[k] == fragments[i + k].Data()
      ensures entries == listed
    {
      var j := i;
      entries := [];
      while j < |fragments|
        invariant i <= j <= |fragments| && entries == listed[..j - i]
      {
        assert fragments[i + (j - i)].Data() == listed[j - i];
        entries := entries + [Info(fragments[j].sequenceNo, fragments[j].duration, fragments[j].fileName)];
        j := j + 1;
      }
    }

    /** With three fragments or more the playlist lists the last five. */
    method UpdatePlayList()
      modifies `playlist
      ensures playlist == if |fragments| < 3 then old(playlist) else Some(Listing(Recent(Infos(fragments))))
    {
      hide Longest, Infos, Seconds, Recent;
      if fragments == [] || |fragments| < 3 {
        return;
      }
      var i := if |fragments| > 5 then |fragments| - 5 else 0;
      ghost var infos := Infos(fragments);
      ghost var listed := Recent(infos);
      RecentIs(infos, i);
      var maxDuration := LongestFrom(i, listed);
      var target := Seconds(maxDuration);
      assert fragments[i + 0].Data() == listed[0];
      var entries := EntriesFrom(i, listed);
      playlist := Some(PlayList(target, fragments[i].sequenceNo, entries));
      assert playlist == Some(Listing(listed));
      assert Infos(fragments) == infos;
    }

    /** The oldest recycled fragment, or a new one. */
    method GetIdleFragment() returns (f: Fragment)
      modifies `free
      ensures if old(free) == [] then fresh(f) && free == [] else f == old(free)[0] && free == old(free)[1..]
    {
      if free == [] {
        f := new Fragment();
      } else {
        f := free[0];
        free := free[1..];
      }
    }

    method GetFragmentByName(name: int) returns (f: Fragment?)
      ensures f != null ==> exists i :: 0 <= i < |fragments| && f == fragments[i] && f.fileName == name &&
                                       forall j :: 0 <= j < i ==> fragments[j].fileName != name
      ensures f == null ==> forall i :: 0 <= i < |fragments| ==> fragments[i].fileName != name
    {
      var i := 0;
      while i < |fragments|
        invariant 0 <= i <= |fragments|
        invariant forall j :: 0 <= j < i ==> fragments[j].fileName != name
      {
        if fragments[i].fileName == name {
          return fragments[i];
        }
        i := i + 1;
      }
      f := null;
    }
  }

  /** A packet as the muxer sees it; `timed` if the encoder takes its time stamp, `name` the clock's file name. */
  datatype Packet = Packet(key: bool, ts: int, timed: bool, name: int)

  class HLSMuxer {
    const window: FragmentWindow
    var current: Fragment?
    var fragmentSeqNo: nat
    /** The fragments finished so far, and every fragment object ever created. */
    ghost var history: seq<Info>
    ghost var objects: set<Fragment>
    /** The time stamps the current fragment has been given. */
    ghost var times: seq<int>

    ghost function Open(): seq<Fragment>
      reads this
    {
      if current == null then [] else [current]
    }

    /** Every fragment object is in exactly one place, and there are at most six. */
    ghost predicate Conserved()
      reads this, window
    {
      var all := window.fragments + window.free + Open();
      Distinct(all) && objects == (set f | f in all) && |all| <= 6 && |window.fragments| <= 5 &&
      (window.free != [] ==> |window.fragments| == WINDOW && current == null)
    }

    /**
     * The window is the last five finished fragments, numbered without gaps and long enough; the playlist lists them.
     */
    ghost predicate Windowed()
      reads this, window, window.fragments
    {
      Infos(window.fragments) == Recent(history) &&
      (forall i :: 0 <= i < |history| ==> history[i].no == i && history[i].duration >= 3000) &&
      window.playlist == if |history| < 3 then None else Some(Listing(Recent(history)))
    }

    /** The current fragment runs from its earliest time stamp to its latest packet. */
    ghost predicate Measured()
      reads this, current
    {
      current != null ==>
        current.startDts == Starts(times) &&
        current.duration == if times == [] then 0 else times[|times| - 1] - Starts(times)
    }

    ghost predicate Valid()
      reads this, window, objects
    {
      Conserved() &&
      (forall f :: f in window.fragments ==> f in objects) && (forall f :: f in Open() ==> f in objects) &&
      Windowed() && Measured() &&
      fragmentSeqNo == |history| + |Open()| && (current != null ==> current.sequenceNo == |history|)
    }

    constructor ()
      ensures Valid() && history == [] && objects == {} && current == null && fresh(window)
    {
      window := new FragmentWindow();
      current, fragmentSeqNo, history, objects, times := null, 0, [], {}, [];
    }

    /** The current fragment goes into the window. */
    method Finish()
      requires Valid() && current != null && current.duration >= 3000
      modifies this, window, objects
      ensures Valid() && current == null && objects == old(objects) && fragmentSeqNo == old(fragmentSeqNo)
      ensures history == old(history) + [old(current.Data())]
    {
      hide Infos, Recent, Listing, Start, Starts, Distinct;
      ghost var cur: Fragment := current;
      ghost var fs, done := window.fragments, current.Data();
      assert window.free == [];
      assert fs + [] + [cur] == fs + [cur];
      Rotated(fs, cur);
      RecentMore(history, done);
      window.AppendFragment(current);
      history := history + [done];
      current := null;
      assert window.free == (fs + [cur])[..|fs| + 1 - |window.fragments|];
      assert window.fragments + window.free + [] == window.fragments + window.free;
      assert Conserved();
      assert Windowed();
    }

    /** A new current fragment: a recycled one if there is one. */
    method Begin(name: int)
      requires Valid() && current == null
      modifies this, window, objects
      ensures Valid() && current != null && history == old(history) && window.fragments == old(window.fragments)
      ensures current.startDts == -1 && current.duration == 0 && current.fileName == name && times == []
      ensures current in objects && fresh(objects - old(objects))
    {
      hide Infos, Recent, Listing, Start, Distinct;
      ghost var fs, fr := window.fragments, window.free;
      assert fs + fr + [] == fs + fr;
      FreeApart(fs, fr);
      var f := window.GetIdleFragment();
      current := f;
      assert f !in fs;
      f.Reset();
      f.fileName := name;
      f.sequenceNo := fragmentSeqNo;
      times := [];
      fragmentSeqNo := fragmentSeqNo + 1;
      objects := objects + {f};
      Reused(fs, fr, f);
      assert Infos(fs) == old(Infos(window.fragments));
      assert Conserved();
      assert Windowed();
    }

    /** The playlist appears with the third fragment; it lists the last five, numbered from the start of the stream. */
    lemma PlaylistShows()
      requires Valid()
      ensures window.playlist.Some? <==> |history| >= 3
      ensures |history| >= 3 ==>
                var n := if |history| > 5 then |history| - 5 else 0;
                window.playlist.value.first == n && window.playlist.value.entries == history[n..] &&
                forall i :: n <= i < |history| ==> history[i].duration <= 1000 * window.playlist.value.target
    {
      hide Conserved, Measured, Infos, Listing, Recent;
      if |history| >= 3 {
        ListingOf(history);
      }
    }

    lemma FreeApart(fs: seq<Fragment>, fr: seq<Fragment>)
      requires Distinct(fs + fr)
      ensures fr != [] ==> fr[0] in fs + fr && fr[0] !in fs
    {
      assert fr != [] ==> (fs + fr)[|fs|] == fr[0];
      assert forall i :: 0 <= i < |fs| ==> (fs + fr)[i] == fs[i];
    }

    lemma CurrentApart()
      requires Conserved() && current != null
      ensures current !in window.fragments
    {
      var all := window.fragments + window.free + Open();
      assert all[|all| - 1] == current;
      assert forall i :: 0 <= i < |window.fragments| ==> all[i] == window.fragments[i];
    }

    method AddTime(ts: int)
      requires Valid() && current != null
      modifies `times, current`startDts, current`duration
      ensures Valid() && times == old(times) + [ts]
      ensures current.startDts == Start(old(current.startDts), ts) && current.duration == ts - current.startDts
    {
      hide Infos, Recent, Listing, Distinct;
      CurrentApart();
      current.AppendTimeStamp(ts);
      times := times + [ts];
      assert times[..|times| - 1] == old(times);
    }

    /**
     * HLSMuxer::OnPacket: a fragment is finished by a key frame once it is long enough, or by any packet once it is too
     * long; then the packet's time stamp is added to the current fragment.
     */
    method OnPacket(p: Packet)
      requires Valid()
      modifies this, window, objects
      ensures Valid() && current != null && fresh(objects - old(objects))
      ensures var cut := old(current != null && ((p.key && current.duration >= 3000) || current.duration > 12000));
              history == old(history) + (if cut then [old(current.Data())] else []) &&
              var (start, duration) :=
                if cut || old(current) == null then (-1, 0) else old((current.startDts, current.duration));
              times == (if cut || old(current) == null then [] else old(times)) + (if p.timed then [p.ts] else []) &&
              if p.timed then current.startDts == Start(start, p.ts) && current.duration == p.ts - Start(start, p.ts)
              else current.startDts == start && current.duration == duration
    {
      hide Infos, Recent, Listing, Windowed, Conserved, Distinct, Start, Starts;
      if current != null {
        if (p.key && current.duration >= MIN_DURATION) || current.duration > MAX_DURATION {
          Finish();
        }
      }
      if current == null {
        Begin(p.name);
      }
      if p.timed {
        AddTime(p.ts);
      }
    }
  }

  lemma RecentMore<T>(s: seq<T>, x: T)
    ensures Recent(Recent(s) + [x]) == Recent(s + [x])
  {
  }

  /** The fragment objects after the current one has been appended to a window of at most five. */
  lemma Rotated(fs: seq<Fragment>, cur: Fragment)
    requires Distinct(fs + [cur]) && |fs| <= WINDOW
    ensures var fs1 := Recent(fs + [cur]); var fr1 := (fs + [cur])[..|fs| + 1 - |fs1|];
            Distinct(fs1 + fr1) && (set f | f in fs1 + fr1) == (set f | f in fs + [cur]) &&
            |fs1 + fr1| == |fs| + 1 && |fs1| <= WINDOW && (fr1 != [] ==> |fs1| == WINDOW)
  {
    var all := fs + [cur];
    var k := if |fs| == WINDOW then 1 else 0;
    RecentIs(all, k);
    SwappedAround(all[..k], all[k..]);
    assert all[..k] + all[k..] == all;
  }

  lemma SwappedAround(a: seq<Fragment>, b: seq<Fragment>)
    requires Distinct(a + b)
    ensures Distinct(b + a) && (set f | f in b + a) == (set f | f in a + b)
  {
    var all, after := a + b, b + a;
    forall i, j | 0 <= i < j < |after| ensures after[i] != after[j] {
      assert after[i] == all[if i < |b| then |a| + i else i - |b|];
      assert after[j] == all[if j < |b| then |a| + j else j - |b|];
    }
    assert forall f :: f in after <==> f in all;
  }

  lemma Reused(fs: seq<Fragment>, fr: seq<Fragment>, cur: Fragment)
    requires Distinct(fs + fr) && (if fr == [] then cur !in fs else cur == fr[0])
    ensures var rest := if fr == [] then [] else fr[1..];
            Distinct(fs + rest + [cur]) && (set f | f in fs + rest + [cur]) == (set f | f in fs + fr) + {cur}
  {
    if fr == [] {
      assert fs + [] + [cur] == fs + [cur] && fs + [] == fs;
    } else {
      var rest := fr[1..];
      assert fr == [cur] + rest;
      var was, all := fs + fr, fs + rest + [cur];
      assert was[|fs|] == cur;
      forall i, j | 0 <= i < j < |all| ensures all[i] != all[j] {
        var i1 := if i < |fs| then i else i + 1;
        assert all[i] == was[i1];
        assert all[j] == was[if j == |all| - 1 then |fs| else if j < |fs| then j else j + 1];
      }
      assert forall f :: f in all <==> f in was;
    }
  }
}
