/** The time stamps of a live stream after correction. */
module TimeCorrectors {
  const MAX_DELTA := 100
  const DEFAULT_VIDEO_DELTA := 40
  const DEFAULT_AUDIO_DELTA := 20
  const WORD := 0x1_0000_0000

  datatype Kind = Video | Audio | Other

  datatype Packet = Packet(kind: Kind, header: bool, time: nat)

  datatype State = State(videoOriginal: int, videoCorrected: int, audioOriginal: int, audioCorrected: int, audios: nat)

  const START := State(-1, 0, -1, 0, 0)

  predicate Fine(delta: int) {
    -MAX_DELTA < delta < MAX_DELTA
  }

  /** Assignment to an int32_t. */
  function Int32(x: int): (r: int)
    ensures -0x8000_0000 <= r < 0x8000_0000
    ensures -0x8000_0000 <= x < 0x8000_0000 ==> r == x
  {
    var v := x % WORD;
    if v < 0x8000_0000 then v else v - WORD
  }

  function NotNegative(x: int): (r: int)
    ensures r >= 0
  {
    if x < 0 then 0 else x
  }

  /** The first video packet starts from its own time, or from the audio if that is far away. */
  function VideoBase(s: State, time: nat): State {
    if s.videoOriginal != -1 then s
    else if s.audioOriginal != -1 && !Fine(Int32(s.audioOriginal - time)) then
      s.(videoOriginal := s.audioOriginal, videoCorrected := s.audioCorrected)
    else s.(videoOriginal := time, videoCorrected := time)
  }

  /** The delta that decides about the packet, if there is one. */
  function Consulted(s: State, p: Packet): int
    requires p.kind.Video? || p.kind.Audio?
  {
    if p.kind.Video? then p.time - VideoBase(s, p.time).videoOriginal
    else if s.audios > 0 then (if s.audioOriginal == -1 then 0 else p.time - s.audioOriginal)
    else if s.videoOriginal == -1 then 0
    else p.time - s.videoOriginal
  }

  class TimeCorrector {
    var videoOriginal: int
    var videoCorrected: int
    var audioOriginal: int
    var audioCorrected: int
    var audioNumbersBetweenVideo: nat

    constructor ()
      ensures Now() == START
    {
      videoOriginal, videoCorrected, audioOriginal, audioCorrected, audioNumbersBetweenVideo := -1, 0, -1, 0, 0;
    }

    function Now(): State
      reads this
    {
      State(videoOriginal, videoCorrected, audioOriginal, audioCorrected, audioNumbersBetweenVideo)
    }

    method CorrectTimestamp(p: Packet) returns (t: nat)
      modifies this
      ensures (Now(), t) == Correct(old(Now()), p)
    {
      if !p.header {
        if p.kind.Video? {
          t := CorrectVideoByVideo(p.time);
          return;
        } else if p.kind.Audio? {
          t := CorrectAudioByVideo(p.time);
          return;
        }
      }
      return 0;
    }

    method CorrectVideoByVideo(time: nat) returns (t: nat)
      modifies this
      ensures (Now(), t) == CorrectVideo(old(Now()), time)
    {
      audioNumbersBetweenVideo := 0;
      if videoOriginal == -1 {
        videoOriginal := time;
        videoCorrected := time;
        if audioOriginal != -1 {
          var delta := Int32(audioOriginal - videoOriginal);
          if delta <= -MAX_DELTA || delta >= MAX_DELTA {
            videoOriginal := audioOriginal;
            videoCorrected := audioCorrected;
          }
        }
      }
      var delta := time - videoOriginal;
      if !(delta > -MAX_DELTA && delta < MAX_DELTA) {
        delta := DEFAULT_VIDEO_DELTA;
      }
      videoOriginal := time;
      videoCorrected := videoCorrected + delta;
      if videoCorrected < 0 {
        videoCorrected := 0;
      }
      t := videoCorrected % WORD;
    }

    method CorrectAudioByVideo(time: nat) returns (t: nat)
      modifies this
      ensures (Now(), t) == CorrectAudio(old(Now()), time)
    {
      audioNumbersBetweenVideo := audioNumbersBetweenVideo + 1;
      if audioNumbersBetweenVideo > 1 {
        t := CorrectAudioByAudio(time);
        return;
      }
      if videoOriginal == -1 {
        audioOriginal := time;
        audioCorrected := time;
        return time % WORD;
      }
      var delta := time - videoOriginal;
      if !(delta > -MAX_DELTA && delta < MAX_DELTA) {
        delta := DEFAULT_VIDEO_DELTA;
      }
      audioOriginal := time;
      audioCorrected := videoCorrected + delta;
      if audioCorrected < 0 {
        audioCorrected := 0;
      }
      t := audioCorrected % WORD;
    }

    method CorrectAudioByAudio(time: nat) returns (t: nat)
      modifies `audioOriginal, `audioCorrected
      ensures audioOriginal == time
      ensures audioCorrected == if old(audioOriginal) == -1 then time
                                else NotNegative(old(audioCorrected) +
                                  Moved(time - old(audioOriginal), DEFAULT_AUDIO_DELTA))
      ensures t == audioCorrected % WORD
    {
      if audioOriginal == -1 {
        audioOriginal := time;
        audioCorrected := time;
        return time % WORD;
      }
      var delta := time - audioOriginal;
      if !(delta > -MAX_DELTA && delta < MAX_DELTA) {
        delta := DEFAULT_AUDIO_DELTA;
      }
      audioOriginal := time;
      audioCorrected := audioCorrected + delta;
      if audioCorrected < 0 {
        audioCorrected := 0;
      }
      t := audioCorrected % WORD;
    }
  }

  function Moved(delta: int, default: int): (r: int)
    requires Fine(default)
    ensures Fine(r)
  {
    if Fine(delta) then delta else default
  }

  function CorrectVideo(s: State, time: nat): (State, nat) {
    var b := VideoBase(s, time);
    var c := NotNegative(b.videoCorrected + Moved(time - b.videoOriginal, DEFAULT_VIDEO_DELTA));
    (b.(videoOriginal := time, videoCorrected := c, audios := 0), c % WORD)
  }

  function CorrectAudio(s: State, time: nat): (State, nat) {
    var c := if s.audios > 0 then
               (if s.audioOriginal == -1 then time
                else NotNegative(s.audioCorrected + Moved(time - s.audioOriginal, DEFAULT_AUDIO_DELTA)))
             else if s.videoOriginal == -1 then time
             else NotNegative(s.videoCorrected + Moved(time - s.videoOriginal, DEFAULT_VIDEO_DELTA));
    (s.(audioOriginal := time, audioCorrected := c, audios := s.audios + 1), c % WORD)
  }

  function Correct(s: State, p: Packet): (State, nat) {
    if p.header || p.kind.Other? then (s, 0)
    else if p.kind.Video? then CorrectVideo(s, p.time)
    else CorrectAudio(s, p.time)
  }

  // ---- Every run ----

  function Run(ps: seq<Packet>): State
    decreases |ps|
  {
    if ps == [] then START else Correct(Run(ps[..|ps| - 1]), ps[|ps| - 1]).0
  }

  function Out(ps: seq<Packet>, i: nat): nat
    requires i < |ps|
  {
    Correct(Run(ps[..i]), ps[i]).1
  }

  predicate Timed(p: Packet) {
    !p.header && !p.kind.Other?
  }

  lemma {:induction false} RunNotNegative(ps: seq<Packet>)
    ensures Run(ps).videoCorrected >= 0 && Run(ps).audioCorrected >= 0
    ensures Run(ps).videoOriginal >= -1 && Run(ps).audioOriginal >= -1
    ensures Run(ps).audios > 0 ==> Run(ps).audioOriginal != -1
    decreases |ps|
  {
    if ps != [] {
      RunNotNegative(ps[..|ps| - 1]);
    }
  }

  /**
   * Between two consecutive video packets of any run the corrected video time moves by less than 100, and stays >= 0.
   */
  lemma VideoSteady(ps: seq<Packet>, p: Packet)
    requires Run(ps).videoOriginal != -1
    ensures var s, t := Run(ps), Run(ps + [p]);
            t.videoCorrected >= 0 && Fine(t.videoCorrected - s.videoCorrected)
  {
    RunNotNegative(ps);
    assert (ps + [p])[..|ps|] == ps;
  }

  /**
   * In every run the first audio packet after video lies within 100 of the video, one with no video and no audio before
   * it keeps its time, and every further one lies within 100 of its predecessor.
   */
  lemma AudioSteady(ps: seq<Packet>, p: Packet)
    requires Timed(p) && p.kind.Audio?
    ensures var s, t := Run(ps), Run(ps + [p]);
            t.audioCorrected >= 0 &&
            if s.audios > 0 then Fine(t.audioCorrected - s.audioCorrected)
            else if s.videoOriginal != -1 then Fine(t.audioCorrected - s.videoCorrected)
            else t.audioCorrected == p.time
  {
    RunNotNegative(ps);
    assert (ps + [p])[..|ps|] == ps;
  }

  /** Corrected and original times agree. */
  predicate Same(s: State) {
    -1 <= s.videoOriginal < WORD && -1 <= s.audioOriginal < WORD &&
    (s.videoOriginal != -1 ==> s.videoCorrected == s.videoOriginal) &&
    (s.audioOriginal != -1 ==> s.audioCorrected == s.audioOriginal)
  }

  /** The last 40 milliseconds before 32-bit time stamps wrap around. */
  predicate NearWrap(time: int) {
    time >= WORD - DEFAULT_VIDEO_DELTA
  }

  lemma MovedSame(original: int, time: nat, default: int)
    requires 0 <= original < WORD && time < WORD && 0 < default <= DEFAULT_VIDEO_DELTA
    ensures var c := NotNegative(original + Moved(time - original, default));
            (Fine(time - original) ==> c == time && c % WORD == time) &&
            (c % WORD == time && !NearWrap(original) ==> Fine(time - original))
  {
  }

  lemma StepSame(s: State, p: Packet)
    requires Same(s) && p.time < WORD && Timed(p)
    ensures Fine(Consulted(s, p)) ==> Correct(s, p).1 == p.time && Same(Correct(s, p).0)
    ensures Correct(s, p).1 == p.time && !NearWrap(s.videoOriginal) && !NearWrap(s.audioOriginal) ==>
            Fine(Consulted(s, p))
  {
    if p.kind.Video? {
      VideoSame(s, p.time);
    } else {
      AudioSame(s, p.time);
    }
  }

  lemma VideoSame(s: State, time: nat)
    requires Same(s) && time < WORD
    ensures var fine := Fine(time - VideoBase(s, time).videoOriginal); var (t, out) := CorrectVideo(s, time);
            (fine ==> out == time && Same(t)) &&
            (out == time && !NearWrap(s.videoOriginal) && !NearWrap(s.audioOriginal) ==> fine)
  {
    hide Int32, Moved, NotNegative;
    MovedSame(VideoBase(s, time).videoOriginal, time, DEFAULT_VIDEO_DELTA);
  }

  lemma AudioSame(s: State, time: nat)
    requires Same(s) && time < WORD
    ensures var fine := Fine(Consulted(s, Packet(Audio, false, time))); var (t, out) := CorrectAudio(s, time);
            (fine ==> out == time && Same(t)) &&
            (out == time && !NearWrap(s.videoOriginal) && !NearWrap(s.audioOriginal) ==> fine)
  {
    hide Moved, NotNegative;
    if s.audios > 0 {
      if s.audioOriginal != -1 {
        MovedSame(s.audioOriginal, time, DEFAULT_AUDIO_DELTA);
      }
    } else if s.videoOriginal != -1 {
      MovedSame(s.videoOriginal, time, DEFAULT_VIDEO_DELTA);
    }
  }

  predicate InWord(ps: seq<Packet>) {
    forall i :: 0 <= i < |ps| ==> ps[i].time < WORD
  }

  predicate Early(ps: seq<Packet>) {
    forall i :: 0 <= i < |ps| ==> !NearWrap(ps[i].time)
  }

  predicate AllKept(ps: seq<Packet>) {
    forall i: nat :: i < |ps| && Timed(ps[i]) ==> Out(ps, i) == ps[i].time
  }

  predicate AllFine(ps: seq<Packet>) {
    forall i: nat :: i < |ps| && Timed(ps[i]) ==> Fine(Consulted(Run(ps[..i]), ps[i]))
  }

  /** The original times of the state are times of packets. */
  lemma {:induction false} OriginalsEarly(ps: seq<Packet>)
    requires Early(ps)
    ensures !NearWrap(Run(ps).videoOriginal) && !NearWrap(Run(ps).audioOriginal)
    decreases |ps|
  {
    if ps != [] {
      OriginalsEarly(ps[..|ps| - 1]);
    }
  }

  /**
   * For every run: if every delta the corrector consults lies strictly between -100 and 100 it changes nothing, and,
   * away from the wrap-around of the time stamps, it changes nothing only then.
   */
  lemma {:induction false} IdentityLaw(ps: seq<Packet>)
    requires InWord(ps)
    ensures AllFine(ps) ==> AllKept(ps) && Same(Run(ps))
    ensures Early(ps) ==> (AllKept(ps) <==> AllFine(ps))
    decreases |ps|
  {
    if ps != [] {
      var n := |ps| - 1;
      var qs, p := ps[..n], ps[n];
      IdentityLaw(qs);
      PrefixLaws(ps);
      if AllFine(qs) && Timed(p) {
        StepSame(Run(qs), p);
        if Early(ps) {
          OriginalsEarly(qs);
        }
      }
    }
  }

  lemma PrefixLaws(ps: seq<Packet>)
    requires ps != []
    ensures var n := |ps| - 1;
            (AllKept(ps) <==> AllKept(ps[..n]) && (Timed(ps[n]) ==> Out(ps, n) == ps[n].time)) &&
            (AllFine(ps) <==> AllFine(ps[..n]) && (Timed(ps[n]) ==> Fine(Consulted(Run(ps[..n]), ps[n]))))
  {
    hide Run, Correct, Consulted, Timed;
    var qs := ps[..|ps| - 1];
    assert forall i: nat :: i < |qs| ==> qs[i] == ps[i] && qs[..i] == ps[..i];
    assert forall i: nat :: i < |qs| ==> Out(ps, i) == Out(qs, i);
  }

  // ---- The rule, said of the packets before ----

  /** The time of the last packet of a kind that is no codec header, or -1. */
  function LastTime(ps: seq<Packet>, kind: Kind): int
    decreases |ps|
  {
    if ps == [] then -1
    else
      var p := ps[|ps| - 1];
      if p.kind == kind && !p.header then p.time else LastTime(ps[..|ps| - 1], kind)
  }

  /** The last audio or video packet that is no codec header is an audio packet. */
  predicate AudioLast(ps: seq<Packet>)
    decreases |ps|
  {
    ps != [] &&
    var p := ps[|ps| - 1];
    if p.header || p.kind.Other? then AudioLast(ps[..|ps| - 1]) else p.kind.Audio?
  }

  lemma {:induction false} RunRemembers(ps: seq<Packet>)
    ensures Run(ps).videoOriginal == LastTime(ps, Video) && Run(ps).audioOriginal == LastTime(ps, Audio)
    ensures Run(ps).audios > 0 <==> AudioLast(ps)
    decreases |ps|
  {
    if ps != [] {
      RunRemembers(ps[..|ps| - 1]);
    }
  }

  /** The step from one time to the next, or `default` instead of a jump of 100 or more. */
  function StepOr(from: int, to: int, default: int): int {
    if -100 < to - from < 100 then to - from else default
  }

  function AtLeastZero(x: int): int {
    if x < 0 then 0 else x
  }

  /**
   * Video: the last corrected video time moves by the step from the last video packet, by 40 for a jump. The first
   * video packet keeps its time, unless audio came before it from more than 99 away: then it comes 40 after the audio,
   * or as far as its time is from that of the audio if the distance only looked large in 32 bits.
   */
  lemma VideoRule(ps: seq<Packet>, p: Packet)
    requires p.kind.Video? && !p.header
    ensures var s, t := Run(ps), Run(ps + [p]); var v, a := LastTime(ps, Video), LastTime(ps, Audio);
            t.videoCorrected ==
              (if v != -1 then AtLeastZero(s.videoCorrected + StepOr(v, p.time, 40))
               else if a == -1 || -100 < Int32(a - p.time) < 100 then p.time
               else AtLeastZero(s.audioCorrected + StepOr(a, p.time, 40))) &&
            t.audioCorrected == s.audioCorrected && Out(ps + [p], |ps|) == t.videoCorrected % 0x1_0000_0000
  {
    RunRemembers(ps);
    assert (ps + [p])[..|ps|] == ps;
  }

  /**
   * Audio: after an audio packet its corrected time moves by the step from that, by 20 for a jump; after a video packet
   * by the step from the video, by 40 for a jump; with neither it keeps its time.
   */
  lemma AudioRule(ps: seq<Packet>, p: Packet)
    requires p.kind.Audio? && !p.header
    ensures var s, t := Run(ps), Run(ps + [p]); var v, a := LastTime(ps, Video), LastTime(ps, Audio);
            t.audioCorrected ==
              (if AudioLast(ps) then AtLeastZero(s.audioCorrected + StepOr(a, p.time, 20))
               else if v != -1 then AtLeastZero(s.videoCorrected + StepOr(v, p.time, 40))
               else p.time) &&
            t.videoCorrected == s.videoCorrected && Out(ps + [p], |ps|) == t.audioCorrected % 0x1_0000_0000
  {
    RunRemembers(ps);
    RunNotNegative(ps);
    assert (ps + [p])[..|ps|] == ps;
  }

  /** Codec headers and other packets change nothing and are stamped 0. */
  lemma OthersRule(ps: seq<Packet>, p: Packet)
    requires p.header || p.kind.Other?
    ensures Run(ps + [p]) == Run(ps) && Out(ps + [p], |ps|) == 0
  {
    assert (ps + [p])[..|ps|] == ps;
  }
}
