/** The capture rules of the voice step-up preview, over exact reals. */
module VoiceCapture {

  const LEVEL_THRESHOLD := 0.006
  const BACKGROUND_RATIO := 2.5
  const CALIBRATION_MS := 200
  const MIN_SPEECH_MS := 48
  const SPEECH_START_MS := 100
  const MAX_RECORDING_MS := 8_000
  const END_PAUSE_MS := 1_500
  const FRAME_MS := 16

  // ---- the rules, as functions of the levels heard ----

  predicate Calibrating(i: nat) { i * FRAME_MS < CALIBRATION_MS }

  function Max(a: real, b: real): (m: real)
    ensures m >= a && m >= b && (m == a || m == b)
  {
    if a < b then b else a
  }

  /** The room level after the first `n` frames. */
  function Background(r: seq<real>, n: nat): real
    requires n <= |r|
    decreases n, 0
  {
    if n == 0 then 0.0
    else
      var b := Background(r, n - 1);
      if Calibrating(n - 1) then b + (r[n - 1] - b) / (n as real)
      else if Audible(r, n - 1) then b
      else b + (r[n - 1] - b) * 0.02
  }

  /** Frame `i` rises above the room level measured before it. */
  predicate Audible(r: seq<real>, i: nat)
    requires i < |r|
    decreases i, 1
  {
    !Calibrating(i) && r[i] >= Max(LEVEL_THRESHOLD, Background(r, i) * BACKGROUND_RATIO)
  }

  /** How many frames before `n` are audible without a break. */
  function RunLength(r: seq<real>, n: nat): nat
    requires n <= |r|
  {
    if n == 0 || !Audible(r, n - 1) then 0 else RunLength(r, n - 1) + 1
  }

  /** Frame `i` is one of three consecutive audible frames that start at `a`. */
  predicate InRun(r: seq<real>, a: nat, i: nat) {
    a <= i < a + 3 <= |r| && Audible(r, a) && Audible(r, a + 1) && Audible(r, a + 2)
  }

  /** Frame `i` lies in an audible run of at least three frames. */
  ghost predicate Voiced(r: seq<real>, i: nat) { exists a: nat :: InRun(r, a, i) }

  /** Some run of sound has lasted at least 100 ms. */
  ghost predicate Spoken(r: seq<real>, n: nat)
    requires n <= |r|
  {
    exists k :: 0 <= k <= n && RunLength(r, k) * FRAME_MS >= SPEECH_START_MS
  }

  /** A capture of `n` frames is over: a long pause after speech, or eight seconds. */
  predicate Over(n: nat, last: int, speaking: bool) {
    (speaking && (n - 1 - last) * FRAME_MS >= END_PAUSE_MS) || n * FRAME_MS >= MAX_RECORDING_MS
  }

  lemma OverBy500(n: nat, last: int, speaking: bool)
    requires n <= 500
    ensures !Over(n, last, speaking) ==> n < 500
    ensures Over(500, last, speaking)
  {
  }

  /** The pause that ends a capture is 94 frames long, and the longest capture has 500. */
  lemma OverMeans(n: nat, last: int, speaking: bool)
    ensures Over(n, last, speaking) <==> n >= 500 || (speaking && n >= last + 95)
  {
  }

  /** An audible frame is one after the first thirteen that is loud in itself and stands out of the room. */
  lemma AudibleMeans(r: seq<real>, i: nat)
    requires i < |r|
    ensures Audible(r, i) <==> i >= 13 && r[i] >= 0.006 && r[i] >= 2.5 * Background(r, i)
  {
    hide Background;
  }

  /** Speech has started exactly when some run of sound has lasted seven frames, that is 112 ms. */
  lemma SpeechStartsAtSevenFrames(r: seq<real>, n: nat)
    requires n <= |r|
    ensures Spoken(r, n) <==> exists k :: 0 <= k <= n && RunLength(r, k) >= 7
  {
    hide RunLength;
    if Spoken(r, n) {
      var k :| 0 <= k <= n && RunLength(r, k) * FRAME_MS >= SPEECH_START_MS;
      assert RunLength(r, k) >= 7;
    }
    if k :| 0 <= k <= n && RunLength(r, k) >= 7 {
      assert RunLength(r, k) * FRAME_MS >= SPEECH_START_MS;
    }
  }

  // ---- hearing more changes nothing about the past ----

  lemma {:induction false} PastIsFixed(r: seq<real>, x: real, n: nat)
    requires n <= |r|
    ensures Background(r + [x], n) == Background(r, n)
    ensures n < |r| ==> (Audible(r + [x], n) <==> Audible(r, n))
    ensures RunLength(r + [x], n) == RunLength(r, n)
  {
    if n > 0 { PastIsFixed(r, x, n - 1); }
  }

  /** What a new frame makes of the room level and of the run of sound. */
  lemma FrameHeard(r: seq<real>, x: real)
    ensures var n, b := |r|, Background(r, |r|);
            var sound := !Calibrating(n) && x >= Max(LEVEL_THRESHOLD, b * BACKGROUND_RATIO);
            && Background(r + [x], n + 1)
               == (if Calibrating(n) then b + (x - b) / ((n + 1) as real) else if sound then b else b + (x - b) * 0.02)
            && RunLength(r + [x], n + 1) == (if sound then RunLength(r, n) + 1 else 0)
  {
    hide Calibrating, Max;
    PastIsFixed(r, x, |r|);
  }

  lemma {:induction false} RunIsAudible(r: seq<real>, n: nat, i: nat)
    requires i < n <= |r| && n - i <= RunLength(r, n)
    ensures Audible(r, i)
  {
    if i < n - 1 { RunIsAudible(r, n - 1, i); }
  }

  lemma {:induction false} AudibleIsRun(r: seq<real>, n: nat, k: nat)
    requires k <= n <= |r| && forall i :: n - k <= i < n ==> Audible(r, i)
    ensures RunLength(r, n) >= k
  {
    if k > 0 { AudibleIsRun(r, n - 1, k - 1); }
  }

  lemma RunsStay(r: seq<real>, x: real, a: nat, i: nat)
    requires a + 3 <= |r|
    ensures InRun(r + [x], a, i) <==> InRun(r, a, i)
  {
    hide Audible;
    PastIsFixed(r, x, a);
    PastIsFixed(r, x, a + 1);
    PastIsFixed(r, x, a + 2);
  }

  /** A new frame makes exactly these frames voiced: those that were, and once its run is three long, the last
      three. */
  lemma VoicedAfter(r: seq<real>, x: real, i: nat)
    requires i <= |r|
    ensures Voiced(r + [x], i) <==> Voiced(r, i) || (RunLength(r + [x], |r| + 1) >= 3 && i + 3 > |r|)
  {
    hide InRun, RunLength;
    var s, n := r + [x], |r|;
    if Voiced(r, i) {
      var a: nat :| InRun(r, a, i);
      assert a + 3 <= n by { RunBounds(r, a, i); }
      RunsStay(r, x, a, i);
      assert InRun(s, a, i);
    }
    if RunLength(s, n + 1) >= 3 && i + 3 > n { LongRunVoices(s, n + 1, i); }
    if Voiced(s, i) {
      var a: nat :| InRun(s, a, i);
      RunBounds(s, a, i);
      if a + 3 <= n {
        RunsStay(r, x, a, i);
        assert InRun(r, a, i);
      } else {
        AudibleIsRun(s, n + 1, 3);
      }
    }
  }

  lemma RunBounds(r: seq<real>, a: nat, i: nat)
    requires InRun(r, a, i)
    ensures a <= i < a + 3 <= |r| && forall j :: a <= j < a + 3 ==> Audible(r, j)
  {
    hide Audible;
  }

  lemma LongRunVoices(s: seq<real>, n: nat, i: nat)
    requires n <= |s| && RunLength(s, n) >= 3 && i < n < i + 4
    ensures Voiced(s, i)
  {
    hide Audible, RunLength;
    RunIsLong(s, n);
    assert InRun(s, n - 3, i);
  }

  lemma RunIsLong(s: seq<real>, n: nat)
    requires n <= |s| && RunLength(s, n) >= 3
    ensures n >= 3 && Audible(s, n - 3) && Audible(s, n - 2) && Audible(s, n - 1)
  {
    RunLengthBound(s, n);
    RunIsAudible(s, n, n - 3);
    RunIsAudible(s, n, n - 2);
    RunIsAudible(s, n, n - 1);
  }

  lemma {:induction false} RunLengthBound(r: seq<real>, n: nat)
    requires n <= |r|
    ensures RunLength(r, n) <= n
  {
    if n > 0 { RunLengthBound(r, n - 1); }
  }

  /** Once a run is longer than three, its earlier frames are voiced already. */
  lemma LongRunWasVoiced(r: seq<real>, x: real, i: nat)
    requires RunLength(r + [x], |r| + 1) > 3 && i < |r| && i + 3 > |r|
    ensures Voiced(r, i)
  {
    PastIsFixed(r, x, |r|);
    LongRunVoices(r, |r|, i);
  }

  /** When a run reaches three, its frames are all newly voiced. */
  lemma ShortRunIsSilent(r: seq<real>, x: real, i: nat)
    requires RunLength(r + [x], |r| + 1) == 3 && |r| < i + 3
    ensures !Voiced(r, i)
  {
    hide Audible, InRun;
    PastIsFixed(r, x, |r|);
    if Voiced(r, i) {
      var a: nat :| InRun(r, a, i);
      RunBounds(r, a, i);
      RunOfTwo(r, |r|);
      AudibleIsRun(r, |r|, 3);
    }
  }

  lemma RunOfTwo(r: seq<real>, n: nat)
    requires n <= |r| && RunLength(r, n) == 2
    ensures n >= 2 && Audible(r, n - 1) && Audible(r, n - 2)
  {
    hide Audible;
    RunLengthBound(r, n);
    RunIsAudible(r, n, n - 1);
    RunIsAudible(r, n, n - 2);
  }

  // ---- the room level ----

  function Sum(r: seq<real>): real {
    if r == [] then 0.0 else Sum(r[..|r| - 1]) + r[|r| - 1]
  }

  lemma MeanStep(b: real, x: real, n: real)
    requires n > 0.0
    ensures (b + (x - b) / n) * n == b * (n - 1.0) + x
  {
    assert ((x - b) / n) * n == x - b;
  }

  /** While calibrating, the room level is the exact mean. */
  lemma {:induction false} CalibrationIsTheMean(r: seq<real>, n: nat)
    requires n <= |r| && (n == 0 || Calibrating(n - 1))
    ensures Background(r, n) * (n as real) == Sum(r[..n])
  {
    if n > 0 {
      CalibrationIsTheMean(r, n - 1);
      assert r[..n][..n - 1] == r[..n - 1];
      MeanStep(Background(r, n - 1), r[n - 1], n as real);
    } else {
      assert r[..0] == [];
    }
  }

  function Power(x: real, n: nat): real { if n == 0 then 1.0 else x * Power(x, n - 1) }

  /** After calibration a quiet room is learned: its distance from the room level shrinks by 2% a frame. */
  lemma {:induction false} QuietRoomIsLearned(r: seq<real>, n: nat, k: nat, level: real)
    requires 13 <= n && n + k <= |r|
    requires forall i :: n <= i < n + k ==> r[i] == level && (level < 0.006 || level < 2.5 * Background(r, i))
    ensures Background(r, n + k) - level == Power(0.98, k) * (Background(r, n) - level)
  {
    hide Background;
    if k > 0 {
      QuietRoomIsLearned(r, n, k - 1, level);
      RoomStep(r, n + k - 1);
      Shrinks(Background(r, n + k - 1) - level, Power(0.98, k - 1), Background(r, n) - level);
    }
  }

  /** And sound never moves the room level, however long it lasts. */
  lemma {:induction false} SoundLeavesTheRoom(r: seq<real>, n: nat, k: nat)
    requires 13 <= n && n + k <= |r|
    requires forall i :: n <= i < n + k ==> r[i] >= 0.006 && r[i] >= 2.5 * Background(r, i)
    ensures Background(r, n + k) == Background(r, n)
  {
    hide Background;
    if k > 0 {
      SoundLeavesTheRoom(r, n, k - 1);
      RoomStep(r, n + k - 1);
    }
  }

  lemma RoomStep(r: seq<real>, n: nat)
    requires 13 <= n < |r|
    ensures Background(r, n + 1)
         == if r[n] >= 0.006 && r[n] >= 2.5 * Background(r, n) then Background(r, n)
            else Background(r, n) + (r[n] - Background(r, n)) * 0.02
  {
    AudibleMeans(r, n);
    hide Audible;
  }

  lemma Shrinks(d: real, p: real, d0: real)
    requires d == p * d0
    ensures d - d * 0.02 == 0.98 * p * d0
  {
  }

  lemma Between(lo: real, hi: real, b: real, x: real, w: real)
    requires lo <= b <= hi && lo <= x <= hi && 0.0 <= w <= 1.0
    ensures lo <= b + (x - b) * w <= hi
  {
    NonNegative(b - lo, 1.0 - w);
    NonNegative(x - lo, w);
    NonNegative(hi - b, 1.0 - w);
    NonNegative(hi - x, w);
    assert b + (x - b) * w - lo == (b - lo) * (1.0 - w) + (x - lo) * w;
    assert hi - (b + (x - b) * w) == (hi - b) * (1.0 - w) + (hi - x) * w;
  }

  lemma Share(d: real, n: real)
    requires n >= 1.0
    ensures d / n == d * (1.0 / n) && 0.0 <= 1.0 / n <= 1.0
  {
  }

  lemma NonNegative(p: real, q: real)
    requires p >= 0.0 && q >= 0.0
    ensures p * q >= 0.0
  {
  }

  /** From the first frame on, the room level stays within the levels heard. */
  lemma {:induction false} BackgroundStaysInRange(r: seq<real>, n: nat, lo: real, hi: real)
    requires 0 < n <= |r| && forall i :: 0 <= i < n ==> lo <= r[i] <= hi
    ensures lo <= Background(r, n) <= hi
  {
    hide Background;
    BackgroundMoves(r, n);
    if n > 1 {
      BackgroundStaysInRange(r, n - 1, lo, hi);
      var b, x := Background(r, n - 1), r[n - 1];
      Between(lo, hi, b, x, 1.0 / (n as real));
      Between(lo, hi, b, x, 0.02);
    }
  }

  /** A frame takes the room level to itself if it is the first, and else some way towards itself, or not at all. */
  lemma BackgroundMoves(r: seq<real>, n: nat)
    requires 0 < n <= |r|
    ensures 0.0 <= 1.0 / (n as real) <= 1.0 && (n == 1 ==> Background(r, n) == r[0])
    ensures n > 1 ==>
              var b, x := Background(r, n - 1), r[n - 1];
              || Background(r, n) == b + (x - b) * (1.0 / (n as real))
              || Background(r, n) == b + (x - b) * 0.02 || Background(r, n) == b
  {
    hide Audible;
    Share(r[n - 1] - Background(r, n - 1), n as real);
  }

  // ---- the object ----

  datatype Frame = Frame(rms: real, level: real, voiced: bool)

  function Levels(frames: seq<Frame>): (r: seq<real>)
    ensures |r| == |frames| && forall i :: 0 <= i < |r| ==> r[i] == frames[i].rms
  {
    seq(|frames|, i requires 0 <= i < |frames| => frames[i].rms)
  }

  class Capture {
    var frames: seq<Frame>
    var first: int
    var last: int
    var ended: bool
    var background: real
    var soundMs: nat
    var speaking: bool

    /** What the capture knows is what the rules say of the levels heard. */
    ghost predicate Valid()
      reads this
    {
      var r := Levels(frames);
      && Follows(r) && Marks(r) && (speaking <==> Spoken(r, |r|))
      && (ended <==> Over(|frames|, last, speaking))
      && |frames| <= 500
    }

    /** The room level and the current run of sound. */
    ghost predicate Follows(r: seq<real>)
      reads `background, `soundMs
    {
      background == Background(r, |r|) && soundMs == RunLength(r, |r|) * FRAME_MS
    }

    /** The voiced frames, the first and the last of them. */
    ghost predicate Marks(r: seq<real>)
      reads `frames, `first, `last
    {
      && (forall i :: 0 <= i < |frames| ==> (frames[i].voiced <==> Voiced(r, i)))
      && IsFirst() && IsLast()
    }

    /** `first` is the least voiced index, or -1. */
    ghost predicate IsFirst()
      reads `frames, `first
    {
      && (forall i :: 0 <= i < |frames| && frames[i].voiced ==> 0 <= first <= i)
      && (first == -1 || (0 <= first < |frames| && frames[first].voiced))
    }

    /** `last` is the greatest voiced index, or -1. */
    ghost predicate IsLast()
      reads `frames, `last
    {
      && (forall i :: 0 <= i < |frames| && frames[i].voiced ==> i <= last)
      && (last == -1 || (0 <= last < |frames| && frames[last].voiced))
    }

    constructor ()
      ensures Valid() && frames == [] && !ended
    {
      frames, first, last, ended := [], -1, -1, false;
      background, soundMs, speaking := 0.0, 0, false;
    }

    function SilenceMs(): int
      reads this
    {
      if speaking then (|frames| - 1 - last) * FRAME_MS else 0
    }

    method MarkSpeech(index: nat)
      requires index < |frames| && IsFirst() && IsLast() && last <= index && (first == -1 ==> last == -1)
      modifies `frames, `first, `last
      ensures |frames| == |old(frames)| && Levels(frames) == Levels(old(frames))
      ensures forall i :: 0 <= i < |frames| ==> (frames[i].voiced <==> old(frames)[i].voiced || i == index)
      ensures forall i :: 0 <= i < |frames| ==> frames[i].level == old(frames)[i].level
      ensures IsFirst() && IsLast() && last == index && first >= 0
    {
      frames := frames[index := frames[index].(voiced := true)];
      if first < 0 { first := index; }
      last := index;
    }

    /** push: an ended capture ignores the frame; otherwise it is heard, and the capture has ended by the 500th. */
    method Push(rms: real, display: real -> real)
      requires Valid()
      modifies this
      ensures Valid()
      ensures old(ended) ==> ended && frames == old(frames)
      ensures !old(ended) ==> Levels(frames) == Levels(old(frames)) + [rms] && frames[|frames| - 1].level == display(rms)
    {
      hide Background, Audible, Voiced, Spoken, RunLength, Marks, Follows, IsFirst, IsLast, Levels, Over;
      if ended { return; }
      ghost var r := Levels(frames);
      OverBy500(|frames|, last, speaking);
      Record(rms, display);
      Settle(r, rms);
    }

    /** Whether speech has started, and whether the capture is over. */
    method Settle(ghost r: seq<real>, ghost rms: real)
      requires Levels(frames) == r + [rms] && Follows(r + [rms]) && Marks(r + [rms])
      requires (speaking <==> Spoken(r, |r|)) && |frames| <= 500
      modifies `speaking, `ended
      ensures Valid()
    {
      hide Background, Audible, Voiced, Spoken, RunLength, Marks, IsFirst, IsLast, Levels;
      SpokenAfter(r, rms);
      if soundMs >= SPEECH_START_MS { speaking := true; }
      ended := (speaking && SilenceMs() >= END_PAUSE_MS) || |frames| * FRAME_MS >= MAX_RECORDING_MS;
    }

    /** Hearing a frame and marking the speech it completes. */
    method Record(rms: real, display: real -> real)
      requires Follows(Levels(frames)) && Marks(Levels(frames))
      modifies `background, `frames, `soundMs, `first, `last
      ensures Levels(frames) == Levels(old(frames)) + [rms] && frames[|frames| - 1].level == display(rms)
      ensures Follows(Levels(frames)) && Marks(Levels(frames))
    {
      hide Background, Audible, Voiced, RunLength, Follows;
      ghost var r := Levels(frames);
      Hear(rms, display);
      MarkRun(|frames| - 1, r, rms);
    }

    /** The frame is judged against the room level, and the room level follows what is not sound. */
    method Hear(rms: real, display: real -> real)
      requires Follows(Levels(frames)) && Marks(Levels(frames))
      modifies `background, `frames, `soundMs
      ensures frames == old(frames) + [Frame(rms, display(rms), false)]
      ensures Levels(frames) == Levels(old(frames)) + [rms] && Follows(Levels(frames))
      ensures IsFirst() && IsLast()
      ensures forall i :: 0 <= i < |frames| - 1 ==> (frames[i].voiced <==> Voiced(Levels(old(frames)), i))
    {
      hide Voiced, Calibrating, Max, Background, Audible, RunLength;
      ghost var r := Levels(frames);
      var index := |frames|;
      FrameHeard(r, rms);
      var calibrating := Calibrating(index);
      var audible := !calibrating && rms >= Max(LEVEL_THRESHOLD, background * BACKGROUND_RATIO);
      if calibrating {
        background := background + (rms - background) / ((index + 1) as real);
      } else if !audible {
        background := background + (rms - background) * 0.02;
      }
      frames := frames + [Frame(rms, display(rms), false)];
      assert Levels(frames) == r + [rms];
      soundMs := if audible then soundMs + FRAME_MS else 0;
    }

    /** Three audible frames in a row mark all three; from then on the run marks each new frame. */
    method MarkRun(index: nat, ghost r: seq<real>, ghost rms: real)
      requires |frames| == index + 1 && Levels(frames) == r + [rms] && Follows(Levels(frames))
      requires forall i :: 0 <= i < index ==> (frames[i].voiced <==> Voiced(r, i))
      requires !frames[index].voiced && IsFirst() && IsLast()
      modifies `frames, `first, `last
      ensures Levels(frames) == old(Levels(frames)) && |frames| == index + 1
      ensures frames[index].level == old(frames)[index].level
      ensures Marks(Levels(frames))
    {
      hide Background, Audible, Voiced, RunLength;
      VoicedAfterAll(r, rms);
      RunLengthBound(r + [rms], index + 1);
      assert RunLength(r + [rms], index + 1) == 3 <==> soundMs == MIN_SPEECH_MS;
      if soundMs == MIN_SPEECH_MS {
        forall i: nat | index - 2 <= i < index ensures !Voiced(r, i) { ShortRunIsSilent(r, rms, i); }
        var frame := index - MIN_SPEECH_MS / FRAME_MS + 1;
        while frame <= index
          invariant index - 2 <= frame <= index + 1 && |frames| == index + 1 && Levels(frames) == old(Levels(frames))
          invariant forall i :: 0 <= i <= index ==> (frames[i].voiced <==> old(frames)[i].voiced || index - 2 <= i < frame)
          invariant frames[index].level == old(frames)[index].level
          invariant IsFirst() && IsLast()
        {
          MarkSpeech(frame);
          frame := frame + 1;
        }
      } else if soundMs > MIN_SPEECH_MS {
        forall i: nat | index - 2 <= i < index ensures Voiced(r, i) { LongRunWasVoiced(r, rms, i); }
        MarkSpeech(index);
      }
    }
  }

  lemma VoicedAfterAll(r: seq<real>, x: real)
    ensures forall i: nat :: i <= |r| ==>
              (Voiced(r + [x], i) <==> Voiced(r, i) || (RunLength(r + [x], |r| + 1) >= 3 && i + 3 > |r|))
    ensures !Voiced(r, |r|)
  {
    hide RunLength, InRun;
    forall i: nat | i <= |r|
      ensures Voiced(r + [x], i) <==> Voiced(r, i) || (RunLength(r + [x], |r| + 1) >= 3 && i + 3 > |r|)
    {
      VoicedAfter(r, x, i);
    }
    if Voiced(r, |r|) {
      var a: nat :| InRun(r, a, |r|);
      RunBounds(r, a, |r|);
    }
  }

  lemma SpokenAfter(r: seq<real>, x: real)
    ensures Spoken(r + [x], |r| + 1) <==> Spoken(r, |r|) || RunLength(r + [x], |r| + 1) * FRAME_MS >= SPEECH_START_MS
  {
    var s := r + [x];
    forall k | 0 <= k <= |r| ensures RunLength(s, k) == RunLength(r, k) { PastIsFixed(r, x, k); }
  }
}
