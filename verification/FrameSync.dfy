/**
 The frame skip/duplicate controller, the audio loop and the A/V correction of
 mencoder's main loop (mencoder.c), outside 3-pass mode, over the reals.

 The muxer is a pair of output clocks: every chunk written to the video stream
 advances its clock by one output frame, and every audio chunk advances the
 audio clock by its length.
 */
module FrameSync {
  import opened Wrappers

  datatype Codec = Copy | FrameNo | Encode

  // An audio chunk: what it adds to the audio clock, and the timestamp of the audio that is next to be read after it.
  datatype Chunk = Chunk(length: real, pts: real)

  // pts is the timestamp of the first audio, delay is audio_delay, lag what the audio encoder holds back, and preload
  // is audio_preload.
  datatype Sound = Sound(chunks: seq<Chunk>, pts: real, delay: real, lag: real, preload: real)

  datatype Params = Params(mux: real,         // duration of an output frame: dwScale / dwRate
                           skipLimit: int,    // negative: no limit
                           speed: real,       // playback_speed
                           defaultMax: real,  // default_max_pts_correction
                           codec: Codec,
                           sound: Option<Sound>)
  {
    ghost predicate Ok() {
      mux > 0.0 && speed > 0.0
    }
  }

  // One input frame: its duration, whether the filters emit it and the encoder takes it, whether the encoder holds the
  // frame and then each of its duplicates instead of writing a chunk, its timestamp, and the frame time of the stream.
  // Answers that are missing from holds are no.
  datatype Frame = Frame(time: real, emitted: bool, holds: seq<bool>, pts: real, frameTime: real)

  // out and aOut are the video and the audio clock, held is encoder_delay, fed the audio chunks written, maxCorr is
  // max_pts_correction; the counters are duplicatedframes, skippedframes, the bad frames that were not to be skipped,
  // and all frames.
  datatype State = State(vTimer: real, vPts: real, cTotal: real, out: real, held: nat, aOut: real, fed: nat,
                         maxCorr: real, dups: nat, skips: nat, lost: nat, frames: nat)

  // The length of n output frames.
  function Span(p: Params, n: int): real {
    p.mux * n as real
  }

  lemma Units(p: Params, a: int, b: int)
    ensures Span(p, a + b) == Span(p, a) + Span(p, b)
    ensures Span(p, 0) == 0.0 && Span(p, 1) == p.mux
  {
    assert (a + b) as real == a as real + b as real;
  }

  // ----- The decision

  // Whole output frames in x, for the termination of the loops.
  function Frames(x: real, mux: real): int
    requires mux > 0.0
  {
    (x / mux).Floor
  }

  lemma OneFrameLess(x: real, mux: real)
    requires mux > 0.0 && x >= mux
    ensures Frames(x, mux) >= 1 && Frames(x - mux, mux) == Frames(x, mux) - 1
  {
    assert (x - mux) / mux == x / mux - mux / mux == x / mux - 1.0;
    assert x / mux >= 1.0;
  }

  predicate MayDup(p: Params, vTimer: real, skip: int) {
    vTimer <= -p.mux && (p.skipLimit < 0 || -skip < p.skipLimit)
  }

  function TimerLoop(p: Params, vTimer: real, skip: int): (r: (real, int))
    requires p.Ok()
    decreases if vTimer <= -p.mux then Frames(-vTimer, p.mux) else 0
  {
    if MayDup(p, vTimer, skip) then
      OneFrameLess(-vTimer, p.mux);
      assert -vTimer - p.mux == -(vTimer + p.mux);
      TimerLoop(p, vTimer + p.mux, skip - 1)
    else (vTimer, skip)
  }

  function TimerDecision(p: Params, vTimer: real): (real, int)
    requires p.Ok()
  {
    if vTimer >= p.mux && (p.skipLimit < 0 || 0 < p.skipLimit) then TimerLoop(p, vTimer - p.mux, 1)
    else TimerLoop(p, vTimer, 0)
  }

  predicate PtsDup(p: Params, vPts: real, skip: int) {
    (vPts <= -p.mux && skip > 0) || vPts <= -2.0 * p.mux
  }

  function PtsLoop(p: Params, vPts: real, skip: int): (real, int)
    requires p.Ok()
    decreases if vPts <= -p.mux then Frames(-vPts, p.mux) else 0
  {
    if PtsDup(p, vPts, skip) then
      OneFrameLess(-vPts, p.mux);
      assert -vPts - p.mux == -(vPts + p.mux);
      PtsLoop(p, vPts + p.mux, skip - 1)
    else (vPts, skip)
  }

  predicate PtsSkip(p: Params, vPts: real, skip: int) {
    ((vPts >= p.mux && skip < 0) || vPts >= 2.0 * p.mux) && skip <= 0
  }

  // v_timer_corr, v_pts_corr and skip_flag after the decision for a frame.
  function Decide(p: Params, vTimer: real, vPts: real): (real, real, int)
    requires p.Ok()
  {
    var (vt, sk0) := TimerDecision(p, vTimer);
    var (vp, sk) := PtsLoop(p, vPts, sk0);
    if PtsSkip(p, vp, sk) then (vt, vp - p.mux, sk + 1) else (vt, vp, sk)
  }

  // ----- What the decision is, for every limit

  lemma {:induction false} TimerLoopIs(p: Params, vTimer: real, skip: int)
    requires p.Ok() && skip <= 0 && (p.skipLimit < 0 || -skip <= p.skipLimit)
    ensures var due := if vTimer <= -p.mux then Frames(-vTimer, p.mux) else 0;
            var n := if p.skipLimit < 0 || due <= p.skipLimit + skip then due else p.skipLimit + skip;
            TimerLoop(p, vTimer, skip) == (vTimer + Span(p, n), skip - n)
    decreases if vTimer <= -p.mux then Frames(-vTimer, p.mux) else 0
  {
    Units(p, 0, 0);
    hide Span;
    if vTimer <= -p.mux {
      OneFrameLess(-vTimer, p.mux);
      assert -vTimer - p.mux == -(vTimer + p.mux);
      if p.skipLimit < 0 || -skip < p.skipLimit {
        TimerLoopIs(p, vTimer + p.mux, skip - 1);
        FewFrames(-(vTimer + p.mux), p.mux);
        var due := Frames(-vTimer, p.mux);
        var n := if p.skipLimit < 0 || due <= p.skipLimit + skip then due else p.skipLimit + skip;
        Units(p, n - 1, 1);
      }
    }
  }

  lemma FewFrames(x: real, mux: real)
    requires mux > 0.0
    ensures 0.0 <= x < mux ==> Frames(x, mux) == 0
  {
    if 0.0 <= x < mux {
      var q := x / mux;
      assert q * mux == x;
      assert q >= 1.0 ==> (q - 1.0) * mux >= 0.0;
      assert q < 0.0 ==> -q * mux > 0.0;
    }
  }

  // The timer, when it is less than a frame behind: a whole frame ahead asks for one skip, unless the limit is 0.
  lemma TimerAhead(p: Params, vTimer: real)
    requires p.Ok() && vTimer > -p.mux
    ensures TimerDecision(p, vTimer)
         == if vTimer >= p.mux && p.skipLimit != 0 then (vTimer - p.mux, 1) else (vTimer, 0)
  {
  }

  // Behind, as many duplicates as whole frames are due, but no more than a limit that is not negative.
  lemma TimerBehind(p: Params, vTimer: real, due: int, n: int)
    requires p.Ok() && vTimer <= -p.mux
    requires due == (-vTimer / p.mux).Floor && n == if p.skipLimit < 0 || due <= p.skipLimit then due else p.skipLimit
    ensures TimerDecision(p, vTimer) == (vTimer + p.mux * n as real, -n)
    ensures due >= 1 && n >= 0
  {
    OneFrameLess(-vTimer, p.mux);
    assert TimerDecision(p, vTimer) == TimerLoop(p, vTimer, 0);
    assert due == Frames(-vTimer, p.mux);
    assert Span(p, n) == p.mux * n as real;
    hide TimerDecision, TimerLoop, Frames, Span;
    TimerLoopIs(p, vTimer, 0);
    assert TimerLoop(p, vTimer, 0) == (vTimer + Span(p, n), 0 - n);
  }

  // How many of the whole frames that the timestamps are behind are made up for: all but one, and the only one if a
  // skip is asked for.
  function PtsDue(behind: int, skip: int): int {
    if behind >= 2 then behind - 1 else if behind == 1 && skip > 0 then 1 else 0
  }

  lemma {:induction false} PtsLoopIs(p: Params, vPts: real, skip: int)
    requires p.Ok() && skip <= 1
    ensures var n := PtsDue(if vPts <= -p.mux then Frames(-vPts, p.mux) else 0, skip);
            PtsLoop(p, vPts, skip) == (vPts + Span(p, n), skip - n)
    decreases if vPts <= -p.mux then Frames(-vPts, p.mux) else 0
  {
    Units(p, 0, 0);
    hide Span;
    if vPts <= -p.mux {
      OneFrameLess(-vPts, p.mux);
      assert -vPts - p.mux == -(vPts + p.mux);
      TwoFrames(-vPts, p.mux);
      if skip > 0 || vPts <= -2.0 * p.mux {
        PtsLoopIs(p, vPts + p.mux, skip - 1);
        FewFrames(-(vPts + p.mux), p.mux);
        Units(p, PtsDue(Frames(-vPts, p.mux), skip) - 1, 1);
      }
    }
  }

  lemma TwoFrames(x: real, mux: real)
    requires mux > 0.0
    ensures x >= 2.0 * mux <==> Frames(x, mux) >= 2
  {
    assert x >= 2.0 * mux <==> x / mux >= 2.0 by {
      assert x / mux * mux == x;
    }
  }

  // The timestamps, after the timer has asked for skip: two whole frames behind or more, they ask for duplicates down
  // to one frame; one frame behind, they take back a skip.
  lemma PtsBehind(p: Params, vTimer: real, vPts: real, behind: int, n: int)
    requires p.Ok() && vPts <= -p.mux && behind == (-vPts / p.mux).Floor
    requires n == if behind >= 2 then behind - 1 else if TimerDecision(p, vTimer).1 > 0 then 1 else 0
    ensures var (vt, skip) := TimerDecision(p, vTimer);
            Decide(p, vTimer, vPts) == (vt, vPts + p.mux * n as real, skip - n)
    ensures behind >= 1
  {
    OneFrameLess(-vPts, p.mux);
    SkipsAtMostOne(p, vTimer);
    hide TimerDecision, PtsLoop;
    var skip := TimerDecision(p, vTimer).1;
    PtsLoopIs(p, vPts, skip);
    BelowFrame(vPts, p.mux, behind, n);
    assert n == PtsDue(Frames(-vPts, p.mux), skip);
    assert Span(p, n) == p.mux * n as real;
    hide PtsDue, Span;
  }

  lemma SkipsAtMostOne(p: Params, vTimer: real)
    requires p.Ok()
    ensures TimerDecision(p, vTimer).1 <= 1
  {
    if vTimer > -p.mux {
      TimerAhead(p, vTimer);
    } else {
      var due := (-vTimer / p.mux).Floor;
      TimerBehind(p, vTimer, due, if p.skipLimit < 0 || due <= p.skipLimit then due else p.skipLimit);
    }
  }

  // Two frames ahead, or one frame when there are duplicates to take back, they ask for a skip, but never for a second
  // one; whatever the limit.
  lemma PtsAhead(p: Params, vTimer: real, vPts: real)
    requires p.Ok() && vPts > -p.mux
    ensures var (vt, skip) := TimerDecision(p, vTimer);
            Decide(p, vTimer, vPts)
            == if skip <= 0 && (vPts >= 2.0 * p.mux || (vPts >= p.mux && skip < 0)) then (vt, vPts - p.mux, skip + 1)
               else (vt, vPts, skip)
  {
    hide TimerDecision;
  }

  // A limit of one duplicate holds back the others: five seconds of input in one-second frames.
  lemma LimitHolds(p: Params, f: Frame)
    requires p == Params(1.0, 1, 1.0, -1.0, Copy, None) && f.time == 5.0
    ensures Output(p, START, f).dups == 1 && Output(p, START, f).vTimer == -3.0 && Output(p, START, f).out == 2.0
  {
    assert -(-4.0 as real) / p.mux == 4.0;
    TimerBehind(p, -4.0, 4, 1);
    PtsAhead(p, -4.0, 0.0);
    hide Decide, TimerDecision;
    Units(p, 1, 1);
    assert HeldOf(p, f, 0, 1) == 0 && HeldOf(p, f, 1, 1) == 0;
  }

  // Making up for no more than the whole frames behind does not run ahead.
  lemma BelowFrame(x: real, mux: real, behind: int, n: int)
    requires mux > 0.0 && x <= -mux && behind == Frames(-x, mux) && 0 <= n <= behind
    ensures x + mux * n as real <= 0.0
  {
    assert n as real <= -x / mux;
    assert mux * n as real <= mux * (-x / mux) == -x;
  }

  // ----- One round of the loop

  function Clamp(x: real, m: real): real {
    if x < -m then -m else if x > m then m else x
  }

  // Audio chunks are written until their clock passes the video clock by the preload.
  function Feed(sd: Sound, aOut: real, fed: nat, out: real): (r: (real, nat))
    decreases |sd.chunks| - fed
  {
    if fed < |sd.chunks| && aOut - sd.preload < out then Feed(sd, aOut + sd.chunks[fed].length, fed + 1, out)
    else (aOut, fed)
  }

  function FeedAudio(p: Params, s: State): State {
    match p.sound
    case None => s
    case Some(sd) => var (aOut, fed) := Feed(sd, s.aOut, s.fed, s.out); s.(aOut := aOut, fed := fed)
  }

  // a_pts after k chunks.
  function AudioPts(sd: Sound, k: nat): real {
    if 0 < k <= |sd.chunks| then sd.chunks[k - 1].pts else sd.pts
  }

  // AV_delay, from the two input timestamps, the two output clocks and what the encoders hold back.
  function AvDelay(p: Params, sd: Sound, s: State, f: Frame): real
    requires p.Ok()
  {
    (AudioPts(sd, s.fed) - f.pts - sd.delay) / p.speed - (s.aOut - (s.out - (s.vTimer + s.vPts)))
    - sd.lag + s.held as real * p.mux
  }

  function Correct(p: Params, s: State, f: Frame): State
    requires p.Ok()
  {
    match p.sound
    case None => s
    case Some(sd) =>
      var x := Clamp(AvDelay(p, sd, s, f) * 0.1, s.maxCorr);
      s.(cTotal := s.cTotal + x, vPts := s.vPts + x,
         maxCorr := if p.defaultMax >= 0.0 then p.defaultMax * p.speed else f.frameTime * 0.1 * p.speed)
  }

  // Does the encoder hold the frame (i == 0) or its i-th duplicate?  Only an encoder does.
  predicate Holds(p: Params, f: Frame, i: nat) {
    p.codec.Encode? && i < |f.holds| && f.holds[i]
  }

  // How many of n of them, from number i on, it holds.
  function HeldOf(p: Params, f: Frame, i: nat, n: nat): (r: nat)
    ensures r <= n
  {
    if n == 0 then 0 else HeldOf(p, f, i, n - 1) + if Holds(p, f, i + n - 1) then 1 else 0
  }

  // The frame was not to be skipped, but the filters or the encoder did not emit it.
  predicate Lost(p: Params, f: Frame, skip: int) {
    skip <= 0 && p.codec.Encode? && !f.emitted
  }

  // The video frame, up to the A/V correction.  What is passed on and not held is written.
  function Output(p: Params, s: State, f: Frame): State
    requires p.Ok()
  {
    var (vt, vp, skip) := Decide(p, s.vTimer - (f.time / p.speed - p.mux), s.vPts);
    var lost := Lost(p, f, skip);
    var own, dups := if skip <= 0 && !lost then 1 else 0, if skip < 0 then -skip else 0;
    var held := HeldOf(p, f, 0, own) + HeldOf(p, f, 1, dups);
    s.(vTimer := if lost then vt - p.mux else vt, vPts := vp,
       out := s.out + Span(p, own + dups - held), held := s.held + held,
       dups := s.dups + dups,
       skips := s.skips + if skip > 0 then 1 else 0,
       lost := s.lost + if lost then 1 else 0,
       frames := s.frames + 1)
  }

  function Step(p: Params, s: State, f: Frame): State
    requires p.Ok()
  {
    Correct(p, Output(p, FeedAudio(p, s), f), f)
  }

  function Run(p: Params, s: State, fs: seq<Frame>): State
    requires p.Ok()
  {
    if fs == [] then s else Step(p, Run(p, s, fs[..|fs| - 1]), fs[|fs| - 1])
  }

  // ----- Conservation

  // Every loop trades whole output frames between a correction and the skip flag.
  lemma {:induction false} TimerLoopTrades(p: Params, vTimer: real, skip: int)
    requires p.Ok()
    ensures var (vt, sk) := TimerLoop(p, vTimer, skip);
            sk <= skip && vt - vTimer == Span(p, skip - sk)
    decreases if vTimer <= -p.mux then Frames(-vTimer, p.mux) else 0
  {
    if MayDup(p, vTimer, skip) {
      OneFrameLess(-vTimer, p.mux);
      assert -vTimer - p.mux == -(vTimer + p.mux);
      TimerLoopTrades(p, vTimer + p.mux, skip - 1);
      var (vt, sk) := TimerLoop(p, vTimer + p.mux, skip - 1);
      Units(p, skip - 1 - sk, 1);
    }
  }

  lemma {:induction false} PtsLoopTrades(p: Params, vPts: real, skip: int)
    requires p.Ok()
    ensures var (vp, sk) := PtsLoop(p, vPts, skip);
            sk <= skip && vp - vPts == Span(p, skip - sk) && !PtsDup(p, vp, sk)
    decreases if vPts <= -p.mux then Frames(-vPts, p.mux) else 0
  {
    if PtsDup(p, vPts, skip) {
      OneFrameLess(-vPts, p.mux);
      assert -vPts - p.mux == -(vPts + p.mux);
      PtsLoopTrades(p, vPts + p.mux, skip - 1);
      var (vp, sk) := PtsLoop(p, vPts + p.mux, skip - 1);
      Units(p, skip - 1 - sk, 1);
    }
  }

  // The flag never asks for more than one skip, and each unit of it is one output frame of correction.
  lemma DecideTrades(p: Params, vTimer: real, vPts: real)
    requires p.Ok()
    ensures var (vt, vp, skip) := Decide(p, vTimer, vPts);
            skip <= 1 && (vt + vp) - (vTimer + vPts) == -Span(p, skip)
  {
    var first := vTimer >= p.mux && (p.skipLimit < 0 || 0 < p.skipLimit);
    var (v0, s0) := if first then (vTimer - p.mux, 1) else (vTimer, 0);
    TimerLoopTrades(p, v0, s0);
    var (vt, s1) := TimerLoop(p, v0, s0);
    PtsLoopTrades(p, vPts, s1);
    var (vp, s2) := PtsLoop(p, vPts, s1);
    Units(p, s0 - s1, s1 - s2);
    Units(p, s0 - s2, s2);
    Units(p, s2, 1);
    hide Span;
  }

  // The length of the frames handed on, those in the output and those that the encoder holds.
  function Handed(p: Params, s: State): real {
    s.out + Span(p, s.held)
  }

  function Kept(p: Params, s: State): real {
    Handed(p, s) - (s.vTimer + s.vPts)
  }

  // What the controller passes on after decision skip: the frame itself, unless it is lost or skipped, and duplicates.
  function Passed(p: Params, f: Frame, skip: int): nat {
    (if skip <= 0 && !Lost(p, f, skip) then 1 else 0) + if skip < 0 then -skip else 0
  }

  // What is held is missing from the output, and nothing else: what is handed on does not depend on the answers of the
  // encoder.
  lemma OutputHands(p: Params, s: State, f: Frame)
    requires p.Ok()
    ensures var (vt, vp, skip) := Decide(p, s.vTimer - (f.time / p.speed - p.mux), s.vPts);
            var s' := Output(p, s, f);
            && Handed(p, s') == Handed(p, s) + Span(p, Passed(p, f, skip))
            && s'.vTimer == (if Lost(p, f, skip) then vt - p.mux else vt) && s'.vPts == vp
            && s'.dups == s.dups + (if skip < 0 then -skip else 0) && s'.skips == s.skips + (if skip > 0 then 1 else 0)
            && s'.lost == s.lost + (if Lost(p, f, skip) then 1 else 0) && s'.frames == s.frames + 1
            && s'.cTotal == s.cTotal && s'.maxCorr == s.maxCorr
  {
    hide Decide, HeldOf, Span;
    var (vt, vp, skip) := Decide(p, s.vTimer - (f.time / p.speed - p.mux), s.vPts);
    var own, dups := if skip <= 0 && !Lost(p, f, skip) then 1 else 0, if skip < 0 then -skip else 0;
    var held := HeldOf(p, f, 0, own) + HeldOf(p, f, 1, dups);
    Units(p, own + dups - held, held);
    Units(p, s.held, held);
  }

  lemma OutputKeeps(p: Params, s: State, f: Frame)
    requires p.Ok()
    ensures Kept(p, Output(p, s, f)) == Kept(p, s) + f.time / p.speed
    ensures Output(p, s, f).cTotal == s.cTotal && Output(p, s, f).maxCorr == s.maxCorr
  {
    hide Output, Decide, Handed, Passed, Span;
    OutputHands(p, s, f);
    var v0 := s.vTimer - (f.time / p.speed - p.mux);
    DecideTrades(p, v0, s.vPts);
    var (vt, vp, skip) := Decide(p, v0, s.vPts);
    PassedUnits(p, f, skip);
  }

  lemma PassedUnits(p: Params, f: Frame, skip: int)
    requires skip <= 1
    ensures Span(p, Passed(p, f, skip)) == (if Lost(p, f, skip) then 0.0 else p.mux) - Span(p, skip)
  {
    hide Span;
    Units(p, Passed(p, f, skip), skip);
    assert Passed(p, f, skip) + skip == if Lost(p, f, skip) then 0 else 1;
  }

  // Output time, with what the encoder holds, less the corrections grows by the input time less what was put into
  // c_total.
  lemma StepConserves(p: Params, s: State, f: Frame)
    requires p.Ok()
    ensures Kept(p, Step(p, s, f)) + Step(p, s, f).cTotal == Kept(p, s) + s.cTotal + f.time / p.speed
  {
    hide Output, Feed, AvDelay;
    OutputKeeps(p, FeedAudio(p, s), f);
  }

  function Total(p: Params, fs: seq<Frame>): real
    requires p.Ok()
  {
    if fs == [] then 0.0 else Total(p, fs[..|fs| - 1]) + fs[|fs| - 1].time / p.speed
  }

  // The conservation law of whole runs.
  lemma {:induction false} RunConserves(p: Params, s: State, fs: seq<Frame>)
    requires p.Ok()
    ensures Kept(p, Run(p, s, fs)) + Run(p, s, fs).cTotal == Kept(p, s) + s.cTotal + Total(p, fs)
  {
    hide Step;
    if fs != [] {
      var before := fs[..|fs| - 1];
      RunConserves(p, s, before);
      StepConserves(p, Run(p, s, before), fs[|fs| - 1]);
    }
  }

  // ----- What a round does

  // What of frame and duplicates is handed on, written, lost and counted, by the flag of the decision.
  lemma OutputMeans(p: Params, s: State, f: Frame)
    requires p.Ok()
    ensures var (vt, vp, skip) := Decide(p, s.vTimer - (f.time / p.speed - p.mux), s.vPts);
            var passes := p.codec != Encode || f.emitted;
            var s' := Output(p, s, f);
            && s'.vPts == vp && s'.frames == s.frames + 1
            && if skip > 0 then
                 s'.vTimer == vt && Handed(p, s') == Handed(p, s)
                 && (s'.skips, s'.dups, s'.lost) == (s.skips + 1, s.dups, s.lost)
               else if passes then
                 s'.vTimer == vt && Handed(p, s') == Handed(p, s) + p.mux * (1 - skip) as real
                 && (s'.skips, s'.dups, s'.lost) == (s.skips, s.dups - skip, s.lost)
               else
                 s'.vTimer == vt - p.mux && Handed(p, s') == Handed(p, s) + p.mux * (-skip) as real
                 && (s'.skips, s'.dups, s'.lost) == (s.skips, s.dups - skip, s.lost + 1)
  {
    OutputHands(p, s, f);
    var skip := Decide(p, s.vTimer - (f.time / p.speed - p.mux), s.vPts).2;
    hide Output, Decide, Handed;
    assert Passed(p, f, skip) == if skip > 0 then 0 else if Lost(p, f, skip) then -skip else 1 - skip;
    hide Passed;
    assert skip > 0 ==> Span(p, 0) == 0.0;
  }

  // An encoder that holds all n of them writes none, one that holds none writes all, and without one all are written.
  lemma {:induction false} HeldMeans(p: Params, f: Frame, i: nat, n: nat)
    requires i + n <= |f.holds|
    ensures p.codec == Encode && (forall j :: i <= j < i + n ==> f.holds[j]) ==> HeldOf(p, f, i, n) == n
    ensures p.codec != Encode || (forall j :: i <= j < i + n ==> !f.holds[j]) ==> HeldOf(p, f, i, n) == 0
    decreases n
  {
    if n > 0 {
      HeldMeans(p, f, i, n - 1);
      var last := f.holds[i + n - 1];
      assert Holds(p, f, i + n - 1) == (p.codec == Encode && last);
    }
  }

  // The nearest number that is no further from 0 than m.
  lemma ClampMeans(x: real, m: real, y: real)
    requires m >= 0.0 && -m <= y <= m
    ensures var r := Clamp(x, m);
            && -m <= r <= m && (if r >= x then r - x else x - r) <= (if y >= x then y - x else x - y)
  {
  }

  // Audio that is ahead, a video clock that is ahead and frames that are held put the difference up; video that is
  // ahead, the delay asked for, the audio clock, corrections to come and what the audio encoder holds put it down.
  lemma AvDelayMeans(p: Params, sd: Sound, s: State, f: Frame, x: real, h: nat)
    requires p.Ok()
    ensures var av := AvDelay(p, sd, s, f);
            && AvDelay(p, sd.(pts := sd.pts + x), s.(fed := 0), f) == AvDelay(p, sd, s.(fed := 0), f) + x / p.speed
            && AvDelay(p, sd, s, f.(pts := f.pts + x)) == av - x / p.speed
            && AvDelay(p, sd.(delay := sd.delay + x), s, f) == av - x / p.speed
            && AvDelay(p, sd, s.(aOut := s.aOut + x), f) == av - x
            && AvDelay(p, sd, s.(out := s.out + x), f) == av + x
            && AvDelay(p, sd, s.(vTimer := s.vTimer + x), f) == av - x
            && AvDelay(p, sd, s.(vPts := s.vPts + x), f) == av - x
            && AvDelay(p, sd.(lag := sd.lag + x), s, f) == av - x
            && AvDelay(p, sd, s.(held := s.held + h), f) == av + p.mux * h as real
  {
    InputMoves(p, sd, s, f, x);
    OutputMoves(p, sd, s, f, x);
    assert AvDelay(p, sd, s.(held := s.held + h), f) == AvDelay(p, sd, s, f) + p.mux * h as real by {
      Units(p, s.held, h);
      assert Span(p, s.held + h) == (s.held + h) as real * p.mux && Span(p, s.held) == s.held as real * p.mux;
    }
    hide AvDelay;
  }

  lemma OutputMoves(p: Params, sd: Sound, s: State, f: Frame, x: real)
    requires p.Ok()
    ensures var av := AvDelay(p, sd, s, f);
            && AvDelay(p, sd, s.(aOut := s.aOut + x), f) == av - x
            && AvDelay(p, sd, s.(out := s.out + x), f) == av + x
            && AvDelay(p, sd, s.(vTimer := s.vTimer + x), f) == av - x
            && AvDelay(p, sd, s.(vPts := s.vPts + x), f) == av - x
            && AvDelay(p, sd.(lag := sd.lag + x), s, f) == av - x
  {
    var q, held := (AudioPts(sd, s.fed) - f.pts - sd.delay) / p.speed, s.held as real * p.mux;
    assert AvDelay(p, sd, s, f) == q - (s.aOut - (s.out - (s.vTimer + s.vPts))) - sd.lag + held;
    hide AudioPts;
  }

  lemma InputMoves(p: Params, sd: Sound, s: State, f: Frame, x: real)
    requires p.Ok()
    ensures var av := AvDelay(p, sd, s, f);
            && AvDelay(p, sd.(pts := sd.pts + x), s.(fed := 0), f) == AvDelay(p, sd, s.(fed := 0), f) + x / p.speed
            && AvDelay(p, sd, s, f.(pts := f.pts + x)) == av - x / p.speed
            && AvDelay(p, sd.(delay := sd.delay + x), s, f) == av - x / p.speed
  {
    var a := AudioPts(sd, s.fed) - f.pts - sd.delay;
    Quotients(a, x, p.speed);
    Quotients(sd.pts - f.pts - sd.delay, x, p.speed);
    assert AudioPts(sd, s.fed) - (f.pts + x) - sd.delay == a - x;
    assert AudioPts(sd, s.fed) - f.pts - (sd.delay + x) == a - x;
    assert sd.pts + x - f.pts - sd.delay == (sd.pts - f.pts - sd.delay) + x;
  }

  // With everything in its place the difference is 0: audio and video at the same time, the clocks level and no delays.
  lemma AvDelayZero(p: Params, sd: Sound, s: State, f: Frame)
    requires p.Ok() && AudioPts(sd, s.fed) == f.pts && sd.delay == 0.0 == sd.lag && s.held == 0
    requires s.aOut == s.out && s.vTimer == 0.0 == s.vPts
    ensures AvDelay(p, sd, s, f) == 0.0
  {
  }

  // ----- The audio clock

  // The length of the first k chunks.
  function ClockAt(sd: Sound, k: nat): real
    requires k <= |sd.chunks|
  {
    if k == 0 then 0.0 else ClockAt(sd, k - 1) + sd.chunks[k - 1].length
  }

  // The audio clock is the length of the chunks written.
  ghost predicate Fed(p: Params, s: State) {
    match p.sound
    case None => true
    case Some(sd) => s.fed <= |sd.chunks| && s.aOut == ClockAt(sd, s.fed)
  }

  // The audio loop ends with the clock at the preload or with all chunks written, and it writes no chunk more: without
  // the last one the clock would be short of it.
  lemma {:induction false} FeedStops(sd: Sound, aOut: real, fed: nat, out: real)
    requires fed <= |sd.chunks| && aOut == ClockAt(sd, fed)
    ensures var (a, k) := Feed(sd, aOut, fed, out);
            && fed <= k <= |sd.chunks| && a == ClockAt(sd, k)
            && (k == |sd.chunks| || a >= out + sd.preload)
            && (k > fed ==> a - sd.chunks[k - 1].length < out + sd.preload)
    decreases |sd.chunks| - fed
  {
    if fed < |sd.chunks| && aOut - sd.preload < out {
      FeedStops(sd, aOut + sd.chunks[fed].length, fed + 1, out);
    }
  }

  lemma OutputRises(p: Params, s: State, f: Frame)
    requires p.Ok()
    ensures var s' := Output(p, s, f); s'.out >= s.out && s'.aOut == s.aOut && s'.fed == s.fed
  {
  }

  lemma {:induction false} RunFed(p: Params, fs: seq<Frame>)
    requires p.Ok()
    ensures Fed(p, Run(p, START, fs))
    decreases |fs|
  {
    hide Output, Feed, AvDelay;
    if fs != [] {
      var n := |fs| - 1;
      RunFed(p, fs[..n]);
      StepFed(p, Run(p, START, fs[..n]), fs[n]);
    }
  }

  lemma StepFed(p: Params, s: State, f: Frame)
    requires p.Ok() && Fed(p, s)
    ensures Fed(p, FeedAudio(p, s)) && Fed(p, Step(p, s, f)) && Step(p, s, f).fed == FeedAudio(p, s).fed
  {
    hide Output, Feed, AvDelay;
    OutputRises(p, FeedAudio(p, s), f);
    if p.sound.Some? {
      FeedStops(p.sound.value, s.aOut, s.fed, s.out);
    }
  }

  // Over every run the audio stays ahead of the video by the preload, until it ends, and by less than one chunk more.
  lemma {:induction false} AudioAhead(p: Params, sd: Sound, longest: real, fs: seq<Frame>)
    requires p.Ok() && p.sound == Some(sd) && sd.preload >= 0.0 && longest > 0.0
    requires forall k :: 0 <= k < |sd.chunks| ==> sd.chunks[k].length <= longest
    ensures var s := Run(p, START, fs);
            && s.aOut < s.out + sd.preload + longest
            && var a := FeedAudio(p, s);
               && a.aOut < a.out + sd.preload + longest
               && (a.fed < |sd.chunks| ==> a.aOut >= a.out + sd.preload)
    decreases |fs|
  {
    hide Output, Feed, AvDelay;
    var s := Run(p, START, fs);
    if fs != [] {
      var n := |fs| - 1;
      AudioAhead(p, sd, longest, fs[..n]);
      OutputRises(p, FeedAudio(p, Run(p, START, fs[..n])), fs[n]);
    }
    RunFed(p, fs);
    FeedStops(sd, s.aOut, s.fed, s.out);
  }

  // ----- What the A/V correction depends on

  // How far the audio timestamps run before the audio clock.
  function Lead(sd: Sound, speed: real, k: nat): real
    requires speed > 0.0 && k <= |sd.chunks|
  {
    AudioPts(sd, k) / speed - ClockAt(sd, k)
  }

  // The audio timestamps advance with the audio clock.
  ghost predicate Steady(sd: Sound, speed: real)
    requires speed > 0.0
  {
    forall k :: 0 <= k <= |sd.chunks| ==> Lead(sd, speed, k) == Lead(sd, speed, 0)
  }

  // Everything in the A-V difference but the conserved quantity, after k chunks.  The encoder delay is not in it: a
  // frame that is held is added to the difference by its term and missing from the output clock.
  function Offset(p: Params, sd: Sound, k: nat, f: Frame): real
    requires p.Ok() && k <= |sd.chunks|
  {
    Lead(sd, p.speed, k) - (f.pts + sd.delay) / p.speed - sd.lag
  }

  lemma Quotients(x: real, y: real, z: real)
    requires z != 0.0
    ensures (x + y) / z == x / z + y / z && (x - y) / z == x / z - y / z
  {
  }

  lemma DelayIsOffset(p: Params, sd: Sound, s: State, f: Frame)
    requires p.Ok() && p.sound == Some(sd) && Fed(p, s)
    ensures AvDelay(p, sd, s, f) == Offset(p, sd, s.fed, f) + Kept(p, s)
  {
    Quotients(AudioPts(sd, s.fed), f.pts + sd.delay, p.speed);
    assert AudioPts(sd, s.fed) - f.pts - sd.delay == AudioPts(sd, s.fed) - (f.pts + sd.delay);
  }

  // Holding h frames instead of writing them changes nothing: the output clock and the encoder delay cancel.
  lemma HoldingCancels(p: Params, sd: Sound, s: State, f: Frame, h: nat)
    requires p.Ok()
    ensures AvDelay(p, sd, s.(out := s.out - Span(p, h), held := s.held + h), f) == AvDelay(p, sd, s, f)
  {
    Units(p, s.held, h);
    assert Span(p, s.held + h) == (s.held + h) as real * p.mux && Span(p, s.held) == s.held as real * p.mux;
  }

  // The correction of a round, in terms of the conserved quantity before it: the controller's decisions reach it only
  // through that quantity and the number of audio chunks written.
  lemma CorrectionOfStep(p: Params, s: State, f: Frame)
    requires p.Ok() && Fed(p, s)
    ensures var s' := Step(p, s, f);
            match p.sound
            case None => s'.cTotal == s.cTotal && s'.maxCorr == s.maxCorr
            case Some(sd) =>
              && s'.fed <= |sd.chunks|
              && s'.cTotal - s.cTotal
                 == Clamp((Offset(p, sd, s'.fed, f) + Kept(p, s) + f.time / p.speed) * 0.1, s.maxCorr)
              && s'.maxCorr == if p.defaultMax >= 0.0 then p.defaultMax * p.speed else f.frameTime * 0.1 * p.speed
  {
    hide Output, Feed, AvDelay, Offset;
    var s1 := FeedAudio(p, s);
    StepFed(p, s, f);
    OutputKeeps(p, s1, f);
    OutputRises(p, s1, f);
    if p.sound.Some? {
      DelayIsOffset(p, p.sound.value, Output(p, s1, f), f);
    }
  }

  // The same input.
  predicate SameInput(p: Params, q: Params, fs: seq<Frame>, gs: seq<Frame>) {
    && p.speed == q.speed && p.defaultMax == q.defaultMax && p.sound == q.sound
    && |fs| == |gs|
    && forall i :: 0 <= i < |fs| ==>
         fs[i].time == gs[i].time && fs[i].pts == gs[i].pts && fs[i].frameTime == gs[i].frameTime
  }

  // When the audio timestamps advance with the audio clock, the same input gets the same corrections whatever the
  // skip limit, the output frame rate, the codec, the frames that get lost and the frames that the encoder holds,
  // though the audio loop then writes different numbers of chunks.
  lemma {:induction false} CorrectionIndependent(p: Params, q: Params, fs: seq<Frame>, gs: seq<Frame>)
    requires p.Ok() && q.Ok() && SameInput(p, q, fs, gs)
    requires p.sound.Some? ==> Steady(p.sound.value, p.speed)
    ensures var s, t := Run(p, START, fs), Run(q, START, gs);
            s.cTotal == t.cTotal && s.maxCorr == t.maxCorr
    decreases |fs|
  {
    hide Step, Offset, Kept, Steady;
    if fs != [] {
      var n := |fs| - 1;
      assert SameInput(p, q, fs[..n], gs[..n]);
      CorrectionIndependent(p, q, fs[..n], gs[..n]);
      SameKept(p, q, fs[..n], gs[..n]);
      var s, t := Run(p, START, fs[..n]), Run(q, START, gs[..n]);
      RunFed(p, fs[..n]);
      RunFed(q, gs[..n]);
      CorrectionOfStep(p, s, fs[n]);
      CorrectionOfStep(q, t, gs[n]);
      if p.sound.Some? {
        SameOffset(p, q, p.sound.value, Step(p, s, fs[n]).fed, Step(q, t, gs[n]).fed, fs[n], gs[n]);
      }
    }
  }

  lemma SameOffset(p: Params, q: Params, sd: Sound, k: nat, l: nat, f: Frame, g: Frame)
    requires p.Ok() && q.Ok() && p.speed == q.speed && Steady(sd, p.speed) && k <= |sd.chunks| && l <= |sd.chunks|
    requires f.pts == g.pts
    ensures Offset(p, sd, k, f) == Offset(q, sd, l, g)
  {
    assert Lead(sd, p.speed, k) == Lead(sd, p.speed, 0) == Lead(sd, q.speed, l);
  }

  lemma SameKept(p: Params, q: Params, fs: seq<Frame>, gs: seq<Frame>)
    requires p.Ok() && q.Ok() && SameInput(p, q, fs, gs)
    requires Run(p, START, fs).cTotal == Run(q, START, gs).cTotal
    ensures Kept(p, Run(p, START, fs)) == Kept(q, Run(q, START, gs))
  {
    RunConserves(p, START, fs);
    RunConserves(q, START, gs);
    SameTotal(p, q, fs, gs);
  }

  lemma {:induction false} SameTotal(p: Params, q: Params, fs: seq<Frame>, gs: seq<Frame>)
    requires p.Ok() && q.Ok() && SameInput(p, q, fs, gs)
    ensures Total(p, fs) == Total(q, gs)
    decreases |fs|
  {
    if fs != [] {
      var n := |fs| - 1;
      assert SameInput(p, q, fs[..n], gs[..n]);
      SameTotal(p, q, fs[..n], gs[..n]);
    }
  }

  // The steadiness is needed.  Of a sound whose timestamps jump ahead by 9 seconds after a chunk, that chunk is written
  // before the second frame if the first one was written, and not if it was lost or held; the corrections differ.
  lemma UnsteadyDepends(p: Params, sd: Sound, f: Frame, g: Frame)
    requires sd == Sound([Chunk(1.0, 10.0)], 0.0, 0.0, 0.0, 0.0)
    requires p == Params(1.0, 0, 1.0, 1000.0, Encode, Some(sd))
    requires f == Frame(1.0, true, [], 0.0, 1.0) && (g == f.(emitted := false) || g == f.(holds := [true]))
    ensures SameInput(p, p, [f, f], [g, f])
    ensures Run(p, START, [f, f]).cTotal != Run(p, START, [g, f]).cTotal
  {
    hide Run;
    JumpRun(p, sd, f, f);
    JumpRun(p, sd, g, f);
  }

  lemma RunMore(p: Params, s: State, fs: seq<Frame>, f: Frame)
    requires p.Ok()
    ensures Run(p, s, fs + [f]) == Step(p, Run(p, s, fs), f)
  {
    hide Step;
    assert (fs + [f])[..|fs|] == fs;
  }

  lemma RunTwo(p: Params, s: State, f: Frame, g: Frame)
    requires p.Ok()
    ensures Run(p, s, [f, g]) == Step(p, Step(p, s, f), g)
  {
    hide Step;
    RunMore(p, s, [], f);
    RunMore(p, s, [f], g);
    assert [] + [f] == [f] && [f] + [g] == [f, g];
  }

  lemma JumpRun(p: Params, sd: Sound, f: Frame, g: Frame)
    requires sd == Sound([Chunk(1.0, 10.0)], 0.0, 0.0, 0.0, 0.0)
    requires p == Params(1.0, 0, 1.0, 1000.0, Encode, Some(sd))
    requires f == Frame(1.0, f.emitted, f.holds, 0.0, 1.0) && g == Frame(1.0, true, [], 0.0, 1.0)
    ensures Run(p, START, [f, g]).cTotal == if f.emitted && !Holds(p, f, 0) then 1.1 else 0.2
  {
    hide Run, Step, Feed, Offset;
    RunTwo(p, START, f, g);
    var s1 := Step(p, START, f);
    JumpStart(p, sd, f);
    FeedStops(sd, s1.aOut, s1.fed, s1.out);
    StepFed(p, s1, g);
    CorrectionOfStep(p, s1, g);
    JumpOffset(p, sd, g);
  }

  lemma JumpStart(p: Params, sd: Sound, f: Frame)
    requires sd == Sound([Chunk(1.0, 10.0)], 0.0, 0.0, 0.0, 0.0)
    requires p == Params(1.0, 0, 1.0, 1000.0, Encode, Some(sd))
    requires f == Frame(1.0, f.emitted, f.holds, 0.0, 1.0)
    ensures var s := Step(p, START, f);
            && s.fed == 0 && s.aOut == 0.0 && s.out == (if f.emitted && !Holds(p, f, 0) then 1.0 else 0.0)
            && s.cTotal == 0.0 && s.maxCorr == 1000.0 && Kept(p, s) == 1.0
  {
    hide Step, Feed, Offset;
    JumpOutput(p, f);
    StepFed(p, START, f);
    CorrectionOfStep(p, START, f);
    StepConserves(p, START, f);
  }

  lemma JumpOutput(p: Params, f: Frame)
    requires p.Ok() && p.mux == 1.0 && p.skipLimit == 0 && p.speed == 1.0 && p.codec == Encode && f.time == 1.0
    requires p.sound.Some? ==> p.sound.value.preload == 0.0
    ensures Step(p, START, f).out == (if f.emitted && !Holds(p, f, 0) then 1.0 else 0.0)
    ensures FeedAudio(p, START) == START
  {
    hide AvDelay, Decide;
    NeutralFrame(p, 0.0);
    assert HeldOf(p, f, 0, 1) == if Holds(p, f, 0) then 1 else 0;
  }

  lemma JumpOffset(p: Params, sd: Sound, f: Frame)
    requires sd == Sound([Chunk(1.0, 10.0)], 0.0, 0.0, 0.0, 0.0) && p.Ok() && p.speed == 1.0 && f.pts == 0.0
    ensures Offset(p, sd, 0, f) == 0.0 && Offset(p, sd, 1, f) == 9.0
  {
    assert ClockAt(sd, 1) == ClockAt(sd, 0) + 1.0;
  }

  // ----- The A-V difference settles

  // What is left of the A-V difference after a round that ends in s.
  function Left(p: Params, sd: Sound, s: State, f: Frame): real
    requires p.Ok() && s.fed <= |sd.chunks|
  {
    Offset(p, sd, s.fed, f) + Kept(p, s)
  }

  // Input in step: the audio timestamps advance with the audio clock, and those of the video with the frames.
  ghost predicate InStep(p: Params, sd: Sound, fs: seq<Frame>)
    requires p.Ok()
  {
    && Steady(sd, p.speed)
    && (forall i :: 0 <= i < |fs| ==> fs[i].frameTime >= 0.0)
    && (forall i :: 0 < i < |fs| ==> fs[i].pts == fs[i - 1].pts + fs[i].time)
  }

  lemma OffsetMoves(p: Params, sd: Sound, k: nat, l: nat, f: Frame, g: Frame)
    requires p.Ok() && Steady(sd, p.speed) && k <= |sd.chunks| && l <= |sd.chunks|
    requires g.pts == f.pts + g.time
    ensures Offset(p, sd, l, g) + g.time / p.speed == Offset(p, sd, k, f)
  {
    assert Lead(sd, p.speed, k) == Lead(sd, p.speed, 0) == Lead(sd, p.speed, l);
    Quotients(f.pts + sd.delay, g.time, p.speed);
    assert g.pts + sd.delay == f.pts + sd.delay + g.time;
  }

  // One more frame takes the clamped tenth off what was left, and puts it into c_total.
  lemma LeftStep(p: Params, sd: Sound, fs: seq<Frame>)
    requires p.Ok() && p.sound == Some(sd) && InStep(p, sd, fs) && |fs| >= 2
    ensures var n := |fs| - 1;
            var s, t := Run(p, START, fs[..n]), Run(p, START, fs);
            && s.fed <= |sd.chunks| && t.fed <= |sd.chunks|
            && var x := Clamp(Left(p, sd, s, fs[n - 1]) * 0.1, s.maxCorr);
               t.cTotal == s.cTotal + x && Left(p, sd, t, fs[n]) == Left(p, sd, s, fs[n - 1]) - x
  {
    hide Step, Offset;
    var n := |fs| - 1;
    var s := Run(p, START, fs[..n]);
    RunFed(p, fs[..n]);
    CorrectionOfStep(p, s, fs[n]);
    StepConserves(p, s, fs[n]);
    OffsetMoves(p, sd, s.fed, Step(p, s, fs[n]).fed, fs[n - 1], fs[n]);
  }

  lemma {:induction false} MaxCorrPositive(p: Params, fs: seq<Frame>)
    requires p.Ok() && forall i :: 0 <= i < |fs| ==> fs[i].frameTime >= 0.0
    ensures Run(p, START, fs).maxCorr >= 0.0
    decreases |fs|
  {
    hide Step, Offset;
    if fs != [] {
      var n := |fs| - 1;
      MaxCorrPositive(p, fs[..n]);
      RunFed(p, fs[..n]);
      CorrectionOfStep(p, Run(p, START, fs[..n]), fs[n]);
      Product(fs[n].frameTime * 0.1, p.speed);
      Product(if p.defaultMax >= 0.0 then p.defaultMax else 0.0, p.speed);
    }
  }

  lemma Product(x: real, y: real)
    requires x >= 0.0 && y >= 0.0
    ensures x * y >= 0.0
  {
  }

  // With input in step, over every run: what is left of the A-V difference and c_total have a constant sum, and what
  // is left keeps its sign and never grows.
  lemma {:induction false} AvSettles(p: Params, sd: Sound, fs: seq<Frame>, m: nat)
    requires p.Ok() && p.sound == Some(sd) && InStep(p, sd, fs) && 1 <= m <= |fs|
    ensures var s, t := Run(p, START, fs[..m]), Run(p, START, fs);
            && s.fed <= |sd.chunks| && t.fed <= |sd.chunks|
            && var l0, l1 := Left(p, sd, s, fs[m - 1]), Left(p, sd, t, fs[|fs| - 1]);
               && l1 + t.cTotal == l0 + s.cTotal
               && (l0 >= 0.0 ==> 0.0 <= l1 <= l0) && (l0 <= 0.0 ==> l0 <= l1 <= 0.0)
    decreases |fs|
  {
    hide Step, Offset, Left;
    RunFed(p, fs);
    if m == |fs| {
      assert fs[..m] == fs;
    } else {
      var n := |fs| - 1;
      AvSettles(p, sd, fs[..n], m);
      assert fs[..n][..m] == fs[..m];
      LeftStep(p, sd, fs);
      MaxCorrPositive(p, fs[..n]);
    }
  }

  function Power(x: real, n: nat): real {
    if n == 0 then 1.0 else x * Power(x, n - 1)
  }

  // From frame m on, the limit on a correction is no less than a tenth of l.
  ghost predicate Unlimited(p: Params, fs: seq<Frame>, m: nat, l: real)
    requires p.Ok()
  {
    forall i :: m <= i < |fs| ==> -Run(p, START, fs[..i]).maxCorr <= l * 0.1 <= Run(p, START, fs[..i]).maxCorr
  }

  lemma UnlimitedBefore(p: Params, fs: seq<Frame>, m: nat, l: real)
    requires p.Ok() && Unlimited(p, fs, m, l) && m < |fs|
    ensures var s := Run(p, START, fs[..|fs| - 1]);
            Unlimited(p, fs[..|fs| - 1], m, l) && -s.maxCorr <= l * 0.1 <= s.maxCorr
  {
    hide Run;
    var n := |fs| - 1;
    assert m <= n ==> -Run(p, START, fs[..n]).maxCorr <= l * 0.1;
    forall i | m <= i < n
      ensures -Run(p, START, fs[..n][..i]).maxCorr <= l * 0.1 <= Run(p, START, fs[..n][..i]).maxCorr
    {
      assert fs[..n][..i] == fs[..i];
    }
  }

  // Where the limit does not bite, a tenth of what is left goes with every frame.
  lemma {:induction false} AvDecays(p: Params, sd: Sound, fs: seq<Frame>, m: nat, l0: real)
    requires p.Ok() && p.sound == Some(sd) && InStep(p, sd, fs) && 1 <= m <= |fs| && Unlimited(p, fs, m, l0)
    requires Fed(p, Run(p, START, fs[..m])) && l0 == Left(p, sd, Run(p, START, fs[..m]), fs[m - 1])
    ensures Run(p, START, fs).fed <= |sd.chunks|
    ensures Left(p, sd, Run(p, START, fs), fs[|fs| - 1]) == Power(0.9, |fs| - m) * l0
    decreases |fs|
  {
    hide Step, Left, Run, Unlimited, Clamp, Power;
    RunFed(p, fs);
    if m == |fs| {
      assert fs[..m] == fs;
      PowerZero();
    } else {
      var n := |fs| - 1;
      assert fs[..n][..m] == fs[..m];
      UnlimitedBefore(p, fs, m, l0);
      AvDecays(p, sd, fs[..n], m, l0);
      AvSettles(p, sd, fs[..n], m);
      LeftStep(p, sd, fs);
      var s := Run(p, START, fs[..n]);
      Tenth(l0, Left(p, sd, s, fs[n - 1]), s.maxCorr, n - m);
    }
  }

  lemma PowerZero()
    ensures Power(0.9, 0) == 1.0
  {
  }

  lemma Tenth(l0: real, l: real, m: real, n: nat)
    requires -m <= l0 * 0.1 <= m && l == Power(0.9, n) * l0
    requires (l0 >= 0.0 ==> 0.0 <= l <= l0) && (l0 <= 0.0 ==> l0 <= l <= 0.0)
    ensures l - Clamp(l * 0.1, m) == Power(0.9, n + 1) * l0
  {
    assert Clamp(l * 0.1, m) == l * 0.1;
    assert 0.9 * Power(0.9, n) * l0 == 0.9 * (Power(0.9, n) * l0);
  }

  // ----- Drift

  lemma {:induction false} TimerLoopBound(p: Params, vTimer: real, skip: int)
    requires p.Ok() && p.skipLimit < 0
    ensures var (vt, sk) := TimerLoop(p, vTimer, skip);
            && vt > -p.mux
            && (vTimer > -p.mux ==> vt == vTimer && sk == skip)
            && (vTimer <= -p.mux ==> vt <= 0.0 && sk < skip)
    decreases if vTimer <= -p.mux then Frames(-vTimer, p.mux) else 0
  {
    if MayDup(p, vTimer, skip) {
      OneFrameLess(-vTimer, p.mux);
      assert -vTimer - p.mux == -(vTimer + p.mux);
      TimerLoopBound(p, vTimer + p.mux, skip - 1);
      TimerLoopTrades(p, vTimer + p.mux, skip - 1);
    }
  }

  // With no limit on skipping, the timer error is below one output frame right after its correction; it is
  // corrected downwards only when it was a whole frame ahead, and upwards no further than zero.
  lemma TimerBound(p: Params, vTimer: real)
    requires p.Ok() && p.skipLimit < 0 && vTimer < 2.0 * p.mux
    ensures var (vt, skip) := TimerDecision(p, vTimer);
            && -p.mux < vt < p.mux
            && (skip == 1 <==> vTimer >= p.mux)
            && (skip < 0 <==> vTimer <= -p.mux)
            && (skip < 0 ==> vt <= 0.0)
  {
    if vTimer >= p.mux {
      TimerLoopBound(p, vTimer - p.mux, 1);
    } else {
      TimerLoopBound(p, vTimer, 0);
    }
  }

  // The timestamp correction stays above minus two output frames after its loop, whatever the limit.
  lemma PtsBound(p: Params, vTimer: real, vPts: real)
    requires p.Ok()
    ensures Decide(p, vTimer, vPts).1 > -2.0 * p.mux
  {
    var (vt, s1) := TimerDecision(p, vTimer);
    PtsLoopTrades(p, vPts, s1);
  }

  // Over every run with no limit, a round that loses no frame ends with an error below one output frame; a lost
  // frame can leave it one frame lower.
  lemma {:induction false} RunDrift(p: Params, s: State, fs: seq<Frame>)
    requires p.Ok() && p.skipLimit < 0 && s.vTimer < p.mux
    requires forall i :: 0 <= i < |fs| ==> fs[i].time >= 0.0
    ensures var s' := Run(p, s, fs);
            && s'.vTimer < p.mux
            && (fs != [] ==> s'.vTimer > -2.0 * p.mux)
            && (fs != [] && (p.codec != Encode || fs[|fs| - 1].emitted) ==> s'.vTimer > -p.mux)
    decreases |fs|
  {
    if fs != [] {
      var n := |fs| - 1;
      RunDrift(p, s, fs[..n]);
      var s1 := Run(p, s, fs[..n]);
      assert fs[n].time / p.speed >= 0.0;
      TimerBound(p, s1.vTimer - (fs[n].time / p.speed - p.mux));
    }
  }

  const START: State := State(0.0, 0.0, 0.0, 0.0, 0, 0.0, 0, 0.0, 0, 0, 0, 0)

  lemma {:induction false} NoAudioNoPts(p: Params, fs: seq<Frame>)
    requires p.Ok() && p.sound.None?
    ensures Run(p, START, fs).vPts == 0.0 && Run(p, START, fs).cTotal == 0.0
    decreases |fs|
  {
    if fs != [] {
      NoAudioNoPts(p, fs[..|fs| - 1]);
    }
  }

  // Without audio the output, with what the encoder holds, is as long as the input, but for less than two output
  // frames, and for less than one when the last frame is not lost.
  lemma OutputTracksInput(p: Params, fs: seq<Frame>)
    requires p.Ok() && p.sound.None? && p.skipLimit < 0
    requires forall i :: 0 <= i < |fs| ==> fs[i].time >= 0.0
    ensures var drift := Handed(p, Run(p, START, fs)) - Total(p, fs);
            && -2.0 * p.mux < drift < p.mux
            && (fs != [] && (p.codec != Encode || fs[|fs| - 1].emitted) ==> -p.mux < drift)
  {
    NoAudioNoPts(p, fs);
    RunConserves(p, START, fs);
    RunDrift(p, START, fs);
  }

  // ----- Counting

  // The output clock counts the chunks: all frames but the skipped and the lost ones, and the duplicates, less what
  // the encoder holds.
  lemma {:induction false} RunCounts(p: Params, fs: seq<Frame>)
    requires p.Ok()
    ensures var s' := Run(p, START, fs);
            && s'.frames == |fs|
            && s'.out == Span(p, s'.frames - s'.skips - s'.lost + s'.dups - s'.held)
    decreases |fs|
  {
    hide Run;
    HandedCounts(p, fs);
    var s' := Run(p, START, fs);
    Units(p, s'.frames - s'.skips - s'.lost + s'.dups - s'.held, s'.held);
  }

  lemma {:induction false} HandedCounts(p: Params, fs: seq<Frame>)
    requires p.Ok()
    ensures var s' := Run(p, START, fs);
            s'.frames == |fs| && Handed(p, s') == Span(p, s'.frames - s'.skips - s'.lost + s'.dups)
    decreases |fs|
  {
    hide Output, Feed, AvDelay;
    if fs != [] {
      var n := |fs| - 1;
      HandedCounts(p, fs[..n]);
      OutputCounts(p, FeedAudio(p, Run(p, START, fs[..n])), fs[n]);
    }
  }

  lemma OutputCounts(p: Params, s: State, f: Frame)
    requires p.Ok() && Handed(p, s) == Span(p, s.frames - s.skips - s.lost + s.dups)
    ensures var s' := Output(p, s, f);
            && s'.frames == s.frames + 1
            && Handed(p, s') == Span(p, s'.frames - s'.skips - s'.lost + s'.dups)
  {
    hide Output, Decide, Handed, Span;
    OutputHands(p, s, f);
    DecideTrades(p, s.vTimer - (f.time / p.speed - p.mux), s.vPts);
    var s' := Output(p, s, f);
    var a, b := s.frames - s.skips - s.lost + s.dups, s'.frames - s'.skips - s'.lost + s'.dups;
    Units(p, a, b - a);
  }

  // ----- A skip limit of 0

  // The comment in the encoder asks for a limit of 0 to disable skipping and duplication.  It does for the timer,
  // but the timestamp correction looks at no limit: a frame is neither skipped nor duplicated if and only if that
  // correction is within two output frames.
  lemma NoSkipExactly(p: Params, vTimer: real, vPts: real)
    requires p.Ok() && p.skipLimit == 0
    ensures Decide(p, vTimer, vPts).0 == vTimer
    ensures Decide(p, vTimer, vPts).2 < 0 <==> vPts <= -2.0 * p.mux
    ensures Decide(p, vTimer, vPts).2 > 0 <==> vPts >= 2.0 * p.mux
  {
    assert TimerDecision(p, vTimer) == (vTimer, 0);
    PtsLoopTrades(p, vPts, 0);
    if PtsDup(p, vPts, 0) {
      OneFrameLess(-vPts, p.mux);
      assert -vPts - p.mux == -(vPts + p.mux);
      assert PtsLoop(p, vPts, 0) == PtsLoop(p, vPts + p.mux, -1);
      PtsLoopTrades(p, vPts + p.mux, -1);
      NoSkipAfterDup(p, vPts);
    }
  }

  // A loop that duplicated stops below zero, so nothing is skipped after it.
  lemma {:induction false} NoSkipAfterDup(p: Params, vPts: real)
    requires p.Ok() && vPts <= -2.0 * p.mux
    ensures forall skip :: skip <= 0 ==> PtsLoop(p, vPts, skip).0 <= -p.mux
    decreases Frames(-vPts, p.mux)
  {
    OneFrameLess(-vPts, p.mux);
    assert -vPts - p.mux == -(vPts + p.mux);
    if vPts + p.mux <= -2.0 * p.mux {
      NoSkipAfterDup(p, vPts + p.mux);
    }
  }

  lemma NoSkipStep(p: Params, s: State, f: Frame)
    requires p.Ok() && p.skipLimit == 0
    ensures var s' := Step(p, s, f);
            && s'.dups >= s.dups && (s'.dups > s.dups <==> s.vPts <= -2.0 * p.mux)
            && s'.skips >= s.skips && (s'.skips > s.skips <==> s.vPts >= 2.0 * p.mux)
  {
    hide Decide, Feed, AvDelay;
    NoSkipExactly(p, s.vTimer - (f.time / p.speed - p.mux), s.vPts);
  }

  // Over runs: with a limit of 0 nothing is skipped or duplicated if and only if the timestamp correction is within two
  // output frames before every frame.
  lemma {:induction false} NoSkipRuns(p: Params, fs: seq<Frame>)
    requires p.Ok() && p.skipLimit == 0
    ensures var s := Run(p, START, fs);
            s.dups == 0 && s.skips == 0
            <==> forall i :: 0 <= i < |fs| ==> -2.0 * p.mux < Run(p, START, fs[..i]).vPts < 2.0 * p.mux
    decreases |fs|
  {
    hide Step;
    if fs != [] {
      var n := |fs| - 1;
      NoSkipRuns(p, fs[..n]);
      NoSkipStep(p, Run(p, START, fs[..n]), fs[n]);
      assert forall i :: 0 <= i < n ==> fs[..n][..i] == fs[..i];
    }
  }

  // A limit of 0 is kept by a run without sound, and by one that may not correct at all.
  lemma {:induction false} NoSkipKept(p: Params, fs: seq<Frame>)
    requires p.Ok() && p.skipLimit == 0 && (p.sound.None? || p.defaultMax == 0.0)
    ensures Run(p, START, fs).dups == 0 && Run(p, START, fs).skips == 0
  {
    forall i | 0 <= i < |fs| ensures Run(p, START, fs[..i]).vPts == 0.0 {
      NoCorrection(p, fs[..i]);
    }
    NoSkipRuns(p, fs);
  }

  lemma {:induction false} NoCorrection(p: Params, fs: seq<Frame>)
    requires p.Ok() && p.skipLimit == 0 && (p.sound.None? || p.defaultMax == 0.0)
    ensures Run(p, START, fs).vPts == 0.0 && Run(p, START, fs).maxCorr == 0.0
    decreases |fs|
  {
    hide Feed, AvDelay, Decide;
    if fs != [] {
      var n := |fs| - 1;
      NoCorrection(p, fs[..n]);
      NeutralFrame(p, Run(p, START, fs[..n]).vTimer - (fs[n].time / p.speed - p.mux));
    }
  }

  lemma NeutralFrame(p: Params, vTimer: real)
    requires p.Ok() && p.skipLimit == 0
    ensures Decide(p, vTimer, 0.0) == (vTimer, 0.0, 0)
  {
  }

  // From no correction, a round puts its correction and nothing else on the timestamps.
  lemma NeutralStep(p: Params, s: State, f: Frame)
    requires p.Ok() && p.skipLimit == 0 && s.vPts == 0.0
    ensures Step(p, s, f).vPts == Step(p, s, f).cTotal - s.cTotal
  {
    NeutralFrame(p, s.vTimer - (f.time / p.speed - p.mux));
    hide Decide, Feed, AvDelay;
  }

  // A limit of 0 does not disable duplication: audio that is delayed by 1000 seconds makes the third frame one to
  // duplicate.
  lemma NoSkipFails()
    ensures exists p: Params, fs: seq<Frame> :: p.Ok() && p.skipLimit == 0 && Run(p, START, fs).dups > 0
  {
    var p := Params(1.0, 0, 1.0, 10.0, Copy, Some(Sound([], 0.0, 1000.0, 0.0, 0.0)));
    var f := Frame(1.0, true, [], 0.0, 1.0);
    NoSkipFirst(p, f);
    hide Run, Step;
    NoSkipStep(p, Run(p, START, [f, f]), f);
    RunMore(p, START, [f, f], f);
    assert Run(p, START, [f, f] + [f]).dups > 0;
  }

  lemma NoSkipFirst(p: Params, f: Frame)
    requires p == Params(1.0, 0, 1.0, 10.0, Copy, Some(Sound([], 0.0, 1000.0, 0.0, 0.0)))
    requires f == Frame(1.0, true, [], 0.0, 1.0)
    ensures Run(p, START, [f, f]).vPts == -10.0
  {
    hide Run, Step;
    RunTwo(p, START, f, f);
    LateRound(p, START, f);
    LateRound(p, Step(p, START, f), f);
  }

  lemma LateOffset(p: Params, f: Frame)
    requires p == Params(1.0, 0, 1.0, 10.0, Copy, Some(Sound([], 0.0, 1000.0, 0.0, 0.0)))
    requires f == Frame(1.0, true, [], 0.0, 1.0)
    ensures Offset(p, p.sound.value, 0, f) == -1000.0
  {
  }

  // A round with audio 1000 seconds late.
  lemma LateRound(p: Params, s: State, f: Frame)
    requires p == Params(1.0, 0, 1.0, 10.0, Copy, Some(Sound([], 0.0, 1000.0, 0.0, 0.0)))
    requires f == Frame(1.0, true, [], 0.0, 1.0)
    requires s.vPts == 0.0 && s.fed == 0 && s.aOut == 0.0 && 0.0 <= s.maxCorr <= 10.0 && 0.0 <= Kept(p, s) <= 1.0
    ensures var s' := Step(p, s, f);
            s'.fed == 0 && s'.aOut == 0.0 && s'.maxCorr == 10.0 && s'.vPts == -s.maxCorr
            && Kept(p, s') == Kept(p, s) + 1.0 + s.maxCorr
  {
    hide Step, Offset;
    assert p.Ok() && Fed(p, s);
    LateOffset(p, f);
    StepFed(p, s, f);
    CorrectionOfStep(p, s, f);
    NeutralStep(p, s, f);
    StepConserves(p, s, f);
  }

  // ----- The code

  class Encoder {
    const p: Params
    var vTimer: real
    var vPts: real
    var cTotal: real
    var out: real
    var held: nat
    var aOut: real
    var fed: nat
    var maxCorr: real
    var dups: nat
    var skips: nat
    var lost: nat
    var frames: nat

    constructor (p: Params)
      ensures this.p == p && Value() == START
    {
      this.p := p;
      vTimer, vPts, cTotal, out, aOut, maxCorr := 0.0, 0.0, 0.0, 0.0, 0.0, 0.0;
      held, fed, dups, skips, lost, frames := 0, 0, 0, 0, 0, 0;
    }

    function Value(): State
      reads this
    {
      State(vTimer, vPts, cTotal, out, held, aOut, fed, maxCorr, dups, skips, lost, frames)
    }

    method WriteChunk()
      modifies this`out
      ensures out == old(out) + p.mux
    {
      out := out + p.mux;
    }

    // The two corrections, each traded for frames to skip or to duplicate.
    method Correction() returns (skip: int)
      requires p.Ok()
      modifies this`vTimer, this`vPts
      ensures (vTimer, vPts, skip) == Decide(p, old(vTimer), old(vPts))
    {
      skip := 0;
      if vTimer >= p.mux && (p.skipLimit < 0 || skip < p.skipLimit) {
        vTimer := vTimer - p.mux;
        skip := skip + 1;
      }
      while vTimer <= -p.mux && (p.skipLimit < 0 || -skip < p.skipLimit)
        invariant TimerLoop(p, vTimer, skip) == TimerDecision(p, old(vTimer)) && vPts == old(vPts)
        decreases if vTimer <= -p.mux then Frames(-vTimer, p.mux) else 0
      {
        OneFrameLess(-vTimer, p.mux);
        assert -vTimer - p.mux == -(vTimer + p.mux);
        vTimer := vTimer + p.mux;
        skip := skip - 1;
      }
      ghost var skip0 := skip;
      while (vPts <= -p.mux && skip > 0) || vPts <= -2.0 * p.mux
        invariant PtsLoop(p, vPts, skip) == PtsLoop(p, old(vPts), skip0)
        invariant (vTimer, skip0) == TimerDecision(p, old(vTimer))
        decreases if vPts <= -p.mux then Frames(-vPts, p.mux) else 0
      {
        OneFrameLess(-vPts, p.mux);
        assert -vPts - p.mux == -(vPts + p.mux);
        vPts := vPts + p.mux;
        skip := skip - 1;
      }
      if (vPts >= p.mux && skip < 0) || vPts >= 2.0 * p.mux {
        if skip <= 0 {
          vPts := vPts - p.mux;
          skip := skip + 1;
        }
      }
    }

    // Frame or duplicate number i goes to the encoder, which writes a chunk or counts one more that it holds; where
    // there is no encoder the chunk is written.
    method Put(f: Frame, i: nat)
      modifies this`out, this`held
      ensures out == old(out) + if Holds(p, f, i) then 0.0 else p.mux
      ensures held == old(held) + if Holds(p, f, i) then 1 else 0
    {
      if p.codec == Encode && i < |f.holds| && f.holds[i] {
        held := held + 1;
      } else {
        WriteChunk();
      }
    }

    lemma HeldOwn(f: Frame)
      ensures HeldOf(p, f, 0, 0) == 0 == HeldOf(p, f, 1, 0)
      ensures HeldOf(p, f, 0, 1) == if Holds(p, f, 0) then 1 else 0
    {
    }

    // The output time of n duplicates.
    function DupTime(f: Frame, n: nat): real {
      Span(p, n - HeldOf(p, f, 1, n))
    }

    lemma HeldMore(f: Frame, n: nat)
      ensures HeldOf(p, f, 1, n + 1) == HeldOf(p, f, 1, n) + if Holds(p, f, n + 1) then 1 else 0
      ensures DupTime(f, n + 1) == DupTime(f, n) + if Holds(p, f, n + 1) then 0.0 else p.mux
    {
      hide Span;
      Units(p, n - HeldOf(p, f, 1, n), if Holds(p, f, n + 1) then 0 else 1);
    }

    method Duplicate(f: Frame, skip0: int) returns (skip: int)
      requires skip0 < 0
      modifies this`out, this`held, this`dups
      ensures skip == 0
      ensures var h := HeldOf(p, f, 1, -skip0);
              out == old(out) + DupTime(f, -skip0) && held == old(held) + h && dups == old(dups) - skip0
    {
      assert DupTime(f, 0) == 0.0;
      hide HeldOf, DupTime;
      HeldOwn(f);
      skip := skip0;
      while skip < 0
        invariant skip0 <= skip <= 0
        invariant out == old(out) + DupTime(f, skip - skip0)
        invariant held == old(held) + HeldOf(p, f, 1, skip - skip0)
        invariant dups == old(dups) + (skip - skip0)
      {
        var done: nat := skip - skip0;
        dups := dups + 1;
        Put(f, done + 1);
        HeldMore(f, done);
        skip := skip + 1;
        assert skip - skip0 == done + 1;
      }
      assert skip - skip0 == -skip0;
    }

    // One round of the main loop.  The skip flag is back to 0 at its end.
    method EncodeFrame(f: Frame) returns (skip: int)
      requires p.Ok()
      modifies this
      ensures Value() == Step(p, old(Value()), f)
      ensures skip == 0
    {
      hide Decide, Correct, FeedAudio;
      WriteAudio();
      skip := EncodeVideo(f);
      NoSound(Value(), f);
      if p.sound.Some? {
        CorrectDelay(p.sound.value, f);
      }
    }

    // The output time of the frame itself.
    function OwnTime(f: Frame, own: nat): real {
      Span(p, own - HeldOf(p, f, 0, own))
    }

    lemma OutputParts(s: State, f: Frame)
      requires p.Ok()
      ensures var (vt, vp, skip) := Decide(p, s.vTimer - (f.time / p.speed - p.mux), s.vPts);
              var lost := Lost(p, f, skip);
              var own, dups := if skip <= 0 && !lost then 1 else 0, if skip < 0 then -skip else 0;
              Output(p, s, f)
              == s.(vTimer := if lost then vt - p.mux else vt, vPts := vp,
                    out := s.out + OwnTime(f, own) + DupTime(f, dups),
                    held := s.held + HeldOf(p, f, 0, own) + HeldOf(p, f, 1, dups),
                    dups := s.dups + dups, skips := s.skips + if skip > 0 then 1 else 0,
                    lost := s.lost + if lost then 1 else 0, frames := s.frames + 1)
    {
      hide Decide, HeldOf, Span;
      var (vt, vp, skip) := Decide(p, s.vTimer - (f.time / p.speed - p.mux), s.vPts);
      var own, dups := if skip <= 0 && !Lost(p, f, skip) then 1 else 0, if skip < 0 then -skip else 0;
      var h, g := HeldOf(p, f, 0, own), HeldOf(p, f, 1, dups);
      Units(p, own - h, dups - g);
      assert own + dups - (h + g) == (own - h) + (dups - g);
    }

    lemma SkipsOne(vTimer: real, vPts: real)
      requires p.Ok()
      ensures Decide(p, vTimer, vPts).2 <= 1
    {
      DecideTrades(p, vTimer, vPts);
    }

    lemma NoDups(f: Frame)
      ensures DupTime(f, 0) == 0.0 && HeldOf(p, f, 1, 0) == 0
    {
    }

    // The frame itself, according to the codec.
    method PutOwn(f: Frame, skip: int)
      modifies this`vTimer, this`out, this`held, this`lost
      ensures var own := if skip <= 0 && !Lost(p, f, skip) then 1 else 0; var h := HeldOf(p, f, 0, own);
              out == old(out) + OwnTime(f, own) && held == old(held) + h
      ensures vTimer == old(vTimer) - if Lost(p, f, skip) then p.mux else 0.0
      ensures lost == old(lost) + if Lost(p, f, skip) then 1 else 0
    {
      HeldOwn(f);
      if p.codec != Encode {
        if skip <= 0 {
          Put(f, 0);
        }
      } else if f.emitted {
        if skip <= 0 {
          Put(f, 0);
        }
      } else if skip <= 0 {
        lost := lost + 1;
        vTimer := vTimer - p.mux;
      }
    }

    // Duplicate the frame, or count it as skipped, until the flag is 0.
    method Settle(f: Frame, skip0: int) returns (skip: int)
      requires skip0 <= 1
      modifies this`out, this`held, this`dups, this`skips
      ensures skip == 0
      ensures var n := if skip0 < 0 then -skip0 else 0;
              && out == old(out) + DupTime(f, n) && held == old(held) + HeldOf(p, f, 1, n) && dups == old(dups) + n
              && skips == old(skips) + if skip0 > 0 then 1 else 0
    {
      NoDups(f);
      hide HeldOf, DupTime;
      skip := skip0;
      if skip < 0 {
        skip := Duplicate(f, skip);
      } else if skip > 0 {
        skips := skips + 1;
        skip := skip - 1;
      }
    }

    // The video of a round.
    method EncodeVideo(f: Frame) returns (skip: int)
      requires p.Ok()
      modifies this`vTimer, this`vPts, this`out, this`held, this`dups, this`skips, this`lost, this`frames
      ensures Value() == Output(p, old(Value()), f)
      ensures skip == 0
    {
      OutputParts(Value(), f);
      hide Output, Decide, HeldOf, OwnTime, DupTime, Lost, Span;
      frames := frames + 1;
      vTimer := vTimer - (f.time / p.speed - p.mux);
      SkipsOne(vTimer, vPts);
      skip := Correction();
      PutOwn(f, skip);
      skip := Settle(f, skip);
    }

    lemma NoSound(s: State, f: Frame)
      requires p.Ok()
      ensures p.sound.None? ==> Correct(p, s, f) == s
    {
    }

    // The audio of a round.
    method WriteAudio()
      modifies this`aOut, this`fed
      ensures Value() == FeedAudio(p, old(Value()))
    {
      if p.sound.Some? {
        var sd := p.sound.value;
        while aOut - sd.preload < out
          invariant Feed(sd, aOut, fed, out) == Feed(sd, old(aOut), old(fed), out)
          decreases |sd.chunks| - fed
        {
          if fed >= |sd.chunks| {
            break;
          }
          aOut := aOut + sd.chunks[fed].length;
          fed := fed + 1;
        }
      }
    }

    // A-V sync.
    method CorrectDelay(sd: Sound, f: Frame)
      requires p.Ok() && p.sound == Some(sd)
      modifies this`cTotal, this`vPts, this`maxCorr
      ensures Value() == Correct(p, old(Value()), f)
    {
      var delay := AudioPts(sd, fed) - f.pts;
      delay := delay - sd.delay;
      delay := delay / p.speed;
      delay := delay - (aOut - (out - (vTimer + vPts)));
      delay := delay - sd.lag;
      delay := delay + held as real * p.mux;
      var x := delay * 0.1;
      if x < -maxCorr {
        x := -maxCorr;
      } else if x > maxCorr {
        x := maxCorr;
      }
      if p.defaultMax >= 0.0 {
        maxCorr := p.defaultMax * p.speed;
      } else {
        maxCorr := f.frameTime * 0.1 * p.speed;
      }
      cTotal := cTotal + x;
      vPts := vPts + x;
    }

    method EncodeAll(fs: seq<Frame>)
      requires p.Ok()
      modifies this
      ensures Value() == Run(p, old(Value()), fs)
    {
      for i := 0 to |fs|
        invariant Value() == Run(p, old(Value()), fs[..i])
      {
        assert fs[..i + 1][..i] == fs[..i];
        var skip := EncodeFrame(fs[i]);
      }
      assert fs[..|fs|] == fs;
    }
  }
}
