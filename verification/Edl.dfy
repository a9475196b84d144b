/**
 Edit decision lists: the parser of edl.c and the way mencoder's main loop
 (mencoder.c) plays the records.
 */
module Edl {
  const EDL_SKIP := 0
  const EDL_MUTE := 1

  // A line the scanner could not read, or its three numbers.
  datatype Line = Bad | Entry(start: real, stop: real, action: int)

  datatype Interval = Interval(start: real, stop: real, action: int)

  datatype Record = Record(action: int, start: real, stop: real, length: real)

  // ----- Parsing

  // The intervals that are taken: not empty, and each after the end of the one before.
  function Accepted(lines: seq<Line>): seq<Interval> {
    if lines == [] then []
    else
      var before := Accepted(lines[..|lines| - 1]);
      match lines[|lines| - 1]
      case Bad => before
      case Entry(start, stop, action) =>
        if (before != [] && start <= before[|before| - 1].stop) || stop <= start then before
        else before + [Interval(start, stop, action)]
  }

  ghost predicate Disjoint(ivs: seq<Interval>) {
    && (forall i :: 0 <= i < |ivs| ==> ivs[i].start < ivs[i].stop)
    && (forall i, j :: 0 <= i < j < |ivs| ==> ivs[i].stop < ivs[j].start)
  }

  lemma {:induction false} AcceptedDisjoint(lines: seq<Line>)
    ensures Disjoint(Accepted(lines))
  {
    if lines != [] {
      AcceptedDisjoint(lines[..|lines| - 1]);
    }
  }

  // A mute is two records, one for each end; anything else is one.
  function RecordsOf(iv: Interval): seq<Record> {
    if iv.action == EDL_MUTE then
      [Record(EDL_MUTE, iv.start, iv.start, 0.0), Record(EDL_MUTE, iv.stop, iv.stop, 0.0)]
    else [Record(iv.action, iv.start, iv.stop, iv.stop - iv.start)]
  }

  function Layout(ivs: seq<Interval>): seq<Record> {
    if ivs == [] then [] else Layout(ivs[..|ivs| - 1]) + RecordsOf(ivs[|ivs| - 1])
  }

  // edl_parse_file
  method Parse(lines: seq<Line>) returns (records: seq<Record>)
    ensures records == Layout(Accepted(lines))
  {
    hide Accepted, Layout;
    NothingRead();
    records := [];
    for k := 0 to |lines|
      invariant records == Layout(Accepted(lines[..k]))
    {
      LastStop(Accepted(lines[..k]));
      ReadLine(lines, k);
      match lines[k] {
        case Bad => continue;
        case Entry(start, stop, action) =>
          if records != [] && start <= records[|records| - 1].stop {
            continue;
          }
          if stop <= start {
            continue;
          }
          if action == EDL_MUTE {
            records := records + [Record(action, start, start, 0.0)];
            records := records + [Record(action, stop, stop, 0.0)];
          } else {
            records := records + [Record(action, start, stop, stop - start)];
          }
      }
    }
    assert lines[..|lines|] == lines;
  }

  lemma NothingRead()
    ensures Layout(Accepted([])) == []
  {
  }

  // What one more line adds.
  lemma ReadLine(lines: seq<Line>, k: nat)
    requires k < |lines|
    ensures var before, after := Accepted(lines[..k]), Accepted(lines[..k + 1]);
            match lines[k]
            case Bad => after == before
            case Entry(start, stop, action) =>
              if (before != [] && start <= before[|before| - 1].stop) || stop <= start then after == before
              else Layout(after) == Layout(before) + RecordsOf(Interval(start, stop, action))
  {
    var before := Accepted(lines[..k]);
    assert lines[..k + 1][..k] == lines[..k];
    if lines[k].Entry? {
      var iv := Interval(lines[k].start, lines[k].stop, lines[k].action);
      assert (before + [iv])[..|before|] == before;
    }
  }

  lemma LastStop(ivs: seq<Interval>)
    ensures Layout(ivs) != [] <==> ivs != []
    ensures ivs != [] ==> Layout(ivs)[|Layout(ivs)| - 1].stop == ivs[|ivs| - 1].stop
  {
  }

  // The records rise strictly: each ends before the next one starts.
  ghost predicate Rising(rs: seq<Record>) {
    && (forall i :: 0 <= i < |rs| ==> rs[i].start <= rs[i].stop)
    && (forall i, j :: 0 <= i < j < |rs| ==> rs[i].stop < rs[j].start)
  }

  lemma {:induction false} LayoutRising(ivs: seq<Interval>)
    requires Disjoint(ivs)
    ensures Rising(Layout(ivs))
    ensures forall r :: r in Layout(ivs) ==> r.stop <= ivs[|ivs| - 1].stop
  {
    if ivs != [] {
      var n := |ivs| - 1;
      LayoutRising(ivs[..n]);
    }
  }

  // ----- The records of given lines

  // A line is taken exactly when it could be read, is not empty and starts after everything taken before it.
  lemma AcceptedMeans(lines: seq<Line>, l: Line)
    ensures var before := Accepted(lines);
            var taken := l.Entry? && l.start < l.stop && forall i :: 0 <= i < |before| ==> before[i].stop < l.start;
            Accepted(lines + [l]) == if taken then before + [Interval(l.start, l.stop, l.action)] else before
  {
    assert (lines + [l])[..|lines|] == lines;
    AcceptedDisjoint(lines);
    var before := Accepted(lines);
    if before != [] {
      var last := before[|before| - 1];
      assert forall i :: 0 <= i < |before| - 1 ==> before[i].stop < last.start < last.stop;
    }
  }

  // Lines in order, none empty and none touching the one before, are all taken.
  lemma {:induction false} InOrderAccepted(lines: seq<Line>)
    requires forall i :: 0 <= i < |lines| ==> lines[i].Entry? && lines[i].start < lines[i].stop
    requires forall i :: 0 < i < |lines| ==> lines[i - 1].stop < lines[i].start
    ensures |Accepted(lines)| == |lines|
    ensures forall i :: 0 <= i < |lines| ==>
              Accepted(lines)[i] == Interval(lines[i].start, lines[i].stop, lines[i].action)
  {
    if lines != [] {
      InOrderAccepted(lines[..|lines| - 1]);
    }
  }

  // A mute has its two points next to each other, anything else one record with its start, its end and its length.
  lemma {:induction false} RecordsOfInterval(ivs: seq<Interval>, i: nat) returns (j: nat)
    requires i < |ivs|
    ensures j < |Layout(ivs)|
    ensures var iv, rs := ivs[i], Layout(ivs);
            if iv.action == EDL_MUTE then
              && j + 1 < |rs|
              && rs[j] == Record(EDL_MUTE, iv.start, iv.start, 0.0)
              && rs[j + 1] == Record(EDL_MUTE, iv.stop, iv.stop, 0.0)
            else rs[j] == Record(iv.action, iv.start, iv.stop, iv.stop - iv.start)
    decreases |ivs|
  {
    var k := |ivs| - 1;
    if i < k {
      j := RecordsOfInterval(ivs[..k], i);
    } else {
      j := |Layout(ivs[..k])|;
    }
  }

  // There are no other records.  As records rise strictly, each of these is there once.
  lemma {:induction false} IntervalOfRecord(ivs: seq<Interval>, j: nat) returns (i: nat)
    requires j < |Layout(ivs)|
    ensures i < |ivs|
    ensures var iv, r := ivs[i], Layout(ivs)[j];
            if iv.action == EDL_MUTE then
              r == Record(EDL_MUTE, iv.start, iv.start, 0.0) || r == Record(EDL_MUTE, iv.stop, iv.stop, 0.0)
            else r == Record(iv.action, iv.start, iv.stop, iv.stop - iv.start)
    decreases |ivs|
  {
    var k := |ivs| - 1;
    if j < |Layout(ivs[..k])| {
      i := IntervalOfRecord(ivs[..k], j);
    } else {
      i := k;
    }
  }

  // ----- Mute parity

  function Parity(rs: seq<Record>, n: nat): bool
    requires n <= |rs|
  {
    if n == 0 then false else Parity(rs, n - 1) != (rs[n - 1].action == EDL_MUTE)
  }

  lemma {:induction false} ParityPrefix(rs: seq<Record>, more: seq<Record>, n: nat)
    requires n <= |rs|
    ensures Parity(rs + more, n) == Parity(rs, n)
  {
    if n > 0 {
      ParityPrefix(rs, more, n - 1);
    }
  }

  // Mutes come in adjacent pairs, so a complete list mutes nothing, and a record of another kind is never
  // inside a mute.
  lemma {:induction false} PairedMutes(ivs: seq<Interval>)
    ensures !Parity(Layout(ivs), |Layout(ivs)|)
    ensures forall n :: 0 <= n < |Layout(ivs)| && Layout(ivs)[n].action != EDL_MUTE ==> !Parity(Layout(ivs), n)
  {
    if ivs != [] {
      var k := |ivs| - 1;
      PairedMutes(ivs[..k]);
      var rs := Layout(ivs[..k]);
      forall n | 0 <= n <= |rs| ensures Parity(Layout(ivs), n) == Parity(rs, n) {
        ParityPrefix(rs, RecordsOf(ivs[k]), n);
      }
    }
  }

  // The time pts lies in a mute of the list.
  ghost predicate InMute(ivs: seq<Interval>, pts: real) {
    exists i :: 0 <= i < |ivs| && ivs[i].action == EDL_MUTE && ivs[i].start <= pts < ivs[i].stop
  }

  // Before position n everything has ended at pts, from n on nothing has.
  predicate Splits(rs: seq<Record>, n: nat, pts: real) {
    n <= |rs| && (forall i :: 0 <= i < n ==> rs[i].stop <= pts) && (forall i :: n <= i < |rs| ==> rs[i].stop > pts)
  }

  lemma DisjointBefore(ivs: seq<Interval>)
    requires Disjoint(ivs) && ivs != []
    ensures Disjoint(ivs[..|ivs| - 1])
  {
  }

  // Counting mute records up to the first one that has not ended tells whether pts lies in a mute.
  lemma {:induction false} ParityIsInMute(ivs: seq<Interval>, n: nat, pts: real)
    requires Disjoint(ivs) && Splits(Layout(ivs), n, pts)
    ensures Parity(Layout(ivs), n) == InMute(ivs, pts)
  {
    if ivs == [] {
      assert !InMute(ivs, pts);
    } else {
      hide InMute, RecordsOf, Parity;
      var k := |ivs| - 1;
      var rs, more := Layout(ivs[..k]), RecordsOf(ivs[k]);
      var m := if n <= |rs| then n else |rs|;
      assert Layout(ivs) == rs + more && n <= |Layout(ivs)|;
      DisjointBefore(ivs);
      SplitsParts(rs, more, n, pts);
      hide Splits, Layout, Disjoint;
      ParityIsInMute(ivs[..k], m, pts);
      ParityConcat(rs, more, m, n - m);
      ParityEnds(ivs[..k], more);
      InMuteLast(ivs, pts);
      ParityOfOne(ivs[k], n - m, pts);
      assert n == m + (n - m) && (n - m == 0 || m == |rs|);
      assert !Parity(rs, m) || !Parity(more, n - m);
    }
  }

  lemma ParityEnds(ivs: seq<Interval>, more: seq<Record>)
    ensures !Parity(Layout(ivs), |Layout(ivs)|) && !Parity(more, 0)
  {
    PairedMutes(ivs);
  }

  lemma SplitsParts(rs: seq<Record>, more: seq<Record>, n: nat, pts: real)
    requires Splits(rs + more, n, pts)
    ensures var m := if n <= |rs| then n else |rs|; Splits(rs, m, pts) && Splits(more, n - m, pts)
  {
    assert forall i :: 0 <= i < |rs| ==> (rs + more)[i] == rs[i];
    assert forall i :: 0 <= i < |more| ==> (rs + more)[|rs| + i] == more[i];
  }

  lemma InMuteLast(ivs: seq<Interval>, pts: real)
    requires ivs != []
    ensures var k := |ivs| - 1;
            InMute(ivs, pts) == (InMute(ivs[..k], pts) || InMute([ivs[k]], pts))
  {
    var k := |ivs| - 1;
    assert forall i :: 0 <= i < k ==> ivs[..k][i] == ivs[i];
    assert [ivs[k]][0] == ivs[k];
  }

  lemma ParityOfOne(iv: Interval, n: nat, pts: real)
    requires Splits(RecordsOf(iv), n, pts)
    ensures Parity(RecordsOf(iv), n) == InMute([iv], pts)
  {
    assert InMute([iv], pts) == (iv.action == EDL_MUTE && iv.start <= pts < iv.stop) by {
      assert [iv][0] == iv;
    }
    var rs := RecordsOf(iv);
    assert n > 0 ==> rs[0].stop <= pts;
    assert n > 1 ==> rs[1].stop <= pts;
    assert n < 1 ==> rs[0].stop > pts;
    assert Parity(rs, 1) == (rs[0].action == EDL_MUTE);
    if n == 1 && |rs| > 1 {
      assert rs[1].stop > pts;
    }
  }

  // The records of a part that is complete or untouched add up.
  lemma {:induction false} ParityConcat(rs: seq<Record>, more: seq<Record>, m: nat, n: nat)
    requires m <= |rs| && n <= |more| && (n > 0 ==> m == |rs|)
    ensures Parity(rs + more, m + n) == (Parity(rs, m) != Parity(more, n))
  {
    if n == 0 {
      ParityPrefix(rs, more, m);
    } else {
      ParityConcat(rs, more, m, n - 1);
    }
  }

  // ----- Playing

  // next is an index into the records, their number standing for the end of the list; pts is the time of the
  // current frame.
  datatype Play = Play(next: nat, muted: bool, seeking: bool, pts: real)

  // What a seek did: end of file, not possible, or moved from one time to another.
  datatype Outcome = Eof | NoSeek | Moved(lastPos: real, pts: real)

  // The search for the record to go on with after a seek.
  function Resume(rs: seq<Record>, pts: real, i: nat, muted: bool): (nat, bool)
    requires i <= |rs|
    decreases |rs| - i
  {
    if i == |rs| || rs[i].stop > pts then (i, muted)
    else Resume(rs, pts, i + 1, if rs[i].action == EDL_MUTE then !muted else muted)
  }

  // The EDL block for one frame, with the outcomes of the seeks it makes; it ends when they run out.
  function Block(rs: seq<Record>, s: Play, seeks: seq<Outcome>): (Play, bool)
    decreases |seeks|
  {
    if !(s.next < |rs| && s.pts >= rs[s.next].start) then (s, false)
    else if rs[s.next].action == EDL_SKIP && s.seeking then
      if seeks == [] then (s, true)
      else
        match seeks[0]
        case Eof => (s, true)
        case NoSeek => (s.(seeking := false), false)
        case Moved(lastPos, pts) =>
          if lastPos >= pts then Block(rs, s.(next := s.next + 1, muted := false, pts := pts), seeks[1..])
          else
            var (n, m) := Resume(rs, pts, 0, false);
            Block(rs, s.(next := n, muted := m, pts := pts), seeks[1..])
    else if rs[s.next].action == EDL_MUTE then (s.(next := s.next + 1, muted := !s.muted), false)
    else (s, false)
  }

  predicate Tracks(rs: seq<Record>, s: Play) {
    s.next <= |rs| && s.muted == Parity(rs, s.next)
  }

  lemma {:induction false} ResumeSplits(rs: seq<Record>, pts: real, i: nat, muted: bool)
    requires Rising(rs) && i <= |rs| && muted == Parity(rs, i)
    requires forall k :: 0 <= k < i ==> rs[k].stop <= pts
    ensures var (n, m) := Resume(rs, pts, i, muted); Splits(rs, n, pts) && m == Parity(rs, n)
    decreases |rs| - i
  {
    if i < |rs| && rs[i].stop <= pts {
      ResumeSplits(rs, pts, i + 1, if rs[i].action == EDL_MUTE then !muted else muted);
    } else if i < |rs| {
      assert forall k :: i < k < |rs| ==> rs[i].stop < rs[k].start <= rs[k].stop;
    }
  }

  // Through skips, backward and forward seeks and mutes the flag is the parity of the mute records passed.  That
  // a seek may reset it to 0 relies on no skip being inside a mute.
  lemma {:induction false} BlockTracks(ivs: seq<Interval>, s: Play, seeks: seq<Outcome>)
    requires Disjoint(ivs) && Tracks(Layout(ivs), s)
    ensures Tracks(Layout(ivs), Block(Layout(ivs), s, seeks).0)
    decreases |seeks|
  {
    hide Layout, Disjoint, Resume, Splits, Rising;
    var rs := Layout(ivs);
    if s.next < |rs| && s.pts >= rs[s.next].start && rs[s.next].action == EDL_SKIP && s.seeking && seeks != []
       && seeks[0].Moved? {
      var lastPos, pts := seeks[0].lastPos, seeks[0].pts;
      PairedMutes(ivs);
      if lastPos >= pts {
        BlockTracks(ivs, s.(next := s.next + 1, muted := false, pts := pts), seeks[1..]);
      } else {
        LayoutRising(ivs);
        ResumeSplits(rs, pts, 0, false);
        var (n, m) := Resume(rs, pts, 0, false);
        BlockTracks(ivs, s.(next := n, muted := m, pts := pts), seeks[1..]);
      }
    }
  }

  // A whole run: for each frame its time and the outcomes of its seeks.
  function PlayAll(rs: seq<Record>, s: Play, frames: seq<(real, seq<Outcome>)>): Play {
    if frames == [] then s
    else
      var before := PlayAll(rs, s, frames[..|frames| - 1]);
      var f := frames[|frames| - 1];
      Block(rs, before.(pts := f.0), f.1).0
  }

  const START: Play := Play(0, false, true, 0.0)

  // For any lines and any run: the flag is the parity, and whenever the player has caught up with the list it
  // says whether the current time lies in an accepted mute.
  lemma {:induction false} MuteParity(lines: seq<Line>, frames: seq<(real, seq<Outcome>)>)
    ensures var rs := Layout(Accepted(lines)); var s := PlayAll(rs, START, frames);
            && Tracks(rs, s)
            && (Splits(rs, s.next, s.pts) ==> s.muted == InMute(Accepted(lines), s.pts))
    decreases |frames|
  {
    var ivs := Accepted(lines);
    AcceptedDisjoint(lines);
    var s := PlayAll(Layout(ivs), START, frames);
    if frames != [] {
      MuteParity(lines, frames[..|frames| - 1]);
      var f := frames[|frames| - 1];
      BlockTracks(ivs, PlayAll(Layout(ivs), START, frames[..|frames| - 1]).(pts := f.0), f.1);
    }
    if Splits(Layout(ivs), s.next, s.pts) {
      ParityIsInMute(ivs, s.next, s.pts);
    }
  }

  // The block found a skip and all its seeks go forward.
  predicate ForwardSkip(rs: seq<Record>, s: Play, seeks: seq<Outcome>) {
    && s.next < |rs| && s.pts >= rs[s.next].start && rs[s.next].action == EDL_SKIP && s.seeking
    && forall i :: 0 <= i < |seeks| ==> seeks[i].Moved? && seeks[i].lastPos < seeks[i].pts
  }

  lemma ForwardStep(rs: seq<Record>, s: Play, seeks: seq<Outcome>)
    requires ForwardSkip(rs, s, seeks) && seeks != []
    ensures var (n, m) := Resume(rs, seeks[0].pts, 0, false);
            Block(rs, s, seeks) == Block(rs, s.(next := n, muted := m, pts := seeks[0].pts), seeks[1..])
  {
    hide Resume;
  }

  lemma NothingReached(rs: seq<Record>, s: Play, seeks: seq<Outcome>)
    requires s.next < |rs| && s.pts >= rs[s.next].start ==> rs[s.next].action !in {EDL_SKIP, EDL_MUTE}
    ensures Block(rs, s, seeks) == (s, false)
  {
  }

  // After forward seeks the player has caught up, so the flag says whether the new time lies in a mute.
  lemma {:induction false} ForwardSeekMutes(ivs: seq<Interval>, s: Play, seeks: seq<Outcome>)
    requires Disjoint(ivs) && ForwardSkip(Layout(ivs), s, seeks)
    ensures var (s', eof) := Block(Layout(ivs), s, seeks);
            !eof ==> Splits(Layout(ivs), s'.next, s'.pts) && s'.muted == InMute(ivs, s'.pts)
    decreases |seeks|
  {
    var rs := Layout(ivs);
    if seeks != [] {
      hide Layout, Disjoint, InMute, Resume, Block;
      ForwardStep(rs, s, seeks);
      var pts := seeks[0].pts;
      LayoutRising(ivs);
      ResumeSplits(rs, pts, 0, false);
      var (n, m) := Resume(rs, pts, 0, false);
      ParityIsInMute(ivs, n, pts);
      var s1 := s.(next := n, muted := m, pts := pts);
      if n < |rs| && rs[n].action == EDL_SKIP && pts >= rs[n].start {
        ForwardSeekMutes(ivs, s1, seeks[1..]);
      } else {
        MuteStartsLater(ivs, n, pts);
        NothingReached(rs, s1, seeks[1..]);
      }
    } else {
      assert Block(rs, s, seeks).1;
    }
  }

  // A mute record is a point in time, so one that has not ended has not started.
  lemma {:induction false} MuteStartsLater(ivs: seq<Interval>, n: nat, pts: real)
    requires Splits(Layout(ivs), n, pts)
    ensures n < |Layout(ivs)| && Layout(ivs)[n].action == EDL_MUTE ==> Layout(ivs)[n].start > pts
  {
    MutesArePoints(ivs);
  }

  lemma {:induction false} MutesArePoints(ivs: seq<Interval>)
    ensures forall r :: r in Layout(ivs) && r.action == EDL_MUTE ==> r.start == r.stop
  {
    if ivs != [] {
      MutesArePoints(ivs[..|ivs| - 1]);
    }
  }

  // ----- Keeping up: the block passes at most one mute record in a frame

  predicate CaughtUp(rs: seq<Record>, s: Play) {
    Splits(rs, s.next, s.pts)
  }

  // No second record has ended at time t behind a mute record that is next.
  predicate Passable(rs: seq<Record>, s: Play, t: real) {
    !(s.next + 1 < |rs| && rs[s.next].action == EDL_MUTE && rs[s.next + 1].stop <= t)
  }

  predicate MutesAndSkips(ivs: seq<Interval>) {
    forall i :: 0 <= i < |ivs| ==> ivs[i].action == EDL_MUTE || ivs[i].action == EDL_SKIP
  }

  // Ordinary playback: time does not run back, and a skip is carried out by seeks that go forward.
  predicate Ordinary(rs: seq<Record>, s: Play, f: (real, seq<Outcome>)) {
    && f.0 >= s.pts
    && (forall i :: 0 <= i < |f.1| ==> f.1[i].Moved? && f.1[i].lastPos < f.1[i].pts)
    && !Block(rs, s.(pts := f.0), f.1).1
  }

  lemma {:induction false} BlockSeeks(rs: seq<Record>, s: Play, seeks: seq<Outcome>)
    requires s.seeking && forall i :: 0 <= i < |seeks| ==> seeks[i].Moved? && seeks[i].lastPos < seeks[i].pts
    ensures Block(rs, s, seeks).0.seeking
    decreases |seeks|
  {
    if seeks != [] {
      var (n, m) := Resume(rs, seeks[0].pts, 0, false);
      BlockSeeks(rs, s.(next := n, muted := m, pts := seeks[0].pts), seeks[1..]);
    }
  }

  lemma {:induction false} LayoutActions(ivs: seq<Interval>)
    requires MutesAndSkips(ivs)
    ensures forall r :: r in Layout(ivs) ==> r.action == EDL_MUTE || r.action == EDL_SKIP
  {
    if ivs != [] {
      LayoutActions(ivs[..|ivs| - 1]);
    }
  }

  // A player that has caught up stays so through a frame if and only if the frame is passable.
  lemma FrameKeepsUp(ivs: seq<Interval>, s: Play, f: (real, seq<Outcome>))
    requires Disjoint(ivs) && MutesAndSkips(ivs) && s.seeking
    requires CaughtUp(Layout(ivs), s) && Ordinary(Layout(ivs), s, f)
    ensures var rs := Layout(ivs); var s' := Block(rs, s.(pts := f.0), f.1).0;
            s'.seeking && (CaughtUp(rs, s') <==> Passable(rs, s, f.0))
  {
    var rs, s1 := Layout(ivs), s.(pts := f.0);
    LayoutRising(ivs);
    LayoutActions(ivs);
    MutesArePoints(ivs);
    BlockSeeks(rs, s1, f.1);
    if s.next < |rs| && f.0 >= rs[s.next].start && rs[s.next].action == EDL_SKIP {
      ForwardSeekMutes(ivs, s1, f.1);
    } else {
      hide Layout, Disjoint;
      OneRecord(rs, s, f);
    }
  }

  // Among rising records the ones around a position tell whether it splits them.
  lemma SplitsHere(rs: seq<Record>, n: nat, pts: real)
    requires Rising(rs) && n <= |rs|
    ensures Splits(rs, n, pts) <==> (n > 0 ==> rs[n - 1].stop <= pts) && (n < |rs| ==> rs[n].stop > pts)
  {
    assert forall i :: 0 <= i < n - 1 ==> rs[i].stop < rs[n - 1].start <= rs[n - 1].stop;
    assert forall i :: n < i < |rs| ==> rs[n].stop < rs[i].start <= rs[i].stop;
  }

  lemma RisingHere(rs: seq<Record>, n: nat)
    requires Rising(rs)
    ensures n < |rs| ==> rs[n].start <= rs[n].stop
    ensures n + 1 < |rs| ==> rs[n].stop < rs[n + 1].start <= rs[n + 1].stop
  {
  }

  // The same where no skip is reached.
  lemma OneRecord(rs: seq<Record>, s: Play, f: (real, seq<Outcome>))
    requires Rising(rs) && CaughtUp(rs, s) && f.0 >= s.pts
    requires forall r :: r in rs && r.action == EDL_MUTE ==> r.start == r.stop
    requires s.next < |rs| && f.0 >= rs[s.next].start ==> rs[s.next].action == EDL_MUTE
    ensures CaughtUp(rs, Block(rs, s.(pts := f.0), f.1).0) <==> Passable(rs, s, f.0)
  {
    SplitsHere(rs, s.next, s.pts);
    hide Rising;
    RisingHere(rs, s.next);
    var n, t := s.next, f.0;
    var s' := Block(rs, s.(pts := t), f.1).0;
    if n < |rs| && t >= rs[n].start {
      assert rs[n] in rs;
      assert s'.next == n + 1 && s'.pts == t;
      SplitsHere(rs, n + 1, t);
    } else {
      assert s'.next == n && s'.pts == t;
      SplitsHere(rs, n, t);
    }
  }

  // The same at every frame of a run.
  predicate AlwaysOrdinary(rs: seq<Record>, frames: seq<(real, seq<Outcome>)>) {
    frames != [] ==>
      var before, f := frames[..|frames| - 1], frames[|frames| - 1];
      AlwaysOrdinary(rs, before) && Ordinary(rs, PlayAll(rs, START, before), f)
  }

  predicate AlwaysPassable(rs: seq<Record>, frames: seq<(real, seq<Outcome>)>) {
    frames != [] ==>
      var before, f := frames[..|frames| - 1], frames[|frames| - 1];
      AlwaysPassable(rs, before) && Passable(rs, PlayAll(rs, START, before), f.0)
  }

  predicate AlwaysCaughtUp(rs: seq<Record>, frames: seq<(real, seq<Outcome>)>) {
    CaughtUp(rs, PlayAll(rs, START, frames)) && (frames != [] ==> AlwaysCaughtUp(rs, frames[..|frames| - 1]))
  }

  // Over a run of ordinary playback the player has caught up at every frame, and so its flag is right, if and only if
  // every frame is passable.
  lemma {:induction false} KeepsUpExactly(lines: seq<Line>, frames: seq<(real, seq<Outcome>)>)
    requires var ivs := Accepted(lines);
             MutesAndSkips(ivs) && AlwaysOrdinary(Layout(ivs), frames) && forall r :: r in Layout(ivs) ==> r.stop > 0.0
    ensures var rs := Layout(Accepted(lines));
            && (AlwaysCaughtUp(rs, frames) <==> AlwaysPassable(rs, frames))
            && (AlwaysPassable(rs, frames) ==> PlayAll(rs, START, frames).seeking)
    decreases |frames|
  {
    var ivs := Accepted(lines);
    AcceptedDisjoint(lines);
    StartsCaughtUp(Layout(ivs));
    hide Layout, Accepted, Disjoint, Block, Passable, CaughtUp, Ordinary;
    if frames != [] {
      var before, f := frames[..|frames| - 1], frames[|frames| - 1];
      KeepsUpExactly(lines, before);
      if AlwaysPassable(Layout(ivs), before) {
        FrameKeepsUp(ivs, PlayAll(Layout(ivs), START, before), f);
      }
    }
  }

  lemma StartsCaughtUp(rs: seq<Record>)
    requires forall r :: r in rs ==> r.stop > 0.0
    ensures CaughtUp(rs, START) && START.seeking
  {
  }

  // The accepted lines are mutes that start after time 0, last d or longer, and are d or longer apart.
  ghost predicate Spaced(ivs: seq<Interval>, d: real) {
    && (forall i :: 0 <= i < |ivs| ==>
          ivs[i].action == EDL_MUTE && ivs[i].start > 0.0 && ivs[i].stop - ivs[i].start >= d)
    && (forall i :: 0 < i < |ivs| ==> ivs[i].start - ivs[i - 1].stop >= d)
  }

  lemma {:induction false} SpacedLayout(ivs: seq<Interval>, d: real)
    requires Disjoint(ivs) && Spaced(ivs, d)
    ensures SpacedRecords(Layout(ivs), d)
  {
    if ivs != [] {
      var k := |ivs| - 1;
      SpacedLayout(ivs[..k], d);
      LastStop(ivs[..k]);
      SpacedConcat(Layout(ivs[..k]), RecordsOf(ivs[k]), d);
    }
  }

  ghost predicate SpacedRecords(rs: seq<Record>, d: real) {
    && (forall i :: 0 <= i < |rs| ==> rs[i].action == EDL_MUTE && rs[i].stop > 0.0)
    && (forall i :: 0 < i < |rs| ==> rs[i].stop - rs[i - 1].stop >= d)
  }

  lemma SpacedConcat(rs: seq<Record>, more: seq<Record>, d: real)
    requires SpacedRecords(rs, d) && SpacedRecords(more, d)
    requires rs != [] && more != [] ==> more[0].stop - rs[|rs| - 1].stop >= d
    ensures SpacedRecords(rs + more, d)
  {
    forall i | 0 < i < |rs + more| ensures (rs + more)[i].stop - (rs + more)[i - 1].stop >= d {
      if i > |rs| {
        assert (rs + more)[i - 1] == more[i - 1 - |rs|];
      }
    }
  }

  // The time of the last frame, 0 before the first one.
  function Clock(frames: seq<(real, seq<Outcome>)>): real {
    if frames == [] then 0.0 else frames[|frames| - 1].0
  }

  // Playback without seeks, with frames no longer than d.
  predicate Steps(frames: seq<(real, seq<Outcome>)>, d: real) {
    frames != [] ==>
      var before, f := frames[..|frames| - 1], frames[|frames| - 1];
      Steps(before, d) && f.1 == [] && 0.0 <= f.0 - Clock(before) <= d
  }

  // When frames are no longer than the mutes and the gaps between them, the flag is right at every frame.
  lemma {:induction false} SpacedMutes(lines: seq<Line>, d: real, frames: seq<(real, seq<Outcome>)>)
    requires Spaced(Accepted(lines), d) && Steps(frames, d)
    ensures var rs := Layout(Accepted(lines)); var s := PlayAll(rs, START, frames);
            && s.pts == Clock(frames) && s.seeking && CaughtUp(rs, s)
            && s.muted == InMute(Accepted(lines), s.pts)
    decreases |frames|
  {
    var ivs := Accepted(lines);
    AcceptedDisjoint(lines);
    MuteParity(lines, frames);
    SpacedLayout(ivs, d);
    StartsCaughtUp(Layout(ivs));
    hide Layout, Accepted, Disjoint, Spaced, InMute, CaughtUp, Block;
    CaughtUpIs(Layout(ivs), PlayAll(Layout(ivs), START, frames));
    if frames != [] {
      var n := |frames| - 1;
      SpacedMutes(lines, d, frames[..n]);
      SpacedFrame(ivs, d, PlayAll(Layout(ivs), START, frames[..n]), frames[n]);
    }
  }

  lemma CaughtUpIs(rs: seq<Record>, s: Play)
    ensures CaughtUp(rs, s) <==> Splits(rs, s.next, s.pts)
  {
  }

  lemma SpacedFrame(ivs: seq<Interval>, d: real, s: Play, f: (real, seq<Outcome>))
    requires Disjoint(ivs) && Spaced(ivs, d) && CaughtUp(Layout(ivs), s) && s.seeking
    requires f.1 == [] && 0.0 <= f.0 - s.pts <= d
    ensures var rs := Layout(ivs); var s' := Block(rs, s.(pts := f.0), f.1).0;
            s'.pts == f.0 && s'.seeking && CaughtUp(rs, s')
  {
    var rs := Layout(ivs);
    SpacedLayout(ivs, d);
    assert s.next < |rs| ==> rs[s.next] in rs;
    hide Layout;
    assert Ordinary(rs, s, f) && Passable(rs, s, f.0);
    hide CaughtUp, Ordinary, Passable, Disjoint;
    FrameKeepsUp(ivs, s, f);
  }

  // A mute shorter than a frame leaves the flag set behind it.
  lemma ShortMuteFails(lines: seq<Line>, frames: seq<(real, seq<Outcome>)>)
    requires lines == [Entry(1.0, 1.5, EDL_MUTE)] && frames == [(0.0, []), (2.0, [])]
    ensures PlayAll(Layout(Accepted(lines)), START, frames).muted && !InMute(Accepted(lines), 2.0)
  {
    var iv := Interval(1.0, 1.5, EDL_MUTE);
    assert lines[..0] == [] && Accepted(lines) == [iv];
    assert [iv][..0] == [] && Layout([iv]) == RecordsOf(iv);
    assert frames[..1] == [(0.0, [])] && frames[..1][..0] == [];
    assert PlayAll(RecordsOf(iv), START, frames[..1]) == START;
  }

  // ----- When the block seeks, and what a seek does

  // The time lies in a skip of the list.
  ghost predicate InSkip(ivs: seq<Interval>, pts: real) {
    exists i :: 0 <= i < |ivs| && ivs[i].action == EDL_SKIP && ivs[i].start <= pts < ivs[i].stop
  }

  // The block asks for a seek: it has none to go on with.
  predicate Asks(rs: seq<Record>, s: Play) {
    Block(rs, s, []).1
  }

  lemma StandsAt(rs: seq<Record>, n: nat, j: nat, pts: real)
    requires Rising(rs) && Splits(rs, n, pts) && j < |rs| && rs[j].start <= pts < rs[j].stop
    ensures n == j
  {
    hide Rising;
    if n < j {
      EndsBefore(rs, n, j);
    }
  }

  lemma EndsBefore(rs: seq<Record>, i: nat, j: nat)
    requires Rising(rs) && i < j < |rs|
    ensures rs[i].stop < rs[j].start
  {
  }

  // A player that has caught up and can seek asks for a seek exactly inside the accepted skips; one that cannot never
  // does.
  lemma SeeksInSkips(ivs: seq<Interval>, s: Play)
    requires Disjoint(ivs) && CaughtUp(Layout(ivs), s)
    ensures Asks(Layout(ivs), s) <==> s.seeking && InSkip(ivs, s.pts)
  {
    var rs := Layout(ivs);
    LayoutRising(ivs);
    hide Layout;
    if s.seeking && InSkip(ivs, s.pts) {
      var i :| 0 <= i < |ivs| && ivs[i].action == EDL_SKIP && ivs[i].start <= s.pts < ivs[i].stop;
      var j := RecordsOfInterval(ivs, i);
      StandsAt(rs, s.next, j, s.pts);
    }
    if Asks(rs, s) {
      var i := IntervalOfRecord(ivs, s.next);
      assert ivs[i].action == EDL_SKIP && ivs[i].start <= s.pts < ivs[i].stop;
    }
  }

  // At the end of the file nothing has changed; where seeking turns out not to be possible the player stops trying;
  // after a seek that goes back the record is passed and not tried again; after one that goes forward the player has
  // caught up with the new time and its flag is the parity there.
  lemma SeekMeans(rs: seq<Record>, s: Play, o: Outcome, rest: seq<Outcome>)
    requires Rising(rs) && Asks(rs, s)
    ensures match o
            case Eof => Block(rs, s, [o] + rest) == (s, true)
            case NoSeek => Block(rs, s, [o] + rest) == (s.(seeking := false), false)
            case Moved(lastPos, pts) =>
              if lastPos >= pts then
                Block(rs, s, [o] + rest) == Block(rs, s.(next := s.next + 1, muted := false, pts := pts), rest)
              else
                exists n: nat :: Splits(rs, n, pts)
                  && Block(rs, s, [o] + rest) == Block(rs, s.(next := n, muted := Parity(rs, n), pts := pts), rest)
  {
    assert ([o] + rest)[0] == o && ([o] + rest)[1..] == rest;
    if o.Moved? && o.lastPos < o.pts {
      ResumeSplits(rs, o.pts, 0, false);
      var (n, m) := Resume(rs, o.pts, 0, false);
      assert Block(rs, s, [o] + rest) == Block(rs, s.(next := n, muted := m, pts := o.pts), rest);
    }
    hide Resume;
  }

  // A mute record that is reached is passed and toggles the flag, one in a frame.
  lemma MuteMeans(rs: seq<Record>, s: Play, seeks: seq<Outcome>)
    requires s.next < |rs| && rs[s.next].action == EDL_MUTE
    ensures Block(rs, s, seeks)
         == if s.pts >= rs[s.next].start then (s.(next := s.next + 1, muted := !s.muted), false) else (s, false)
  {
  }

  // ----- The code

  class Player {
    const records: seq<Record>
    var next: nat
    var muted: bool
    var seeking: bool
    var pts: real

    constructor (records: seq<Record>)
      ensures this.records == records && Value() == START
    {
      this.records := records;
      next, muted, seeking, pts := 0, false, true, 0.0;
    }

    function Value(): Play
      reads this
    {
      Play(next, muted, seeking, pts)
    }

    // The EDL block of the main loop, from the label it jumps back to after a seek.
    method DoFrame(seeks: seq<Outcome>) returns (eof: bool)
      modifies this
      ensures (Value(), eof) == Block(records, old(Value()), seeks)
    {
      var todo := seeks;
      while true
        invariant Block(records, Value(), todo) == Block(records, old(Value()), seeks)
        decreases |todo|
      {
        if !(next < |records| && pts >= records[next].start) {
          return false;
        }
        if records[next].action == EDL_SKIP && seeking {
          if todo == [] {
            return true;
          }
          var result := todo[0];
          todo := todo[1..];
          match result {
            case Eof => return true;
            case NoSeek =>
              seeking := false;
              return false;
            case Moved(lastPos, newPts) =>
              pts, muted := newPts, false;
              if lastPos >= pts {
                next := next + 1;
              } else {
                Rescan();
              }
          }
        } else {
          if records[next].action == EDL_MUTE {
            muted := !muted;
            next := next + 1;
          }
          return false;
        }
      }
    }

    method Rescan()
      modifies this`next, this`muted
      ensures (next, muted) == Resume(records, pts, 0, old(muted))
    {
      next := 0;
      while next < |records|
        invariant next <= |records|
        invariant Resume(records, pts, next, muted) == Resume(records, pts, 0, old(muted))
      {
        if records[next].stop > pts {
          break;
        }
        if records[next].action == EDL_MUTE {
          muted := !muted;
        }
        next := next + 1;
      }
    }
  }
}
