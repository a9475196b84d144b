/**
 The subtitle lookup of find_sub.c: the subtitle on display, a cached gap, a try
 of the next subtitle and a binary search, against a linear scan of the table.
 */
module FindSub {
  import opened Wrappers

  datatype Subtitle = Subtitle(start: int, end: int)

  const MAXINT := 0x7FFFFFFF

  // The lookup key is an int; the times of a subtitle are unsigned longs.
  type Int = k: int | -MAXINT - 1 <= k <= MAXINT

  // The key as C compares it with a time.
  function Unsigned(key: Int): nat {
    key % 0x1_0000_0000
  }

  // A table is known by its address.
  class SubData {
    const subs: seq<Subtitle>
    const usesTime: bool

    constructor (subs: seq<Subtitle>, usesTime: bool)
      ensures this.subs == subs && this.usesTime == usesTime
    {
      this.subs, this.usesTime := subs, usesTime;
    }
  }

  // Sorted, disjoint, after time 0, and with times a key can have.
  ghost predicate Sorted(subs: seq<Subtitle>) {
    && (forall i :: 0 <= i < |subs| ==> 1 <= subs[i].start <= subs[i].end <= MAXINT)
    && (forall i, j :: 0 <= i < j < |subs| ==> subs[i].end < subs[j].start)
  }

  predicate Covers(s: Subtitle, key: int) {
    s.start <= key <= s.end
  }

  // The linear scan.
  function Scan(subs: seq<Subtitle>, key: int, i: nat := 0): (r: Option<nat>)
    requires i <= |subs|
    ensures r.Some? ==> i <= r.value < |subs| && Covers(subs[r.value], key)
    ensures r.None? ==> forall k :: i <= k < |subs| ==> !Covers(subs[k], key)
    decreases |subs| - i
  {
    if i == |subs| then None else if Covers(subs[i], key) then Some(i) else Scan(subs, key, i + 1)
  }

  lemma ScanFinds(subs: seq<Subtitle>, key: int, i: nat)
    requires Sorted(subs) && i < |subs| && Covers(subs[i], key)
    ensures Scan(subs, key) == Some(i)
  {
    forall k | 0 <= k < |subs| && k != i ensures !Covers(subs[k], key) {
      assert if k < i then subs[k].end < subs[i].start else subs[i].end < subs[k].start;
    }
  }

  // A subtitle is on display from its start to its end, both included.
  lemma ScanMeans(subs: seq<Subtitle>, key: int)
    ensures match Scan(subs, key)
            case Some(i) => i < |subs| && subs[i].start <= key <= subs[i].end
            case None => forall k :: 0 <= k < |subs| ==> key < subs[k].start || subs[k].end < key
  {
    assert Scan(subs, key).None? ==> forall k :: 0 <= k < |subs| ==> !Covers(subs[k], key);
  }

  // No subtitle has a part between lo and hi.
  ghost predicate Gap(subs: seq<Subtitle>, lo: int, hi: int) {
    forall key :: lo < key < hi ==> Scan(subs, key).None?
  }

  // Between subtitle i and the next one, with no bound where there is no subtitle.
  lemma GapBetween(subs: seq<Subtitle>, i: int, lo: int, hi: int)
    requires Sorted(subs) && -1 <= i < |subs|
    requires i >= 0 ==> subs[i].end <= lo
    requires i + 1 < |subs| ==> hi <= subs[i + 1].start
    ensures Gap(subs, lo, hi)
  {
    forall key | lo < key < hi ensures Scan(subs, key).None? {
      forall k | 0 <= k < |subs| ensures !Covers(subs[k], key) {
        assert k < i ==> subs[k].end < subs[i].start;
        assert k > i + 1 ==> subs[i + 1].end < subs[k].start;
      }
    }
  }

  lemma InGap(subs: seq<Subtitle>, lo: int, hi: int, key: int)
    requires Gap(subs, lo, hi) && lo < key < hi
    ensures Scan(subs, key) == None
  {
  }

  lemma NothingBefore(subs: seq<Subtitle>, key: int)
    requires Sorted(subs) && key <= 0
    ensures Scan(subs, key) == None
  {
    assert forall k :: 0 <= k < |subs| ==> !Covers(subs[k], key);
  }

  // How many subtitles have started at the key, and how many have ended.
  ghost function Started(subs: seq<Subtitle>, key: int): (a: nat)
    requires Sorted(subs)
    ensures a <= |subs| && forall i :: 0 <= i < |subs| ==> (subs[i].start <= key <==> i < a)
  {
    if subs == [] || subs[|subs| - 1].start <= key then |subs| else Started(subs[..|subs| - 1], key)
  }

  ghost function Ended(subs: seq<Subtitle>, key: int): (b: nat)
    requires Sorted(subs)
    ensures b <= |subs| && forall i :: 0 <= i < |subs| ==> (subs[i].end <= key <==> i < b)
  {
    if subs == [] || subs[|subs| - 1].end <= key then |subs| else Ended(subs[..|subs| - 1], key)
  }

  // The subtitle beside the key: the last one that has started, or the first one.
  ghost predicate Beside(subs: seq<Subtitle>, cur: nat, key: int) {
    && cur < |subs|
    && (cur > 0 ==> subs[cur].start <= key)
    && (cur + 1 < |subs| ==> key < subs[cur + 1].start)
  }

  lemma BesideCounts(subs: seq<Subtitle>, cur: nat, key: int)
    requires Sorted(subs) && subs != []
    ensures Beside(subs, cur, key) <==> cur == if Started(subs, key) == 0 then 0 else Started(subs, key) - 1
  {
  }

  // floor(log2 n)
  function Log2(n: nat): nat
    requires n >= 1
  {
    if n == 1 then 0 else 1 + Log2(n / 2)
  }

  lemma {:induction false} Log2Mono(m: nat, n: nat)
    requires 1 <= m <= n
    ensures Log2(m) <= Log2(n)
    decreases n
  {
    if m > 1 {
      Log2Mono(m / 2, n / 2);
    }
  }

  // Log2 is the logarithm: 2^Log2(n) <= n < 2^(Log2(n) + 1).
  function Pow2(k: nat): nat {
    if k == 0 then 1 else 2 * Pow2(k - 1)
  }

  lemma {:induction false} Log2Bounds(n: nat)
    requires n >= 1
    ensures Pow2(Log2(n)) <= n < Pow2(Log2(n) + 1)
  {
    if n > 1 {
      Log2Bounds(n / 2);
    }
  }

  // How many more probes a search of n subtitles can take.
  function Probes(n: nat): nat {
    if n == 0 then 0 else Log2(n) + 1
  }

  lemma FewerProbes(n: nat, m: nat)
    requires m <= n / 2 && n >= 1
    ensures 1 + Probes(m) <= Probes(n)
  {
    if m > 0 {
      Log2Mono(m, n / 2);
    }
  }

  // The search loop: the last subtitle probed, which covers the key or borders on its gap.
  method Search(subs: seq<Subtitle>, key: int) returns (cur: nat, found: bool, ghost probes: nat)
    requires Sorted(subs) && subs != []
    ensures cur < |subs|
    ensures found <==> Covers(subs[cur], key)
    ensures !found && key < subs[cur].start ==> cur > 0 ==> subs[cur - 1].end < key
    ensures !found && key >= subs[cur].start ==> key > subs[cur].end && (cur + 1 < |subs| ==> key < subs[cur + 1].start)
    ensures probes <= Log2(|subs|) + 1
  {
    assert Probes(|subs|) == Log2(|subs|) + 1;
    hide Probes, Log2;
    var i, j := 0, |subs| - 1;
    cur, probes := 0, 0;
    while j >= i
      invariant 0 <= i <= j + 1 <= |subs| && cur < |subs|
      invariant forall k :: 0 <= k < i ==> subs[k].end < key
      invariant forall k :: j < k < |subs| ==> key < subs[k].start
      invariant probes > 0 || (i == 0 && j == |subs| - 1)
      invariant probes > 0 ==> cur == i - 1 || cur == j + 1
      invariant probes + Probes(j - i + 1) <= Probes(|subs|)
      decreases j - i
    {
      ghost var n := j - i + 1;
      cur, probes := (i + j + 1) / 2, probes + 1;
      if key < subs[cur].start {
        j := cur - 1;
      } else if key > subs[cur].end {
        i := cur + 1;
      } else {
        found := true;
        return;
      }
      FewerProbes(n, j - i + 1);
      forall k | 0 <= k < |subs| && k != cur
        ensures (k < cur ==> subs[k].end < subs[cur].start) && (k > cur ==> subs[cur].end < subs[k].start)
      {
      }
    }
    found := false;
  }

  class Finder {
    var current: nat              // current_sub
    var gapStart: int             // nosub_range_start
    var gapEnd: int               // nosub_range_end
    var last: SubData?            // last_sub_data
    var shown: Option<nat>        // vo_sub, as an index into the last table
    var delay: real               // sub_delay

    // What every lookup keeps: the cached gap holds no subtitle, and the subtitle on display is of the last table.
    ghost predicate Valid()
      reads this
    {
      && (last != null ==> Gap(last.subs, gapStart, gapEnd))
      && (last == null ==> shown == None && gapStart == -1 && gapEnd == -1)
      && (shown.Some? ==> shown.value < |last.subs|)
    }

    constructor ()
      ensures Valid() && shown == None && current == 0
    {
      current, gapStart, gapEnd, last, shown, delay := 0, -1, -1, null, None, 0.0;
    }

    // What is remembered answers the lookup, or there is nothing before time 0.
    ghost predicate Remembered(subd: SubData, key: int)
      requires Valid() && (shown.Some? ==> last == subd)
      reads this
    {
      || key <= 0
      || (shown.Some? && Covers(subd.subs[shown.value], key))
      || (shown.None? && last == subd && gapStart < key < gapEnd)
    }

    // The current subtitle is the one on display, or with nothing on display it is beside the cached gap.
    ghost predicate Aligned()
      requires Valid()
      reads this
    {
      match shown
      case Some(i) => current == i
      case None => last != null ==> forall key :: gapStart < key < gapEnd ==> Beside(last.subs, current, key)
    }

    // After any lookup in a table that is not empty, what is on display is what a linear scan finds.  A change of
    // table arrives with nothing on display.  A lookup that is not answered by what is remembered leaves the current
    // subtitle beside the key; the others leave it where it was, which is beside the key as long as a lookup up to
    // time 0 did not take a subtitle off the display.
    method Find(subd: SubData, key: Int)
      requires Valid() && Sorted(subd.subs)
      requires shown.Some? ==> last == subd
      modifies this`current, this`gapStart, this`gapEnd, this`last, this`shown
      ensures Valid()
      ensures if subd.subs == [] then unchanged(this) else last == subd && shown == Scan(subd.subs, key)
      ensures subd.subs != [] ==>
        if old(Remembered(subd, key)) then
          && current == old(current)
          && (gapStart, gapEnd) == if old(last) == subd then old((gapStart, gapEnd)) else (-1, -1)
        else
          && Beside(subd.subs, current, key)
          && if shown.Some? then (gapStart, gapEnd) == if old(last) == subd then old((gapStart, gapEnd)) else (-1, -1)
             else gapStart < key && (key < MAXINT ==> key < gapEnd)
      ensures subd.subs != [] && (old(last) != subd || (old(Aligned()) && (key > 0 || old(shown).None?))) ==>
        Aligned() && (key > 0 ==> Beside(subd.subs, current, key))
    {
      hide Scan, Sorted, Gap, Beside, Unsigned;
      var subs := subd.subs;
      if |subs| == 0 {
        return;
      }
      if last != subd {
        last, gapStart, gapEnd := subd, -1, -1;
        EmptyGap(subs);
      }
      if shown.Some? {
        InTable(subs, shown.value, key);
        if subs[shown.value].start <= Unsigned(key) && Unsigned(key) <= subs[shown.value].end {
          ScanFinds(subs, key, shown.value);
          CoveredBeside(subs, shown.value, key);
          return;
        }
      } else if key > gapStart && key < gapEnd {
        InGap(subs, gapStart, gapEnd, key);
        return;
      }
      if key <= 0 {
        shown := None;
        NothingBefore(subs, key);
        return;
      }
      Seek(key);
    }

    // The part of a lookup that looks at the table: the next subtitle, the search, and where the search ended.
    method Seek(key: Int)
      requires Valid() && last != null && Sorted(last.subs) && last.subs != [] && key > 0
      modifies this`current, this`gapStart, this`gapEnd, this`shown
      ensures Valid() && Aligned()
      ensures shown == Scan(last.subs, key) && Beside(last.subs, current, key)
      ensures if shown.Some? then gapStart == old(gapStart) && gapEnd == old(gapEnd)
              else gapStart < key && (key < MAXINT ==> key < gapEnd)
    {
      hide Scan, Sorted, Gap, Beside;
      var subs := last.subs;
      // check the next one
      if current + 1 < |subs| {
        if key > subs[current].end && key < subs[current + 1].start {
          CacheGap(current, subs[current].end, subs[current + 1].start, key);
          return;
        }
        current := current + 1;
        if key >= subs[current].start && key <= subs[current].end {
          Show(key);
          return;
        }
      }
      var found; ghost var probes;
      current, found, probes := Search(subs, key);
      if found {
        Show(key);
        return;
      }
      if key < subs[current].start {
        if current <= 0 {
          CacheGap(-1, key - 1, subs[current].start, key);
          return;
        }
        current := current - 1;
        if key > subs[current].end && key < subs[current + 1].start {
          CacheGap(current, subs[current].end, subs[current + 1].start, key);
          return;
        }
      } else {
        if current + 1 >= |subs| {
          GapBetween(subs, current, subs[current].end, key + 1);
          InGap(subs, subs[current].end, key + 1, key);
          CacheGap(current, subs[current].end, MAXINT, key);
          return;
        }
        if key > subs[current].end && key < subs[current + 1].start {
          CacheGap(current, subs[current].end, subs[current + 1].start, key);
          return;
        }
      }
      assert false; // SUB ERROR
    }

    // A negative key is above every time when compared as unsigned, so it covers no more than a positive one.
    lemma InTable(subs: seq<Subtitle>, i: nat, key: Int)
      requires Sorted(subs) && i < |subs|
      ensures Covers(subs[i], key) <==> subs[i].start <= Unsigned(key) <= subs[i].end
    {
    }

    lemma CoveredBeside(subs: seq<Subtitle>, i: nat, key: int)
      requires Sorted(subs) && i < |subs| && Covers(subs[i], key)
      ensures Beside(subs, i, key)
    {
      assert i + 1 < |subs| ==> subs[i].end < subs[i + 1].start;
    }

    // Display the current subtitle.
    method Show(key: int)
      requires last != null && Sorted(last.subs) && current < |last.subs| && Covers(last.subs[current], key)
      requires Gap(last.subs, gapStart, gapEnd)
      modifies this`shown
      ensures Valid() && shown == Some(current) == Scan(last.subs, key)
      ensures Beside(last.subs, current, key)
    {
      shown := Some(current);
      ScanFinds(last.subs, key, current);
      CoveredBeside(last.subs, current, key);
    }

    // Nothing to display; remember the gap around the key, between subtitle i and the next one.
    method CacheGap(i: int, lo: int, hi: int, key: int)
      requires last != null && Sorted(last.subs) && last.subs != [] && -1 <= i < |last.subs|
      requires i >= 0 ==> last.subs[i].end <= lo
      requires i + 1 < |last.subs| ==> hi <= last.subs[i + 1].start
      modifies this`gapStart, this`gapEnd, this`shown
      ensures Valid() && shown == None && gapStart == lo && gapEnd == hi
      ensures lo < key < hi ==> Scan(last.subs, key) == None
      ensures current == (if i < 0 then 0 else i) ==>
        Aligned() && (lo < key && (i + 1 < |last.subs| ==> key < hi) ==> Beside(last.subs, current, key))
    {
      gapStart, gapEnd, shown := lo, hi, None;
      GapBetween(last.subs, i, lo, hi);
      var cur := if i < 0 then 0 else i;
      forall k | lo < k < hi || (lo < k && i + 1 == |last.subs|) ensures Beside(last.subs, cur, k) {
        GapBeside(last.subs, i, lo, hi, k);
      }
    }

    static lemma GapBeside(subs: seq<Subtitle>, i: int, lo: int, hi: int, key: int)
      requires Sorted(subs) && subs != [] && -1 <= i < |subs| && lo < key && (i + 1 < |subs| ==> key < hi)
      requires i >= 0 ==> subs[i].end <= lo
      requires i + 1 < |subs| ==> hi <= subs[i + 1].start
      ensures Beside(subs, if i < 0 then 0 else i, key)
    {
      assert i < 0 && |subs| > 1 ==> subs[0].end < subs[1].start;
    }

    lemma EmptyGap(subs: seq<Subtitle>)
      ensures Gap(subs, -1, -1)
    {
    }

    // Any sequence of lookups, in any tables, shows one after the other what the scans find.  Nothing is on display
    // when a new table arrives.  As long as all keys are positive, the current subtitle stays beside them.
    method FindAll(tables: seq<SubData>, keys: seq<Int>) returns (display: seq<Option<nat>>)
      requires Valid() && |tables| == |keys|
      requires forall i :: 0 <= i < |tables| ==> Sorted(tables[i].subs) && tables[i].subs != []
      modifies this
      ensures Valid() && |display| == |keys|
      ensures forall i :: 0 <= i < |keys| ==> display[i] == Scan(tables[i].subs, keys[i])
      ensures old(Aligned()) && keys != [] && (forall i :: 0 <= i < |keys| ==> keys[i] > 0) ==>
        Aligned() && Beside(tables[|keys| - 1].subs, current, keys[|keys| - 1])
    {
      hide Scan, Gap, Sorted, Beside;
      display := [];
      for i := 0 to |keys|
        invariant Valid()
        invariant old(Aligned()) && (forall k :: 0 <= k < i ==> keys[k] > 0) ==>
          Aligned() && (i > 0 ==> Beside(tables[i - 1].subs, current, keys[i - 1]))
        invariant |display| == i && forall k :: 0 <= k < i ==> display[k] == Scan(tables[k].subs, keys[k])
      {
        if last != tables[i] {
          shown := None;
        }
        Find(tables[i], keys[i]);
        display := display + [shown];
      }
    }

    // C's conversion of a real to an int.
    static function Trunc(x: real): int {
      if x >= 0.0 then x.Floor else -(-x).Floor
    }

    // The whole part, towards 0.
    static lemma TruncMeans(x: real)
      ensures var t := Trunc(x) as real; if x >= 0.0 then t <= x < t + 1.0 else t - 1.0 < x <= t
    {
    }

    static function Rate(subd: SubData, fps: real): real {
      if subd.usesTime then 100.0 else fps
    }

    // The lookup key of a time.
    static function Key(subd: SubData, pts: real, delay: real, fps: real): int {
      Trunc((pts + delay) * Rate(subd, fps))
    }

    // Times count in hundredths of a second or in frames, behind the delay.
    static lemma KeyMeans(subd: SubData, pts: real, delay: real, fps: real)
      ensures var t := if subd.usesTime then (pts + delay) * 100.0 else (pts + delay) * fps;
              var k := Key(subd, pts, delay, fps) as real;
              if t >= 0.0 then k <= t < k + 1.0 else k - 1.0 < t <= k
    {
      var t := if subd.usesTime then (pts + delay) * 100.0 else (pts + delay) * fps;
      KeyIs(subd, pts, delay, fps, t);
      TruncMeans(t);
      hide Trunc, Key;
    }

    static function Times(x: real, m: real): real {
      x * m
    }

    static lemma KeyIs(subd: SubData, pts: real, delay: real, fps: real, t: real)
      requires t == if subd.usesTime then (pts + delay) * 100.0 else (pts + delay) * fps
      ensures Key(subd, pts, delay, fps) == Trunc(t)
    {
      assert Key(subd, pts, delay, fps) == Trunc(Times(pts + delay, Rate(subd, fps)));
      assert t == Times(pts + delay, if subd.usesTime then 100.0 else fps);
      hide Trunc, Times, Key;
    }

    // step_sub: the index stays in the table, and the new delay makes the lookup key the start of the new current
    // subtitle.
    method Step(subd: SubData, pts: real, movement0: int, fps: real)
      requires current < |subd.subs| && fps > 0.0
      requires -MAXINT - 1 <= Key(subd, pts, delay, fps) <= MAXINT
      modifies this`current, this`delay
      ensures current < |subd.subs|
      ensures current == StepTarget(subd, old(current), Key(subd, pts, old(delay), fps), movement0)
      ensures Key(subd, pts, delay, fps) == subd.subs[current].start
    {
      var subs, movement := subd.subs, movement0;
      var key: Int := Trunc((pts + delay) * Rate(subd, fps));
      if movement > 0 && Unsigned(key) < subs[current].start {
        movement := movement - 1;
      }
      if movement < 0 && Unsigned(key) >= subs[current].end {
        movement := movement + 1;
      }
      if current + movement < 0 {
        movement := 0 - current;
      }
      if current + movement >= |subs| {
        movement := |subs| - current - 1;
      }
      current := current + movement;
      delay := subs[current].start as real / Rate(subd, fps) - pts;
      KeyOfStart(subs[current].start, pts, Rate(subd, fps));
    }

    static lemma KeyOfStart(start: int, pts: real, rate: real)
      requires rate > 0.0
      ensures Trunc((pts + (start as real / rate - pts)) * rate) == start
    {
      var t := start as real / rate;
      assert pts + (t - pts) == t;
      Quotient(start as real, rate);
      assert t * rate == start as real;
    }

    static lemma Quotient(x: real, y: real)
      requires y != 0.0
      ensures x / y * y == x
    {
    }

    // Where a step goes, by the comparisons the code makes, and held inside the table.
    static function StepTarget(subd: SubData, cur: nat, key: Int, movement: int): int
      requires cur < |subd.subs|
    {
      var s := subd.subs[cur];
      var m := if movement > 0 && Unsigned(key) < s.start then movement - 1
               else if movement < 0 && Unsigned(key) >= s.end then movement + 1 else movement;
      if cur + m < 0 then 0 else if cur + m >= |subd.subs| then |subd.subs| - 1 else cur + m
    }

    // The k-th subtitle that starts after the key, or the last one.
    static ghost function KthAfter(subs: seq<Subtitle>, key: int, k: nat): nat
      requires Sorted(subs) && subs != [] && k > 0
    {
      var a := Started(subs, key);
      if a + k <= |subs| then a + k - 1 else |subs| - 1
    }

    // The k-th last subtitle that has ended at the key, or the first one.
    static ghost function KthBefore(subs: seq<Subtitle>, key: int, k: nat): nat
      requires Sorted(subs) && subs != [] && k > 0
    {
      var b := Ended(subs, key);
      if b >= k then b - k else 0
    }

    // k steps forward go to the k-th subtitle that starts after the key if and only if the key is not negative and
    // the current subtitle is the last one that has started or the one after it, or both ways run past the end.
    static lemma StepForward(subd: SubData, cur: nat, key: Int, k: nat)
      requires Sorted(subd.subs) && cur < |subd.subs| && k > 0
      ensures var n, a := |subd.subs|, Started(subd.subs, key);
              var ahead := if key >= 0 && cur >= a then 1 else 0;
              StepTarget(subd, cur, key, k) == KthAfter(subd.subs, key, k)
              <==> (key >= 0 && (cur == a || cur + 1 == a)) || (cur + k - ahead >= n - 1 && a + k >= n)
    {
      assert subd.subs[cur].start <= key <==> cur < Started(subd.subs, key);
      assert Started(subd.subs, key) > 0 ==> subd.subs[0].start <= key;
    }

    // Backward, by the subtitles that have ended at the key.
    static lemma StepBackward(subd: SubData, cur: nat, key: Int, k: nat)
      requires Sorted(subd.subs) && cur < |subd.subs| && k > 0
      ensures var b := Ended(subd.subs, key);
              var behind := if key < 0 || cur < b then 1 else 0;
              StepTarget(subd, cur, key, 0 - k) == KthBefore(subd.subs, key, k)
              <==> (key >= 0 && (cur == b || cur + 1 == b)) || (cur + behind <= k && b <= k)
    {
      assert subd.subs[cur].end <= key <==> cur < Ended(subd.subs, key);
      assert Ended(subd.subs, key) > 0 ==> subd.subs[0].end <= key;
    }

    // A subtitle beside the key is one from which the steps are counted right.
    static lemma BesideSteps(subd: SubData, cur: nat, key: Int, k: nat)
      requires Sorted(subd.subs) && Beside(subd.subs, cur, key) && key >= 0 && k > 0
      ensures StepTarget(subd, cur, key, k) == KthAfter(subd.subs, key, k)
      ensures StepTarget(subd, cur, key, 0 - k) == KthBefore(subd.subs, key, k)
    {
      var a, b := Started(subd.subs, key), Ended(subd.subs, key);
      BesideCounts(subd.subs, cur, key);
      StepForward(subd, cur, key, k);
      StepBackward(subd, cur, key, k);
      assert b > 0 ==> subd.subs[b - 1].start <= key;
      assert a > 1 ==> subd.subs[a - 2].end < subd.subs[a - 1].start;
    }

    // The comparison of the key as an unsigned number: a negative key counts a step from the subtitle on display only
    // where the table ends.
    static lemma StepSign(subd: SubData, cur: nat, key: Int, movement: int)
      requires Sorted(subd.subs) && cur < |subd.subs|
      ensures var s := subd.subs[cur];
              var m := if movement > 0 && key < s.start then movement - 1
                       else if movement < 0 && key >= s.end then movement + 1 else movement;
              StepTarget(subd, cur, key, movement)
              == (if cur + m < 0 then 0 else if cur + m >= |subd.subs| then |subd.subs| - 1 else cur + m)
              <==> key >= 0 || movement == 0 || cur + movement >= |subd.subs| || cur + movement < 0
    {
    }

    // With the key before the first of two subtitles, a step forward must show the first one; at a negative key it
    // shows the second.
    static lemma NegativeKeyFails(subd: SubData)
      requires subd.subs == [Subtitle(1, 9), Subtitle(20, 29)]
      ensures Beside(subd.subs, 0, -100)
      ensures KthAfter(subd.subs, -100, 1) == 0 && StepTarget(subd, 0, -100, 1) == 1
    {
      assert Started(subd.subs, -100) == 0;
    }

    // A lookup that finds the finder aligned, and then a step, go to the k-th subtitle after or before the key.
    method FindThenStep(subd: SubData, pts: real, k: nat, forward: bool, fps: real)
      requires Valid() && Sorted(subd.subs) && subd.subs != [] && fps > 0.0 && k > 0
      requires shown.Some? ==> last == subd
      requires Aligned() && 0 < Key(subd, pts, delay, fps) <= MAXINT
      modifies this
      ensures var key := old(Key(subd, pts, delay, fps));
              current == if forward then KthAfter(subd.subs, key, k) else KthBefore(subd.subs, key, k)
    {
      var key: Int := Key(subd, pts, delay, fps);
      Find(subd, key);
      BesideSteps(subd, current, key, k);
      Step(subd, pts, if forward then k else 0 - k, fps);
    }

    // What breaks the alignment: subtitles 0 and 2 are looked up, then time 0, then the gap after subtitle 0.  The
    // cached gap answers, and the current subtitle is still the last one, so a step forward skips the middle one and a
    // step backward goes ahead.
    static method StaleGap() returns (finder: Finder, subd: SubData)
      ensures subd.subs == [Subtitle(1, 9), Subtitle(20, 29), Subtitle(50, 59)]
      ensures finder.Valid() && finder.last == subd && finder.shown == None && finder.current == 2
      ensures KthAfter(subd.subs, 15, 1) == 1 && StepTarget(subd, finder.current, 15, 1) == 2
      ensures KthBefore(subd.subs, 15, 1) == 0 && StepTarget(subd, finder.current, 15, -1) == 1
    {
      hide Gap, Sorted, Scan, Beside, Started, Ended, StepTarget, KthAfter, KthBefore;
      subd := new SubData([Subtitle(1, 9), Subtitle(20, 29), Subtitle(50, 59)], true);
      StaleTable(subd.subs);
      finder := new Finder();
      finder.Find(subd, 15);
      if finder.gapStart < 55 < finder.gapEnd {
        InGap(subd.subs, finder.gapStart, finder.gapEnd, 55);
      }
      finder.Find(subd, 55);
      finder.Find(subd, 0);
      finder.Find(subd, 15);
      StaleTargets(subd);
    }

    static lemma StaleTable(subs: seq<Subtitle>)
      requires subs == [Subtitle(1, 9), Subtitle(20, 29), Subtitle(50, 59)]
      ensures Sorted(subs) && Scan(subs, 15) == None && Scan(subs, 55) == Some(2) && Scan(subs, 0) == None
      ensures forall cur :: Beside(subs, cur, 55) ==> cur == 2
    {
      ScanFinds(subs, 55, 2);
    }

    static lemma StaleTargets(subd: SubData)
      requires subd.subs == [Subtitle(1, 9), Subtitle(20, 29), Subtitle(50, 59)]
      ensures KthAfter(subd.subs, 15, 1) == 1 && StepTarget(subd, 2, 15, 1) == 2
      ensures KthBefore(subd.subs, 15, 1) == 0 && StepTarget(subd, 2, 15, -1) == 1
    {
      assert subd.subs[0].start <= 15 < subd.subs[1].start && subd.subs[0].end <= 15 < subd.subs[1].end;
    }

    // A step followed by the lookup at the recomputed key displays the subtitle stepped to.
    method StepThenFind(subd: SubData, pts: real, movement: int, fps: real) returns (target: nat)
      requires Valid() && Sorted(subd.subs) && current < |subd.subs| && fps > 0.0
      requires -MAXINT - 1 <= Key(subd, pts, delay, fps) <= MAXINT
      requires shown.Some? ==> last == subd
      modifies this
      ensures Valid()
      ensures target == StepTarget(subd, old(current), Key(subd, pts, old(delay), fps), movement)
      ensures shown == Some(target)
    {
      Step(subd, pts, movement, fps);
      target := current;
      var key: Int := Key(subd, pts, delay, fps);
      ScanFinds(subd.subs, key, target);
      Find(subd, key);
    }
  }
}
