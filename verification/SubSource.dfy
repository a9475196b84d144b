/**
 Choosing a subtitle by stepping (command.c): one number counts the subtitles of
 all sources, each source starting at its own index; -1 is off.
 */
module SubSource {

  const SUB_SOURCES: nat := 3

  // ----- Which source a position belongs to

  predicate Candidate(ind: seq<int>, pos: int, i: int) {
    0 <= i < |ind| && 0 <= ind[i] <= pos
  }

  // The source with the greatest index not above pos, the first one among equals; -1 when there is none.
  ghost predicate IsSource(ind: seq<int>, pos: int, s: int) {
    if s == -1 then forall i :: !Candidate(ind, pos, i)
    else Candidate(ind, pos, s)
         && forall i :: Candidate(ind, pos, i) ==> ind[i] < ind[s] || (ind[i] == ind[s] && s <= i)
  }

  // sub_source_by_pos on the first n sources.
  function Best(ind: seq<int>, pos: int, n: nat): (r: int)
    requires n <= |ind|
    ensures r == -1 || 0 <= r < n
  {
    if n == 0 then -1
    else
      var s, j := Best(ind, pos, n - 1), ind[n - 1];
      if j >= 0 && j > (if s == -1 then -1 else ind[s]) && pos >= j then n - 1 else s
  }

  function Source(ind: seq<int>, pos: int): (r: int)
    ensures r == -1 || 0 <= r < |ind|
  {
    Best(ind, pos, |ind|)
  }

  lemma {:induction false} BestIs(ind: seq<int>, pos: int, n: nat)
    requires n <= |ind|
    ensures var s := Best(ind, pos, n);
            if s == -1 then forall i :: 0 <= i < n ==> !Candidate(ind, pos, i)
            else s < n && Candidate(ind, pos, s)
                 && forall i :: 0 <= i < n && Candidate(ind, pos, i) ==> ind[i] < ind[s] || (ind[i] == ind[s] && s <= i)
  {
    if n > 0 {
      BestIs(ind, pos, n - 1);
    }
  }

  lemma SourceIs(ind: seq<int>, pos: int, s: int)
    ensures Source(ind, pos) == s <==> IsSource(ind, pos, s)
  {
    BestIs(ind, pos, |ind|);
    var r := Source(ind, pos);
    assert r != -1 ==> Candidate(ind, pos, r);
    assert IsSource(ind, pos, s) && s != -1 ==> Candidate(ind, pos, s);
  }

  // No position before its index belongs to a source, and none from the index of a later one on.
  lemma SourceMeans(ind: seq<int>, pos: int)
    ensures var s := Source(ind, pos);
            if s == -1 then forall i :: 0 <= i < |ind| ==> ind[i] < 0 || pos < ind[i]
            else
              && s < |ind| && 0 <= ind[s] <= pos
              && (forall i :: 0 <= i < |ind| && ind[s] < ind[i] ==> pos < ind[i])
              && (forall i :: 0 <= i < s ==> ind[i] != ind[s])
  {
    BestIs(ind, pos, |ind|);
    assert forall i :: 0 <= i < |ind| ==> (Candidate(ind, pos, i) <==> 0 <= ind[i] <= pos);
  }

  // The positions of a source are those from its index up to the next greater index.
  predicate Cut(ind: seq<int>, offset: int, p: int) {
    exists i :: 0 <= i < |ind| && offset < ind[i] <= p
  }

  lemma SourceFrom(ind: seq<int>, s: nat, p: int)
    requires s < |ind| && ind[s] >= 0 && Source(ind, ind[s]) == s && p >= ind[s]
    ensures Source(ind, p) == s <==> !Cut(ind, ind[s], p)
  {
    SourceIs(ind, ind[s], s);
    SourceIs(ind, p, s);
    if !Cut(ind, ind[s], p) {
      forall i | Candidate(ind, p, i) ensures ind[i] < ind[s] || (ind[i] == ind[s] && s <= i) {
        assert Candidate(ind, ind[s], i);
      }
    } else {
      var i :| 0 <= i < |ind| && ind[s] < ind[i] <= p;
      assert Candidate(ind, p, i);
    }
  }

  // How many positions below size belong to the source s, counted from its index on.
  function BlockFrom(ind: seq<int>, s: nat, p: int, size: int): nat
    requires s < |ind|
    decreases size - p
  {
    if p >= size || Source(ind, p) != s then 0 else 1 + BlockFrom(ind, s, p + 1, size)
  }

  function Block(ind: seq<int>, s: nat, size: int): nat
    requires s < |ind|
  {
    BlockFrom(ind, s, ind[s], size)
  }

  lemma {:induction false} BlockFromIs(ind: seq<int>, s: nat, p: int, size: int)
    requires s < |ind| && ind[s] >= 0 && Source(ind, ind[s]) == s && ind[s] <= p <= size
    ensures p + BlockFrom(ind, s, p, size) <= size
    ensures forall q :: p <= q < size ==> (Source(ind, q) == s <==> q < p + BlockFrom(ind, s, p, size))
    decreases size - p
  {
    if p < size {
      if Source(ind, p) == s {
        BlockFromIs(ind, s, p + 1, size);
      } else {
        SourceFrom(ind, s, p);
        forall q | p <= q < size ensures Source(ind, q) != s {
          SourceFrom(ind, s, q);
        }
      }
    }
  }

  // The positions of a source are one block: those of [index, index + Block), and no other below size.
  lemma BlockIs(ind: seq<int>, s: nat, size: int)
    requires s < |ind| && 0 <= ind[s] <= size && Source(ind, ind[s]) == s
    ensures ind[s] + Block(ind, s, size) <= size
    ensures forall q :: q < size ==> (Source(ind, q) == s <==> ind[s] <= q < ind[s] + Block(ind, s, size))
  {
    BlockFromIs(ind, s, ind[s], size);
    forall q | q < ind[s] ensures Source(ind, q) != s {
      BestIs(ind, q, |ind|);
    }
  }

  // ----- Counting round

  lemma ModUnique(a: int, n: int, q: int, r: int)
    requires n > 0 && a == n * q + r && 0 <= r < n
    ensures a % n == r
  {
    var d := a / n - q;
    assert n * d == r - a % n;
    assert d > 0 ==> n * d >= n;
    assert d < 0 ==> n * d <= -n;
  }

  // One step round a circle of n places.
  function Turn(t: int, step: int, n: int): int {
    if step > 0 then (if t == n - 1 then 0 else t + 1) else (if t == 0 then n - 1 else t - 1)
  }

  lemma TurnIsMod(a: int, step: int, n: int)
    requires n > 0 && (step == 1 || step == -1)
    ensures Turn(a % n, step, n) == (a + step) % n
  {
    var q, r := a / n, a % n;
    if step == 1 && r == n - 1 {
      assert n * (q + 1) == n * q + n;
      ModUnique(a + 1, n, q + 1, 0);
    } else if step == -1 && r == 0 {
      assert n * (q - 1) == n * q - n;
      ModUnique(a - 1, n, q - 1, n - 1);
    } else {
      ModUnique(a + step, n, q, r + step);
    }
  }

  // ----- Stepping through the subtitles of one source

  // Place 0 is off, place t > 0 the t-th subtitle of the source.
  function Place(ind: seq<int>, s: nat, t: int): int
    requires s < |ind|
  {
    if t == 0 then -1 else ind[s] + t - 1
  }

  // The place of position pos: off, too, when another source is active.
  function PlaceOf(ind: seq<int>, s: nat, pos: int): int
    requires s < |ind|
  {
    if Source(ind, pos) == s then pos - ind[s] + 1 else 0
  }

  // Every position of the block has its place, and all others are off.
  lemma PlaceMeans(ind: seq<int>, s: nat, pos: int, size: int)
    requires s < |ind| && 0 <= ind[s] <= size && Source(ind, ind[s]) == s && pos < size
    ensures PlaceOf(ind, s, pos) == if ind[s] <= pos < ind[s] + Block(ind, s, size) then pos - ind[s] + 1 else 0
    ensures PlaceOf(ind, s, pos) > 0 ==> Place(ind, s, PlaceOf(ind, s, pos)) == pos
    ensures forall t :: Place(ind, s, t) == if t == 0 then -1 else ind[s] + t - 1
  {
    BlockIs(ind, s, size);
  }

  // "Decrement, then STEP_UP" of mp_property_sub leaves a position in range as it is.
  function StepUp(pos: int, size: nat): int
    requires pos >= -2
  {
    (pos + 2) % (size + 1) - 1
  }

  function StepDown(pos: int, size: nat): int
    requires pos >= -1
  {
    (pos + size + 1) % (size + 1) - 1
  }

  lemma StepsAreTurns(pos: int, size: nat)
    requires -1 <= pos < size
    ensures StepUp(pos, size) + 1 == Turn(pos + 1, 1, size + 1)
    ensures StepDown(pos, size) + 1 == Turn(pos + 1, -1, size + 1)
    ensures StepUp(pos, size) == if pos == size - 1 then -1 else pos + 1
    ensures StepDown(pos, size) == if pos == -1 then size - 1 else pos - 1
    ensures StepUp(pos - 1, size) == pos
    ensures StepUp(size - 1, size) == -1
  {
    UpIs(pos, size);
    UpIs(pos - 1, size);
    AtSize(size);
    DownIs(pos, size);
    hide StepUp, StepDown;
  }

  lemma UpIs(pos: int, size: nat)
    requires -2 <= pos < size
    ensures StepUp(pos, size) == if pos == size - 1 then -1 else pos + 1
  {
    if pos == size - 1 {
      ModUnique(size + 1, size + 1, 1, 0);
    } else {
      ModUnique(pos + 2, size + 1, 0, pos + 2);
    }
  }

  lemma DownIs(pos: int, size: nat)
    requires -1 <= pos < size
    ensures StepDown(pos, size) == if pos == -1 then size - 1 else pos - 1
  {
    if pos == -1 {
      ModUnique(size, size + 1, 0, size);
    } else {
      ModUnique(pos + size + 1, size + 1, 1, pos);
    }
  }

  // Past the end of the list is off.
  lemma AtSize(size: nat)
    ensures StepUp(size - 1, size) == -1
  {
    ModUnique(size + 1, size + 1, 1, 0);
  }

  // The next or previous place of source s from position pos.
  method StepInSource(ind: seq<int>, size: nat, s: nat, step: int, pos0: int) returns (pos: int)
    requires s < |ind| && 0 <= ind[s] <= size && Source(ind, ind[s]) == s && (step == 1 || step == -1)
    requires pos0 == -1 || ind[s] <= pos0 < ind[s] + Block(ind, s, size) || (Block(ind, s, size) == 0 && pos0 == ind[s])
    ensures Block(ind, s, size) > 0 ==>
              pos == Place(ind, s, Turn(if pos0 == -1 then 0 else pos0 - ind[s] + 1, step, Block(ind, s, size) + 1))
    ensures Block(ind, s, size) == 0 ==> pos == -1 || pos == ind[s]
  {
    BlockIs(ind, s, size);
    pos := pos0;
    if pos == -1 {
      if step > 0 {
        pos := ind[s];
      } else {
        pos := size - 1;
        while pos >= 0 && Source(ind, pos) != s
          invariant -1 <= pos < size && forall q :: pos < q < size ==> Source(ind, q) != s
        {
          pos := pos - 1;
        }
        if Block(ind, s, size) > 0 {
          assert Source(ind, ind[s] + Block(ind, s, size) - 1) == s;
        }
      }
    } else {
      pos := pos + step;
      if pos < ind[s] || pos >= size || Source(ind, pos) != s {
        pos := -1;
      }
    }
  }

  // ----- Stepping through the sources

  // A stop of the stepping loop: off, the current source, or a source to which its own index belongs.
  predicate Stop(ind: seq<int>, cur: int, s: int)
    requires |ind| == SUB_SOURCES && -1 <= s < SUB_SOURCES
  {
    s == cur || s == -1 || s == Source(ind, ind[s])
  }

  function Next(s: int, step: int): (r: int)
    requires -1 <= s < SUB_SOURCES && (step == 1 || step == -1)
    ensures -1 <= r < SUB_SOURCES
  {
    if s + step >= SUB_SOURCES then -1 else if s + step < -1 then SUB_SOURCES - 1 else s + step
  }

  // How far it is to off, at most once round.
  function ToOff(s: int, step: int): nat
    requires -1 <= s < SUB_SOURCES
  {
    if s == -1 then SUB_SOURCES + 1 else if step > 0 then SUB_SOURCES - s else s + 1
  }

  // The next stop after s.  Off stops every turn, so there is one.
  function NextStop(ind: seq<int>, cur: int, s: int, step: int): (r: int)
    requires |ind| == SUB_SOURCES && -1 <= s < SUB_SOURCES && (step == 1 || step == -1)
    ensures -1 <= r < SUB_SOURCES && Stop(ind, cur, r)
    decreases ToOff(s, step)
  {
    var t := Next(s, step);
    if Stop(ind, cur, t) then t else NextStop(ind, cur, t, step)
  }

  function Stops(ind: seq<int>, cur: int, s: int, step: int, k: nat): (r: int)
    requires |ind| == SUB_SOURCES && -1 <= s < SUB_SOURCES && (step == 1 || step == -1)
    ensures -1 <= r < SUB_SOURCES
    decreases k
  {
    if k == 0 then s else Stops(ind, cur, NextStop(ind, cur, s, step), step, k - 1)
  }

  // The stops in cyclic order, off first.
  function Ring(ind: seq<int>, cur: int): seq<int>
    requires |ind| == SUB_SOURCES
  {
    [-1] + (if Stop(ind, cur, 0) then [0] else []) + (if Stop(ind, cur, 1) then [1] else [])
    + (if Stop(ind, cur, 2) then [2] else [])
  }

  lemma NextOnRing(ind: seq<int>, cur: int, i: nat, step: int)
    requires |ind| == SUB_SOURCES && i < |Ring(ind, cur)| && (step == 1 || step == -1)
    ensures var ring := Ring(ind, cur); NextStop(ind, cur, ring[i], step) == ring[Turn(i, step, |ring|)]
  {
    assert SUB_SOURCES == 3;
    var s := Ring(ind, cur)[i];
    var a := Next(s, step);
    var b := Next(a, step);
    var c := Next(b, step);
    assert Next(c, step) == s;
    assert NextStop(ind, cur, s, step) == if Stop(ind, cur, a) then a else NextStop(ind, cur, a, step);
    assert !Stop(ind, cur, a) ==>
        NextStop(ind, cur, a, step) == if Stop(ind, cur, b) then b else NextStop(ind, cur, b, step);
    assert !Stop(ind, cur, a) && !Stop(ind, cur, b) ==>
        NextStop(ind, cur, b, step) == if Stop(ind, cur, c) then c else NextStop(ind, cur, c, step);
  }

  // k stops on from place i of the ring.
  lemma {:induction false} StopsOnRing(ind: seq<int>, cur: int, i: nat, step: int, k: nat)
    requires |ind| == SUB_SOURCES && i < |Ring(ind, cur)| && (step == 1 || step == -1)
    ensures var ring := Ring(ind, cur); Stops(ind, cur, ring[i], step, k) == ring[(i + step * k) % |ring|]
    decreases k
  {
    var n := |Ring(ind, cur)|;
    ModUnique(i, n, 0, i);
    if k > 0 {
      NextOnRing(ind, cur, i, step);
      TurnIsMod(i, step, n);
      var j := Turn(i, step, n);
      StopsOnRing(ind, cur, j, step, k - 1);
      ModShift(i, j, step, k, n);
    }
  }

  lemma ModShift(i: int, j: int, step: int, k: nat, n: int)
    requires n > 0 && k > 0 && (step == 1 || step == -1) && j == (i + step) % n
    ensures (j + step * (k - 1)) % n == (i + step * k) % n
  {
    var q, r := (i + step) / n, (j + step * (k - 1)) % n;
    var p := (j + step * (k - 1)) / n;
    assert i + step * k == n * q + j + step * (k - 1);
    assert n * (q + p) == n * q + n * p;
    ModUnique(i + step * k, n, q + p, r);
  }

  // Some position of the list belongs to the source.
  ghost predicate HasSubs(ind: seq<int>, s: int, size: int) {
    exists q :: 0 <= q < size && Source(ind, q) == s
  }

  // A stop without subtitles: the source starts at the end of the list.
  predicate EmptyStop(ind: seq<int>, s: int, size: int) {
    0 <= s < |ind| && ind[s] == size && Source(ind, size) == s
  }

  // The sources to stop at are the current one, those with subtitles, and an empty one at the end of the list.
  lemma StopExactly(ind: seq<int>, cur: int, s: int, size: int)
    requires |ind| == SUB_SOURCES && 0 <= s < SUB_SOURCES
    requires forall i :: 0 <= i < SUB_SOURCES ==> -1 <= ind[i] <= size
    ensures Stop(ind, cur, s) <==> s == cur || HasSubs(ind, s, size) || EmptyStop(ind, s, size)
    ensures !(HasSubs(ind, s, size) && EmptyStop(ind, s, size))
  {
    SourceIs(ind, ind[s], s);
    if HasSubs(ind, s, size) {
      var q :| 0 <= q < size && Source(ind, q) == s;
      SourceIs(ind, q, s);
      assert Candidate(ind, q, s);
      assert forall i :: Candidate(ind, ind[s], i) ==> Candidate(ind, q, i);
    }
    if s == Source(ind, ind[s]) {
      assert Candidate(ind, ind[s], s);
    }
  }

  // Off, the current source and the sources with subtitles.
  ghost function SourceRing(ind: seq<int>, cur: int, size: int): seq<int> {
    [-1] + (if 0 == cur || HasSubs(ind, 0, size) then [0] else [])
    + (if 1 == cur || HasSubs(ind, 1, size) then [1] else [])
    + (if 2 == cur || HasSubs(ind, 2, size) then [2] else [])
  }

  // The loop goes round off, the current source and the sources with subtitles if and only if no other source is empty
  // at the end of the list.
  lemma RingExactly(ind: seq<int>, cur: int, size: int)
    requires |ind| == SUB_SOURCES && -1 <= cur < SUB_SOURCES
    requires forall i :: 0 <= i < SUB_SOURCES ==> -1 <= ind[i] <= size
    ensures Ring(ind, cur) == SourceRing(ind, cur, size)
            <==> forall s :: 0 <= s < SUB_SOURCES && s != cur ==> !EmptyStop(ind, s, size)
  {
    StopExactly(ind, cur, 0, size);
    StopExactly(ind, cur, 1, size);
    StopExactly(ind, cur, 2, size);
    hide Stop, HasSubs, EmptyStop;
    var ring, want := Ring(ind, cur), SourceRing(ind, cur, size);
    if ring == want {
      assert forall s :: 0 <= s < SUB_SOURCES ==> (s in ring <==> Stop(ind, cur, s));
      assert forall s :: 0 <= s < SUB_SOURCES ==> (s in want <==> s == cur || HasSubs(ind, s, size));
    }
  }

  // A vobsub source with five subtitles and a demux source without any: the empty one is on the ring.
  lemma EmptySourceStops(ind: seq<int>)
    requires ind == [-1, 0, 5]
    ensures Ring(ind, -1) == [-1, 1, 2] && SourceRing(ind, -1, 5) == [-1, 1]
  {
    SourceIs(ind, 0, 1);
    SourceIs(ind, 5, 2);
    SourceIs(ind, -1, -1);
    StopExactly(ind, -1, 0, 5);
    StopExactly(ind, -1, 1, 5);
    StopExactly(ind, -1, 2, 5);
    hide Stop, Source;
    assert HasSubs(ind, 1, 5) && EmptyStop(ind, 2, 5);
  }

  // The place of the current source on the ring.
  function PlaceOn(ring: seq<int>, s: int): (i: nat)
    requires s in ring
    ensures i < |ring| && ring[i] == s
  {
    if ring[0] == s then 0 else 1 + PlaceOn(ring[1..], s)
  }

  // The loop of mp_property_sub_source ends for every step count and every index table, on the stop that many
  // places round the ring.
  method StepStops(ind: seq<int>, cur: int, k: int) returns (source: int)
    requires |ind| == SUB_SOURCES && k != 0 && -1 <= cur < SUB_SOURCES
    ensures -1 <= source < SUB_SOURCES && Stop(ind, cur, source)
    ensures cur in Ring(ind, cur)
    ensures var ring := Ring(ind, cur); source == ring[(PlaceOn(ring, cur) + k) % |ring|]
  {
    var step, left := if k > 0 then 1 else -1, k;
    ghost var n: nat := if k > 0 then k else -k;
    source := cur;
    hide Ring, Source;
    while left != 0
      invariant -1 <= source < SUB_SOURCES && (k > 0 ==> 0 <= left) && (k < 0 ==> left <= 0)
      invariant Stops(ind, cur, source, step, if left < 0 then -left else left) == Stops(ind, cur, cur, step, n)
      invariant left == 0 ==> Stop(ind, cur, source)
      decreases if left < 0 then -left else left, ToOff(source, step)
    {
      source := source + step;
      if source >= SUB_SOURCES {
        source := -1;
      } else if source < -1 {
        source := SUB_SOURCES - 1;
      }
      if source == cur || source == -1 || source == Source(ind, ind[source]) {
        left := left - step;
      }
    }
    CurOnRing(ind, cur);
    StopsOnRing(ind, cur, PlaceOn(Ring(ind, cur), cur), step, n);
    assert step * n == k;
  }

  lemma CurOnRing(ind: seq<int>, cur: int)
    requires |ind| == SUB_SOURCES && -1 <= cur < SUB_SOURCES
    ensures cur in Ring(ind, cur)
  {
    assert SUB_SOURCES == 3 && Stop(ind, cur, cur);
  }

  lemma SourceIndexed(ind: seq<int>, s: int)
    requires |ind| == SUB_SOURCES && -1 <= s < SUB_SOURCES
    ensures s != -1 && s == Source(ind, ind[s]) ==> ind[s] >= 0
  {
    if s != -1 {
      BestIs(ind, ind[s], |ind|);
    }
  }

  // ----- The property handlers

  class Context {
    var ind: seq<int>  // global_sub_indices, -1 for a source that is not there
    var size: nat      // global_sub_size
    var pos: int       // global_sub_pos

    constructor (ind: seq<int>, size: nat)
      requires |ind| == SUB_SOURCES && forall i :: 0 <= i < SUB_SOURCES ==> -1 <= ind[i] <= size
      ensures Valid() && this.ind == ind && this.size == size && pos == -1
    {
      this.ind, this.size, pos := ind, size, -1;
    }

    ghost predicate Valid()
      reads this
    {
      && |ind| == SUB_SOURCES
      && (forall i :: 0 <= i < SUB_SOURCES ==> -1 <= ind[i] <= size)
      && (pos == -1 || 0 <= pos < size)
    }

    // sub_source_by_pos
    method SourceByPos(p: int) returns (source: int)
      ensures IsSource(ind, p, source)
    {
      source := -1;
      var top := -1;
      for i := 0 to |ind|
        invariant source == Best(ind, p, i) && (source == -1 || 0 <= source < i)
        invariant top == if source == -1 then -1 else ind[source]
      {
        var j := ind[i];
        if j >= 0 && j > top && p >= j {
          source, top := i, j;
        }
      }
      SourceIs(ind, p, source);
    }

    // M_PROPERTY_STEP_UP of mp_property_sub
    method SubStepUp()
      requires pos >= -2
      modifies this`pos
      ensures pos == StepUp(old(pos), size)
    {
      pos := pos + 2;
      pos := pos % (size + 1) - 1;
    }

    // The step branch of mp_property_sub_by_type for a source that is there: a step count of k lands on the cyclic
    // shift by k over off and the subtitles of the source, starting from off when another source is active.
    method StepByType(s: nat, k: int)
      requires Valid() && size > 0 && s < SUB_SOURCES && k != 0
      requires ind[s] >= 0 && Source(ind, ind[s]) == s
      modifies this`pos
      ensures Valid()
      ensures var n, i := Block(ind, s, size), old(pos) - ind[s];
              var t := ((if 0 <= i < n then i + 1 else 0) + k) % (n + 1);
              pos == if t == 0 then -1 else ind[s] + t - 1
    {
      PlaceMeans(ind, s, pos, size);
      BlockIs(ind, s, size);
      ghost var n, t0 := Block(ind, s, size) + 1, PlaceOf(ind, s, pos);
      var step, left := if k > 0 then 1 else -1, k;
      var cur := SourceByPos(pos);
      SourceIs(ind, pos, cur);
      if cur != s {
        pos := -1;
      }
      ModUnique(t0, n, 0, t0);
      hide Source, Block, PlaceOf, StepUp;
      while left != 0
        invariant (k > 0 ==> 0 <= left <= k) && (k < 0 ==> k <= left <= 0)
        invariant n > 1 ==> pos == Place(ind, s, (t0 + (k - left)) % n)
        invariant n == 1 ==> pos == -1 || pos == ind[s]
        decreases if left < 0 then -left else left
      {
        TurnIsMod(t0 + (k - left), step, n);
        assert t0 + (k - left) + step == t0 + (k - (left - step));
        pos := StepInSource(ind, size, s, step, pos);
        left := left - step;
      }
      if n == 1 {
        ModUnique(t0 + k, 1, t0 + k, 0);
        assert ind[s] == size;
      }
      StepBack(pos, size);
      pos := pos - 1;
      SubStepUp();
    }

    // The step branch of mp_property_sub_source: it takes the first subtitle of the source it ends on.  A source
    // that starts at the end of the list has none, and gives off.
    method StepSource(k: int) returns (source: int)
      requires Valid() && size > 0 && k != 0
      modifies this`pos
      ensures Valid()
      ensures var cur := Source(ind, old(pos)); var ring := Ring(ind, cur);
              && cur in ring
              && -1 <= source < SUB_SOURCES
              && source == ring[(PlaceOn(ring, cur) + k) % |ring|]
              && pos == if source == cur then old(pos)
                        else if source == -1 || ind[source] == size then -1 else ind[source]
    {
      var cur := SourceByPos(pos);
      SourceIs(ind, pos, cur);
      hide Ring, Source;
      source := StepStops(ind, cur, k);
      if source == cur {
        return;
      }
      SourceIndexed(ind, source);
      pos := if source == -1 then -1 else ind[source];
      StepBack(pos, size);
      pos := pos - 1;
      SubStepUp();
    }

    // Stepping down through those sources stays at off however often it is done, and never reaches the vobsub source:
    // each step ends on the empty one.
    static method StepDownStaysOff(n: nat) returns (c: Context)
      ensures c.ind == [-1, 0, 5] && c.size == 5 && c.pos == -1
      ensures HasSubs(c.ind, 1, 5)
    {
      c := new Context([-1, 0, 5], 5);
      EmptySourceStops(c.ind);
      SourceAt(c.ind);
      hide Ring, Source, HasSubs;
      for i := 0 to n
        invariant c.Valid() && c.ind == [-1, 0, 5] && c.size == 5 && c.pos == -1
      {
        var source := c.StepSource(-1);
        assert source == [-1, 1, 2][2];
      }
    }

    static lemma SourceAt(ind: seq<int>)
      requires ind == [-1, 0, 5]
      ensures Source(ind, -1) == -1 && HasSubs(ind, 1, 5)
    {
      SourceIs(ind, -1, -1);
      SourceIs(ind, 0, 1);
    }
  }

  // Decrement, then step up: a position in range stays, the end of the list is off.
  lemma StepBack(pos: int, size: nat)
    requires -1 <= pos <= size
    ensures StepUp(pos - 1, size) == if pos == size then -1 else pos
  {
    if pos < size {
      StepsAreTurns(pos, size);
    } else {
      AtSize(size);
    }
  }
}
