/**
 Deleting list entries by index, done two ways in m_option.c: str_list_del marks,
 counts and rebuilds; obj_settings_list_del marks and shifts left in place.
 Both are order-preserving filtering by the set of valid original indices.
 */
module ListDelete {
  import opened Wrappers

  type Entry = string

  // ----- What deletion means

  function Kept(xs: seq<Entry>, del: set<int>): seq<Entry> {
    if xs == [] then []
    else
      var n := |xs| - 1;
      Kept(xs[..n], del) + if n in del then [] else [xs[n]]
  }

  // The indices str_list_del accepts; None is a text that is not a number.
  function Positions(ids: seq<Option<int>>, n: nat): set<int> {
    set i | 0 <= i < |ids| && ids[i].Some? && 0 <= ids[i].value < n :: ids[i].value
  }

  // The indices obj_settings_list_del accepts: a negative one counts from the end.
  function FromEnds(ids: seq<int>, n: nat): set<int> {
    set i | 0 <= i < |ids| && 0 <= n + ids[i] && ids[i] < n :: if ids[i] < 0 then n + ids[i] else ids[i]
  }

  lemma PositionsMeans(ids: seq<Option<int>>, n: nat, d: int)
    ensures d in Positions(ids, n) <==> 0 <= d < n && Some(d) in ids
  {
    if Some(d) in ids {
      var i :| 0 <= i < |ids| && ids[i] == Some(d);
      assert ids[i].value == d;
    }
  }

  // The last entry is -1, the first one -n.
  lemma FromEndsMeans(ids: seq<int>, n: nat, d: int)
    ensures d in FromEnds(ids, n) <==> 0 <= d < n && (d in ids || d - n in ids)
  {
    if 0 <= d < n && d in ids {
      var i :| 0 <= i < |ids| && ids[i] == d;
      assert d in FromEnds(ids, n);
    }
    if 0 <= d < n && d - n in ids {
      var i :| 0 <= i < |ids| && ids[i] == d - n;
      assert d in FromEnds(ids, n);
    }
  }

  // The two agree on indices that count from the start.
  lemma SameDeletion(ids: seq<int>, xs: seq<Entry>)
    requires forall i :: 0 <= i < |ids| ==> ids[i] >= 0
    ensures Kept(xs, FromEnds(ids, |xs|))
         == Kept(xs, Positions(seq(|ids|, i requires 0 <= i < |ids| => Some(ids[i])), |xs|))
  {
    var opts := seq(|ids|, i requires 0 <= i < |ids| => Some(ids[i]));
    forall d ensures d in FromEnds(ids, |xs|) <==> d in Positions(opts, |xs|) {
      if d in FromEnds(ids, |xs|) {
        var i :| 0 <= i < |ids| && 0 <= |xs| + ids[i] && ids[i] < |xs| && d == ids[i];
        assert opts[i].value == d;
      }
      if d in Positions(opts, |xs|) {
        var i :| 0 <= i < |opts| && opts[i].Some? && 0 <= opts[i].value < |xs| && opts[i].value == d;
        assert ids[i] == d;
      }
    }
    assert FromEnds(ids, |xs|) == Positions(opts, |xs|);
  }

  // The indices that are not deleted, in order.
  function Indices(n: nat, del: set<int>): seq<nat> {
    if n == 0 then [] else Indices(n - 1, del) + if n - 1 in del then [] else [n - 1]
  }

  lemma {:induction false} IndicesAll(n: nat, del: set<int>, i: int)
    ensures i in Indices(n, del) <==> 0 <= i < n && i !in del
  {
    if n > 0 {
      IndicesAll(n - 1, del, i);
    }
  }

  lemma {:induction false} IndicesRise(n: nat, del: set<int>, j: nat, k: nat)
    requires j < k < |Indices(n, del)|
    ensures Indices(n, del)[j] < Indices(n, del)[k]
  {
    if k < |Indices(n - 1, del)| {
      IndicesRise(n - 1, del, j, k);
    } else {
      IndicesAll(n - 1, del, Indices(n - 1, del)[j]);
    }
  }

  lemma {:induction false} KeptAt(xs: seq<Entry>, del: set<int>, k: nat)
    ensures |Kept(xs, del)| == |Indices(|xs|, del)|
    ensures k < |Kept(xs, del)| ==> Indices(|xs|, del)[k] < |xs| && Kept(xs, del)[k] == xs[Indices(|xs|, del)[k]]
  {
    if xs != [] {
      KeptAt(xs[..|xs| - 1], del, k);
    }
  }

  // Kept lists exactly the entries whose index is not deleted, in order: entry k of it is entry at[k] of the list.
  lemma KeptAll(xs: seq<Entry>, del: set<int>) returns (at: seq<int>)
    ensures |at| == |Kept(xs, del)|
    ensures forall k :: 0 <= k < |at| ==> 0 <= at[k] < |xs| && at[k] !in del && Kept(xs, del)[k] == xs[at[k]]
    ensures forall j, k :: 0 <= j < k < |at| ==> at[j] < at[k]
    ensures forall i :: 0 <= i < |xs| && i !in del ==> i in at
  {
    hide Kept, Indices;
    var ind := Indices(|xs|, del);
    at := ind;
    KeptAt(xs, del, 0);
    forall k | 0 <= k < |ind| ensures 0 <= ind[k] < |xs| && ind[k] !in del && Kept(xs, del)[k] == xs[ind[k]] {
      KeptAt(xs, del, k);
      IndicesAll(|xs|, del, ind[k]);
    }
    forall j, k | 0 <= j < k < |ind| ensures ind[j] < ind[k] {
      IndicesRise(|xs|, del, j, k);
    }
    forall i | 0 <= i < |xs| && i !in del ensures i in ind {
      IndicesAll(|xs|, del, i);
    }
  }

  // ----- str_list_del

  // The list once the entries in del are gone.
  function Marked(xs: seq<Entry>, del: set<int>): seq<Option<Entry>> {
    seq(|xs|, i requires 0 <= i < |xs| => if i in del then None else Some(xs[i]))
  }

  function Present(cells: seq<Option<Entry>>): seq<Entry> {
    if cells == [] then []
    else
      var n := |cells| - 1;
      Present(cells[..n]) + match cells[n] case None => [] case Some(x) => [x]
  }

  lemma {:induction false} PresentMarked(xs: seq<Entry>, del: set<int>)
    ensures Present(Marked(xs, del)) == Kept(xs, del)
    decreases |xs|
  {
    if xs != [] {
      var n := |xs| - 1;
      PresentMarked(xs[..n], del);
      assert Marked(xs, del)[..n] == Marked(xs[..n], del);
    }
  }

  lemma {:induction false} PresentErase(cells: seq<Option<Entry>>, k: nat)
    requires k < |cells| && cells[k].Some?
    ensures |Present(cells[k := None])| == |Present(cells)| - 1
    decreases |cells|
  {
    var n := |cells| - 1;
    if k < n {
      PresentErase(cells[..n], k);
      assert cells[k := None][..n] == cells[..n][k := None];
    } else {
      assert cells[k := None][..n] == cells[..n];
    }
  }

  lemma {:induction false} PresentPrefix(cells: seq<Option<Entry>>, i: nat)
    requires i <= |cells|
    ensures |Present(cells[..i])| <= |Present(cells)|
    decreases |cells|
  {
    if i < |cells| {
      PresentPrefix(cells[..|cells| - 1], i);
      assert cells[..|cells| - 1][..i] == cells[..i];
    } else {
      assert cells[..i] == cells;
    }
  }

  // Mark the entries to delete, and count what is left.
  method MarkAll(lst: array<Option<Entry>>, ids: seq<Option<int>>, ln: nat, ghost xs: seq<Entry>) returns (s: nat)
    requires ln == |xs| < lst.Length && forall i :: 0 <= i < |xs| ==> lst[i] == Some(xs[i])
    modifies lst
    ensures lst[..ln] == Marked(xs, Positions(ids, ln)) && s == |Present(lst[..ln])|
  {
    s := ln;
    ghost var del: set<int> := {};
    assert lst[..ln] == Marked(xs, del);
    PresentAll(lst[..ln]);
    for i := 0 to |ids|
      invariant lst[..ln] == Marked(xs, del) && del == Positions(ids[..i], ln)
      invariant s == |Present(lst[..ln])|
    {
      AddPosition(ids, i, ln);
      if ids[i].None? {
        continue;
      }
      var idx := ids[i].value;
      if idx < 0 || idx >= ln {
        continue;
      }
      del := del + {idx};
      if lst[idx].None? {
        assert Marked(xs, del) == lst[..ln];
        continue;
      }
      PresentErase(lst[..ln], idx);
      assert lst[..ln][idx := None] == Marked(xs, del);
      lst[idx] := None;
      s := s - 1;
      assert lst[..ln] == Marked(xs, del);
    }
    assert ids[..|ids|] == ids;
  }

  // Copy what is left into a list of s entries and a terminator.
  method Rebuild(lst: array<Option<Entry>>, ln: nat, s: nat) returns (d: array<Option<Entry>>)
    requires ln <= lst.Length && s == |Present(lst[..ln])|
    ensures d.Length == s + 1 && d[s] == None
    ensures forall k :: 0 <= k < s ==> d[k] == Some(Present(lst[..ln])[k])
  {
    d := new Option<Entry>[s + 1](_ => None);
    var n := 0;
    for i := 0 to ln
      invariant n == |Present(lst[..i])| <= s
      invariant forall k :: 0 <= k < n ==> d[k] == Some(Present(lst[..i])[k])
    {
      assert lst[..i + 1][..i] == lst[..i];
      assert lst[..ln][..i + 1] == lst[..i + 1];
      PresentPrefix(lst[..ln], i + 1);
      if lst[i].None? {
        continue;
      }
      d[n] := lst[i];
      n := n + 1;
    }
    d[s] := None;
  }

  // The slots hold xs and a terminator; the result is a new list, None when nothing is left.
  method StrListDel(lst: array<Option<Entry>>, ids: seq<Option<int>>, ghost xs: seq<Entry>)
    returns (r: Option<array<Option<Entry>>>)
    requires lst.Length == |xs| + 1 && lst[|xs|] == None
    requires forall i :: 0 <= i < |xs| ==> lst[i] == Some(xs[i])
    modifies lst
    ensures var kept := Kept(xs, Positions(ids, |xs|));
            if kept == [] then r == None
            else r.Some? && r.value.Length == |kept| + 1 && r.value[|kept|] == None
                 && forall i :: 0 <= i < |kept| ==> r.value[i] == Some(kept[i])
  {
    var ln := 0;
    while lst[ln].Some?
      invariant 0 <= ln <= |xs|
      decreases |xs| - ln
    {
      ln := ln + 1;
    }
    var s := MarkAll(lst, ids, ln, xs);
    PresentMarked(xs, Positions(ids, ln));
    if s == 0 {
      return None;
    }
    var d := Rebuild(lst, ln, s);
    r := Some(d);
  }

  lemma {:induction false} PresentAll(cells: seq<Option<Entry>>)
    requires forall i :: 0 <= i < |cells| ==> cells[i].Some?
    ensures |Present(cells)| == |cells|
    decreases |cells|
  {
    if cells != [] {
      PresentAll(cells[..|cells| - 1]);
    }
  }

  lemma AddPosition(ids: seq<Option<int>>, i: nat, n: nat)
    requires i < |ids|
    ensures Positions(ids[..i + 1], n)
         == Positions(ids[..i], n) + if ids[i].Some? && 0 <= ids[i].value < n then {ids[i].value} else {}
  {
    var a, b := ids[..i], ids[..i + 1];
    assert forall k :: 0 <= k < i ==> b[k] == a[k];
    assert b[i] == ids[i];
  }

  // ----- obj_settings_list_del

  // A cell of the object list: an entry, one marked as removed, or the terminator.
  datatype Cell = Name(x: Entry) | Removed | Null

  function Named(cells: seq<Cell>): seq<Entry> {
    if cells == [] then []
    else
      var n := |cells| - 1;
      Named(cells[..n]) + if cells[n].Name? then [cells[n].x] else []
  }

  function MarkedCells(xs: seq<Entry>, del: set<int>): seq<Cell> {
    seq(|xs|, i requires 0 <= i < |xs| => if i in del then Removed else Name(xs[i]))
  }

  lemma {:induction false} NamedMarked(xs: seq<Entry>, del: set<int>)
    ensures Named(MarkedCells(xs, del)) == Kept(xs, del)
    decreases |xs|
  {
    if xs != [] {
      var n := |xs| - 1;
      NamedMarked(xs[..n], del);
      assert MarkedCells(xs, del)[..n] == MarkedCells(xs[..n], del);
    }
  }

  lemma {:induction false} NamedConcat(a: seq<Cell>, b: seq<Cell>)
    ensures Named(a + b) == Named(a) + Named(b)
    decreases |b|
  {
    if b == [] {
      assert a + b == a;
    } else {
      NamedConcat(a, b[..|b| - 1]);
      assert (a + b)[..|a + b| - 1] == a + b[..|b| - 1];
    }
  }

  lemma NamedShift(cells: seq<Cell>, i: nat)
    requires i < |cells| && !cells[i].Name?
    ensures Named(cells[..i] + cells[i + 1..]) == Named(cells)
  {
    hide Named;
    var a, b := cells[..i], cells[i + 1..];
    NamedConcat(a, b);
    NamedConcat(a, [cells[i]]);
    NamedConcat(a + [cells[i]], b);
    NamedNone(cells[i]);
    assert cells == a + [cells[i]] + b;
  }

  lemma NamedNone(c: Cell)
    requires !c.Name?
    ensures Named([c]) == []
  {
  }

  lemma {:induction false} NamedAll(cells: seq<Cell>)
    requires forall i :: 0 <= i < |cells| ==> cells[i].Name?
    ensures |Named(cells)| == |cells| && forall i :: 0 <= i < |cells| ==> Named(cells)[i] == cells[i].x
    decreases |cells|
  {
    if cells != [] {
      NamedAll(cells[..|cells| - 1]);
    }
  }

  // memmove(&a[i], &a[i + 1], (max - i) cells)
  method ShiftLeft(a: array<Cell>, i: nat, max: nat)
    requires i < max < a.Length
    modifies a
    ensures a[..max] == old(a[..i]) + old(a[i + 1..max + 1])
    ensures a[max..] == old(a[max..])
  {
    forall k | i <= k < max {
      a[k] := a[k + 1];
    }
  }

  // Shifting over a mark keeps the entries, and the terminator moves down with a stale copy left behind.
  method DropMark(a: array<Cell>, i: nat, max: nat)
    requires i < max < a.Length && a[max] == Null && a[i] == Removed && forall k :: 0 <= k < max ==> a[k] != Null
    modifies a
    ensures a[max - 1] == Null && a[max] == Null && forall k :: 0 <= k < max - 1 ==> a[k] != Null
    ensures forall k :: 0 <= k < i ==> a[k] == old(a[k])
    ensures Named(a[..max - 1]) == Named(old(a[..max]))
  {
    hide Named;
    NamedShift(a[..max], i);
    ghost var before := a[..];
    ShiftLeft(a, i, max);
    assert a[max] == a[max..][0] == before[max..][0];
    assert a[..max] == before[..i] + before[i + 1..max + 1];
    assert forall k :: 0 <= k < max ==> a[k] == a[..max][k];
    assert a[..max - 1] == before[..max][..i] + before[..max][i + 1..];
    assert before[..max] == old(a[..max]);
  }

  // Mark, then shift left over the marks; the loop never reads past the original terminator.  An index that is
  // not a number ends it with the marks made so far still in the list.
  method ObjListDel(a: array<Cell>, ids: seq<Option<int>>, ghost xs: seq<Entry>) returns (ok: bool, max: nat)
    requires a.Length == |xs| + 1 && a[|xs|] == Null
    requires forall i :: 0 <= i < |xs| ==> a[i] == Name(xs[i])
    modifies a
    ensures ok <==> forall i :: 0 <= i < |ids| ==> ids[i].Some?
    ensures ok ==> var kept := Kept(xs, FromEnds(Values(ids), |xs|));
                   && max == |kept| < a.Length && a[max] == Null
                   && forall i :: 0 <= i < max ==> a[i] == Name(kept[i])
    ensures !ok ==> var r := Readable(ids);
                    && max == |xs| && a[max] == Null
                    && a[..max] == MarkedCells(xs, FromEnds(Values(ids[..r]), |xs|))
  {
    max := 0;
    while a[max] != Null
      invariant 0 <= max <= |xs|
      decreases |xs| - max
    {
      max := max + 1;
    }
    ghost var del: set<int> := {};
    assert a[..max] == MarkedCells(xs, del);
    for r := 0 to |ids|
      invariant forall i :: 0 <= i < r ==> ids[i].Some?
      invariant max == |xs| && a[max] == Null && a[..max] == MarkedCells(xs, del)
      invariant del == FromEnds(Values(ids[..r]), max)
    {
      if ids[r].None? {
        ReadableIs(ids, r);
        return false, max;
      }
      var id := ids[r].value;
      AddFromEnds(ids, r, max);
      if id >= max || max + id < 0 {
        continue;
      }
      if id < 0 {
        id := max + id;
      }
      a[id] := Removed;
      del := del + {id};
      assert a[..max] == MarkedCells(xs, del);
    }
    assert ids[..|ids|] == ids;
    NamedMarked(xs, del);
    max := Compact(a, max);
    ok := true;
  }

  // How many indices are numbers before the first that is not.
  function Readable(ids: seq<Option<int>>): (r: nat)
    ensures r <= |ids| && forall i :: 0 <= i < r ==> ids[i].Some?
    ensures r < |ids| ==> ids[r].None?
  {
    if ids == [] || ids[0].None? then 0 else 1 + Readable(ids[1..])
  }

  lemma {:induction false} ReadableIs(ids: seq<Option<int>>, r: nat)
    requires r < |ids| && ids[r].None? && forall i :: 0 <= i < r ==> ids[i].Some?
    ensures Readable(ids) == r
  {
    if r > 0 {
      ReadableIs(ids[1..], r - 1);
    }
  }

  function Values(ids: seq<Option<int>>): seq<int>
    requires forall i :: 0 <= i < |ids| ==> ids[i].Some?
  {
    seq(|ids|, i requires 0 <= i < |ids| => ids[i].value)
  }

  lemma AddFromEnds(ids: seq<Option<int>>, i: nat, n: nat)
    requires i < |ids| && forall k :: 0 <= k <= i ==> ids[k].Some?
    ensures var id := ids[i].value;
            FromEnds(Values(ids[..i + 1]), n)
            == FromEnds(Values(ids[..i]), n) + if 0 <= n + id && id < n then {if id < 0 then n + id else id} else {}
  {
    var a, b := Values(ids[..i]), Values(ids[..i + 1]);
    assert forall k :: 0 <= k < i ==> b[k] == a[k];
    assert b[i] == ids[i].value;
  }

  // The shifting loops.
  method Compact(a: array<Cell>, max0: nat) returns (max: nat)
    requires max0 < a.Length && a[max0] == Null && forall i :: 0 <= i < max0 ==> a[i] != Null
    modifies a
    ensures max <= max0 && a[max] == Null && max == |Named(old(a[..max0]))|
    ensures forall i :: 0 <= i < max ==> a[i] == Name(Named(old(a[..max0]))[i])
  {
    max := max0;
    var i := 0;
    while a[i] != Null
      invariant 0 <= max <= max0 && a[max] == Null && (forall k :: 0 <= k < max ==> a[k] != Null)
      invariant 0 <= i <= max + 1 <= a.Length
      invariant i == max + 1 ==> i <= max0 && a[i] == Null
      invariant forall k :: 0 <= k < i && k < max ==> a[k].Name?
      invariant Named(a[..max]) == Named(old(a[..max0]))
      decreases max0 + 1 - i, max
    {
      while a[i] == Removed
        invariant i <= max <= max0 && a[max] == Null && (forall k :: 0 <= k < max ==> a[k] != Null)
        invariant i == max ==> i < max0 && a[i + 1] == Null
        invariant forall k :: 0 <= k < i ==> a[k].Name?
        invariant Named(a[..max]) == Named(old(a[..max0]))
        decreases max
      {
        DropMark(a, i, max);
        max := max - 1;
      }
      i := i + 1;
    }
    NamedAll(a[..max]);
  }
}
