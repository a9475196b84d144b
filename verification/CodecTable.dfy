/**
 The codec table of codec-cfg.c: sentinel-terminated arrays of codes filled line
 by line, and the resumable search for a codec.
 */
module CodecTable {
  import opened Wrappers

  const FREE: nat := 0xFFFFFFFF
  const CODECS_MAX_FOURCC: nat := 92

  // mmioFOURCC on the bytes of four characters
  function FourCC(s: string): nat
    requires |s| >= 4
  {
    s[0] as nat % 256 + 0x100 * (s[1] as nat % 256) + 0x10000 * (s[2] as nat % 256) + 0x1000000 * (s[3] as nat % 256)
  }

  // The four bytes, the first one lowest.
  lemma FourCCMeans(s: string)
    requires |s| >= 4
    ensures var c := FourCC(s);
            && c % 0x100 == s[0] as nat % 0x100 && c / 0x100 % 0x100 == s[1] as nat % 0x100
            && c / 0x100 / 0x100 % 0x100 == s[2] as nat % 0x100 && c / 0x100 / 0x100 / 0x100 == s[3] as nat % 0x100
  {
    var b0, b1, b2, b3 := s[0] as nat % 256, s[1] as nat % 256, s[2] as nat % 256, s[3] as nat % 256;
    assert FourCC(s) == b0 + 0x100 * (b1 + 0x100 * (b2 + 0x100 * b3));
    hide FourCC;
    LowByte(b0, b1 + 0x100 * (b2 + 0x100 * b3));
    LowByte(b1, b2 + 0x100 * b3);
    LowByte(b2, b3);
  }

  lemma LowByte(b: nat, rest: nat)
    requires b < 0x100
    ensures (b + 0x100 * rest) % 0x100 == b && (b + 0x100 * rest) / 0x100 == rest
  {
  }

  // ----- What a table of codes is

  ghost predicate Distinct(codes: seq<nat>) {
    forall i, j :: 0 <= i < j < |codes| ==> codes[i] != codes[j]
  }

  // The slots hold these codes, and nothing but the sentinel after them.
  ghost predicate Holds(slots: seq<nat>, codes: seq<nat>) {
    && |codes| <= |slots|
    && slots[..|codes|] == codes
    && FREE !in codes
    && forall i :: |codes| <= i < |slots| ==> slots[i] == FREE
  }

  // ----- A fourcc line: four-letter codes separated by commas

  function Groups(s: string): seq<nat> {
    if |s| < 4 then []
    else [FourCC(s)] + if |s| > 4 && s[4] == ',' then Groups(s[5..]) else []
  }

  predicate WellFormed(s: string) {
    |s| >= 4 && (|s| == 4 || (s[4] == ',' && WellFormed(s[5..])))
  }

  lemma SomeGroup(s: string)
    ensures WellFormed(s) ==> Groups(s) != []
  {
  }

  // A written line: groups of four characters with commas between them.
  function JoinCodes(cs: seq<string>): string
    requires cs != []
  {
    if |cs| == 1 then cs[0] else cs[0] + "," + JoinCodes(cs[1..])
  }

  lemma {:induction false} GroupsOfJoin(cs: seq<string>)
    requires cs != [] && forall i :: 0 <= i < |cs| ==> |cs[i]| == 4
    ensures WellFormed(JoinCodes(cs)) && |Groups(JoinCodes(cs))| == |cs|
    ensures forall i :: 0 <= i < |cs| ==> Groups(JoinCodes(cs))[i] == FourCC(cs[i])
    decreases |cs|
  {
    var s := JoinCodes(cs);
    if |cs| > 1 {
      assert s[4] == ',' && s[5..] == JoinCodes(cs[1..]);
      GroupsOfJoin(cs[1..]);
    }
    assert s[..4] == cs[0];
    assert FourCC(s) == FourCC(s[..4]);
    hide FourCC;
  }

  // No other line is well formed.
  lemma {:induction false} WellFormedIsJoin(s: string) returns (cs: seq<string>)
    requires WellFormed(s)
    ensures cs != [] && (forall i :: 0 <= i < |cs| ==> |cs[i]| == 4) && JoinCodes(cs) == s
    decreases |s|
  {
    cs := [s[..4]];
    if |s| > 4 {
      var more := WellFormedIsJoin(s[5..]);
      cs := cs + more;
      assert cs[1..] == more && s == s[..4] + "," + s[5..];
    } else {
      assert s[..4] == s;
    }
  }

  // The characters the loop reads are there, as long as it has free slots.
  predicate Readable(s: string, free: nat) {
    free > 0 ==> |s| >= 4 && (|s| > 4 && s[4] == ',' ==> Readable(s[5..], free - 1))
  }

  // What goes beside the codes of a line: the alias of the line, or the codes themselves.
  function MapOf(alias: Option<string>, codes: seq<nat>): seq<nat>
    requires alias.Some? ==> |alias.value| >= 4
  {
    if alias.Some? then seq(|codes|, _ => FourCC(alias.value)) else codes
  }

  // The loop over the free slots of add_to_fourcc.  It succeeds exactly when the line is well formed, the codes
  // fit, and none is already there.
  method AddToFourcc(s0: string, alias: Option<string>, slots: array<nat>, map_: array<nat>, ghost codes: seq<nat>)
    returns (ok: bool)
    requires slots.Length == map_.Length && slots != map_ && Holds(slots[..], codes) && Distinct(codes)
    requires Readable(s0, slots.Length - |codes|) && (alias.Some? ==> |alias.value| >= 4)
    modifies slots, map_
    ensures ok <==> WellFormed(s0) && |codes| + |Groups(s0)| <= slots.Length && Distinct(codes + Groups(s0))
    ensures ok && FREE !in Groups(s0) ==> Holds(slots[..], codes + Groups(s0))
    ensures ok ==> map_[..|codes| + |Groups(s0)|] == old(map_[..|codes|]) + MapOf(alias, Groups(s0))
  {
    var i := FirstFree(slots, codes);
    var free := slots.Length - i;
    if free == 0 {
      SomeGroup(s0);
      return false;
    }
    ok := FillFourcc(s0, alias, slots, map_, i, codes);
  }

  method FillFourcc(s0: string, alias: Option<string>, slots: array<nat>, map_: array<nat>, start: nat,
                    ghost codes: seq<nat>)
    returns (ok: bool)
    requires start == |codes| && slots.Length == map_.Length > start && slots != map_
    requires Holds(slots[..], codes) && Distinct(codes)
    requires Readable(s0, slots.Length - |codes|) && (alias.Some? ==> |alias.value| >= 4)
    modifies slots, map_
    ensures ok <==> WellFormed(s0) && |codes| + |Groups(s0)| <= slots.Length && Distinct(codes + Groups(s0))
    ensures ok && FREE !in Groups(s0) ==> Holds(slots[..], codes + Groups(s0))
    ensures ok ==> map_[..|codes| + |Groups(s0)|] == old(map_[..|codes|]) + MapOf(alias, Groups(s0))
  {
    hide Groups, WellFormed, Readable, FourCC, MapOf, Distinct, Holds, Stage;
    ghost var m0 := map_[..start];
    NoneDone(slots, map_, codes, m0, alias);
    var s, i, free := s0, start, slots.Length - start;
    ghost var done: seq<nat> := [];
    while true
      invariant i == start + |done| && free == slots.Length - i > 0
      invariant Groups(s0) == done + Groups(s) && WellFormed(s0) == WellFormed(s)
      invariant Readable(s, free) && Stage(slots, map_, codes, done, m0, alias)
      decreases |s|
    {
      Unfold(s, free);
      var added := AddCode(FourCC(s), alias, slots, map_, i, codes, done, m0);
      if !added {
        Repeated(codes, done, Groups(s));
        return false;
      }
      done := done + [FourCC(s)];
      s, i := s[4..], i + 1;
      if s != "" && s[0] == ',' {
        free := free - 1;
        s := s[1..];
        if free == 0 {
          SomeGroup(s);
          return false;
        }
      } else {
        ok := s == "";
        if ok {
          AllDone(slots, map_, codes, done, m0, alias);
          assert Groups(s0) == done;
        }
        return;
      }
    }
  }

  // The codes of the line so far are behind those already there, with their aliases beside them.
  ghost predicate Stage(slots: array<nat>, map_: array<nat>, codes: seq<nat>, done: seq<nat>, m0: seq<nat>,
                        alias: Option<string>)
    reads slots, map_
  {
    var i := |codes| + |done|;
    && slots.Length == map_.Length >= i && |m0| == |codes|
    && (alias.Some? ==> |alias.value| >= 4)
    && slots[..i] == codes + done && (forall k :: i <= k < slots.Length ==> slots[k] == FREE)
    && map_[..i] == m0 + MapOf(alias, done)
    && Distinct(codes + done)
    && FREE !in codes
  }

  lemma NoneDone(slots: array<nat>, map_: array<nat>, codes: seq<nat>, m0: seq<nat>, alias: Option<string>)
    requires Holds(slots[..], codes) && Distinct(codes) && slots.Length == map_.Length && m0 == map_[..|codes|]
    requires alias.Some? ==> |alias.value| >= 4
    ensures Stage(slots, map_, codes, [], m0, alias)
  {
    assert slots[..][..|codes|] == slots[..|codes|];
    assert forall k :: |codes| <= k < slots.Length ==> slots[..][k] == slots[k];
    assert codes + [] == codes && m0 + [] == m0 && MapOf(alias, []) == [];
  }

  lemma AllDone(slots: array<nat>, map_: array<nat>, codes: seq<nat>, done: seq<nat>, m0: seq<nat>,
                alias: Option<string>)
    requires Stage(slots, map_, codes, done, m0, alias)
    ensures |codes| + |done| <= slots.Length == map_.Length && Distinct(codes + done)
    ensures FREE !in done ==> Holds(slots[..], codes + done)
    ensures map_[..|codes| + |done|] == m0 + MapOf(alias, done)
  {
    assert slots[..][..|codes| + |done|] == slots[..|codes| + |done|];
  }

  // One code: refused when it is there, and otherwise stored with its alias.
  method AddCode(c: nat, alias: Option<string>, slots: array<nat>, map_: array<nat>, i: nat, ghost codes: seq<nat>,
                 ghost done: seq<nat>, ghost m0: seq<nat>)
    returns (added: bool)
    requires slots != map_ && i == |codes| + |done| < slots.Length && Stage(slots, map_, codes, done, m0, alias)
    modifies slots, map_
    ensures added <==> c !in codes + done
    ensures added ==> Stage(slots, map_, codes, done + [c], m0, alias)
  {
    var dup := Occurs(slots, i, c);
    if dup {
      return false;
    }
    slots[i] := c;
    map_[i] := if alias.Some? then FourCC(alias.value) else c;
    assert slots[..i + 1] == codes + done + [c] == codes + (done + [c]);
    assert map_[..i + 1] == m0 + MapOf(alias, done) + [map_[i]] == m0 + MapOf(alias, done + [c]);
    added := true;
  }

  lemma Repeated(codes: seq<nat>, done: seq<nat>, more: seq<nat>)
    requires more != [] && more[0] in codes + done
    ensures !Distinct(codes + (done + more))
  {
    Duplicate(codes + done, more);
    assert codes + done + more == codes + (done + more);
  }

  // One group of a line and what follows it.
  lemma Unfold(s: string, free: nat)
    requires Readable(s, free) && free > 0
    ensures |s| >= 4 && (|s| > 4 ==> s[4..][1..] == s[5..] && s[4..][0] == s[4])
    ensures Groups(s) == [FourCC(s)] + if |s| > 4 && s[4] == ',' then Groups(s[5..]) else []
    ensures WellFormed(s) == (|s| == 4 || (s[4] == ',' && WellFormed(s[5..])))
    ensures |s| > 4 && s[4] == ',' ==> Readable(s[5..], free - 1)
  {
  }

  // Is c among the first n codes?
  method Occurs(slots: array<nat>, n: nat, c: nat) returns (r: bool)
    requires n <= slots.Length
    ensures r <==> c in slots[..n]
  {
    for j := 0 to n
      invariant c !in slots[..j]
    {
      assert slots[..n][j] == slots[j] && slots[..j + 1] == slots[..j] + [slots[j]];
      if c == slots[j] {
        return true;
      }
    }
    r := false;
  }

  lemma Duplicate(all: seq<nat>, more: seq<nat>)
    requires more != [] && more[0] in all
    ensures !Distinct(all + more)
  {
    var j :| 0 <= j < |all| && all[j] == more[0];
    assert (all + more)[j] == (all + more)[|all|];
  }

  // ----- A format line: one number

  // What strtoul made of a text: a value, and whether the whole text was read.
  datatype Number = Number(value: nat, complete: bool)

  method AddToFormat(fid: Number, alias: Option<Number>, slots: array<nat>, map_: array<nat>, ghost codes: seq<nat>)
    returns (ok: bool)
    requires slots.Length == map_.Length && slots != map_ && Holds(slots[..], codes) && Distinct(codes)
    modifies slots, map_
    ensures ok <==> fid.complete && (alias.Some? ==> alias.value.complete) && |codes| < slots.Length
                    && fid.value !in codes
    ensures ok && fid.value != FREE ==> Holds(slots[..], codes + [fid.value])
    ensures map_[..|codes|] == old(map_[..|codes|])
    ensures ok ==> map_[|codes|] == if alias.Some? then alias.value.value else fid.value
  {
    var i := FirstFree(slots, codes);
    if i == slots.Length {
      return false;
    }
    slots[i] := fid.value;
    if !fid.complete {
      return false;
    }
    if alias.Some? {
      map_[i] := alias.value.value;
      if !alias.value.complete {
        return false;
      }
    } else {
      map_[i] := slots[i];
    }
    assert slots[..i] == codes;
    var dup := Occurs(slots, i, slots[i]);
    ok := !dup;
  }

  method FirstFree(slots: array<nat>, ghost codes: seq<nat>) returns (i: nat)
    requires Holds(slots[..], codes)
    ensures i == |codes|
  {
    assert forall k :: 0 <= k < |codes| ==> slots[..][..|codes|][k] == slots[k];
    assert forall k :: |codes| <= k < slots.Length ==> slots[..][k] == slots[k];
    i := 0;
    while i < slots.Length && slots[i] != FREE
      invariant 0 <= i <= |codes|
      invariant i < |codes| ==> codes[i] == slots[i]
    {
      i := i + 1;
    }
  }

  // ----- A whole codec section

  datatype Line = FourccLine(text: string, alias: Option<string>) | FormatLine(fid: Number, alias_: Option<Number>)

  function LineCodes(l: Line): seq<nat> {
    match l
    case FourccLine(text, _) => Groups(text)
    case FormatLine(fid, _) => [fid.value]
  }

  predicate LineOk(l: Line) {
    match l
    case FourccLine(text, _) => WellFormed(text)
    case FormatLine(fid, alias) => fid.complete && (alias.Some? ==> alias.value.complete)
  }

  // An alias of a fourcc line has four characters.
  predicate AliasThere(l: Line) {
    l.FourccLine? && l.alias.Some? ==> |l.alias.value| >= 4
  }

  // What a line puts beside its codes.
  function LineMap(l: Line): (r: seq<nat>)
    requires AliasThere(l)
    ensures |r| == |LineCodes(l)|
  {
    match l
    case FourccLine(text, alias) => MapOf(alias, Groups(text))
    case FormatLine(fid, alias) => [if alias.Some? then alias.value.value else fid.value]
  }

  function AllMaps(lines: seq<Line>): (r: seq<nat>)
    requires forall k :: 0 <= k < |lines| ==> AliasThere(lines[k])
    ensures |r| == |AllCodes(lines)|
  {
    if lines == [] then [] else AllMaps(lines[..|lines| - 1]) + LineMap(lines[|lines| - 1])
  }

  // A code goes with the alias of its line, and without one with itself.
  lemma LineMapMeans(l: Line, i: nat)
    requires AliasThere(l) && i < |LineCodes(l)|
    ensures match l
            case FourccLine(_, Some(a)) => LineMap(l)[i] == FourCC(a)
            case FormatLine(_, Some(a)) => LineMap(l)[i] == a.value
            case _ => LineMap(l)[i] == LineCodes(l)[i]
    ensures l.FormatLine? ==> LineCodes(l) == [l.fid.value]
  {
  }

  // The characters of the line are there to be read, and no code is the sentinel.
  ghost predicate LineReadable(l: Line) {
    && FREE !in LineCodes(l)
    && AliasThere(l)
    && (l.FourccLine? ==> forall free :: Readable(l.text, free))
  }

  function AllCodes(lines: seq<Line>): seq<nat> {
    if lines == [] then [] else AllCodes(lines[..|lines| - 1]) + LineCodes(lines[|lines| - 1])
  }

  method AddLine(l: Line, slots: array<nat>, map_: array<nat>, ghost codes: seq<nat>) returns (ok: bool)
    requires slots.Length == map_.Length && slots != map_ && Holds(slots[..], codes) && Distinct(codes)
    requires LineReadable(l)
    modifies slots, map_
    ensures ok <==> LineOk(l) && |codes + LineCodes(l)| <= slots.Length && Distinct(codes + LineCodes(l))
    ensures ok ==> Holds(slots[..], codes + LineCodes(l))
    ensures ok ==> map_[..|codes| + |LineCodes(l)|] == old(map_[..|codes|]) + LineMap(l)
  {
    match l {
      case FourccLine(text, alias) => ok := AddToFourcc(text, alias, slots, map_, codes);
      case FormatLine(fid, alias) =>
        AddDistinct(codes, fid.value);
        ok := AddToFormat(fid, alias, slots, map_, codes);
        assert ok ==> map_[..|codes| + 1] == map_[..|codes|] + [map_[|codes|]];
    }
  }

  // Any sequence of lines is accepted exactly when each line is well formed and all their codes together are
  // distinct and fit the array; the slots then hold all the codes, in order, with the aliases of their lines beside
  // them.
  method AddLines(lines: seq<Line>, slots: array<nat>, map_: array<nat>) returns (ok: bool)
    requires slots.Length == map_.Length && slots != map_ && forall i :: 0 <= i < slots.Length ==> slots[i] == FREE
    requires forall k :: 0 <= k < |lines| ==> LineReadable(lines[k])
    modifies slots, map_
    ensures ok <==> (forall k :: 0 <= k < |lines| ==> LineOk(lines[k]))
                    && |AllCodes(lines)| <= slots.Length && Distinct(AllCodes(lines))
    ensures ok ==> Filled(slots[..], map_[..], lines)
  {
    hide Holds, Distinct, LineOk, LineReadable, LineCodes, LineMap;
    NoLines(slots[..]);
    AliasesThere(lines);
    for k := 0 to |lines|
      invariant forall i :: 0 <= i < k ==> LineOk(lines[i])
      invariant Holds(slots[..], AllCodes(lines[..k])) && Distinct(AllCodes(lines[..k]))
      invariant |AllCodes(lines[..k])| <= slots.Length
      invariant map_[..|AllCodes(lines[..k])|] == AllMaps(lines[..k])
    {
      OneMore(lines, k);
      AllCodesPrefix(lines, k + 1);
      var added := AddLine(lines[k], slots, map_, AllCodes(lines[..k]));
      if !added {
        return false;
      }
      HoldsFits(slots[..], AllCodes(lines[..k + 1]));
    }
    assert lines[..|lines|] == lines;
    assert map_[..][..|AllCodes(lines)|] == map_[..|AllCodes(lines)|];
    ok := true;
  }

  // Slots and aliases as the lines say.
  ghost predicate Filled(slots: seq<nat>, map_: seq<nat>, lines: seq<Line>) {
    && (forall k :: 0 <= k < |lines| ==> AliasThere(lines[k]))
    && Holds(slots, AllCodes(lines)) && Distinct(AllCodes(lines))
    && |AllCodes(lines)| <= |map_| && map_[..|AllCodes(lines)|] == AllMaps(lines)
  }

  lemma AliasesThere(lines: seq<Line>)
    requires forall k :: 0 <= k < |lines| ==> LineReadable(lines[k])
    ensures forall k :: 0 <= k < |lines| ==> AliasThere(lines[k])
  {
  }

  lemma NoLines(slots: seq<nat>)
    requires forall i :: 0 <= i < |slots| ==> slots[i] == FREE
    ensures Holds(slots, []) && Distinct([])
  {
  }

  lemma HoldsFits(slots: seq<nat>, codes: seq<nat>)
    requires Holds(slots, codes)
    ensures |codes| <= |slots|
  {
  }

  lemma OneMore(lines: seq<Line>, k: nat)
    requires k < |lines| && forall i :: 0 <= i < |lines| ==> AliasThere(lines[i])
    ensures AllCodes(lines[..k + 1]) == AllCodes(lines[..k]) + LineCodes(lines[k])
    ensures AllMaps(lines[..k + 1]) == AllMaps(lines[..k]) + LineMap(lines[k])
  {
    assert lines[..k + 1][..k] == lines[..k];
  }

  lemma AddDistinct(codes: seq<nat>, c: nat)
    requires Distinct(codes)
    ensures Distinct(codes + [c]) <==> c !in codes
  {
    if c in codes {
      Duplicate(codes, [c]);
    }
  }

  // What is wrong with some lines stays wrong with more.
  lemma {:induction false} AllCodesPrefix(lines: seq<Line>, k: nat)
    requires k <= |lines|
    ensures AllCodes(lines[..k]) <= AllCodes(lines)
    ensures Distinct(AllCodes(lines)) ==> Distinct(AllCodes(lines[..k]))
    decreases |lines|
  {
    if k == |lines| {
      assert lines[..k] == lines;
    } else {
      AllCodesPrefix(lines[..|lines| - 1], k);
      assert lines[..|lines| - 1][..k] == lines[..k];
    }
  }

  // ----- Searching

  // A codec: the slots of its codes and of their aliases, and whether its driver is "null".
  datatype Codec = Codec(fourcc: seq<nat>, map_: seq<nat>, nullDriver: bool)

  predicate Sized(table: seq<Codec>) {
    forall k :: 0 <= k < |table| ==> |table[k].fourcc| == |table[k].map_| == CODECS_MAX_FOURCC
  }

  predicate Serves(c: Codec, code: nat) {
    c.nullDriver || code in c.fourcc
  }

  // The next codec that serves the code, from position i on.
  function NextServing(table: seq<Codec>, code: nat, i: nat): (r: Option<nat>)
    requires i <= |table|
    ensures r.Some? ==> i <= r.value < |table| && Serves(table[r.value], code)
    ensures forall k :: i <= k < (if r.Some? then r.value else |table|) ==> !Serves(table[k], code)
    decreases |table| - i
  {
    if i == |table| then None else if Serves(table[i], code) then Some(i) else NextServing(table, code, i + 1)
  }

  // find_codec: the position found, and what is written to *fourccmap.  start is the result to go on from.
  method FindCodec(table: seq<Codec>, code: nat, start: Option<nat>, force: bool)
    returns (r: Option<nat>, mapped: Option<nat>)
    requires Sized(table)
    requires start.Some? ==> start.value < |table|
    ensures r.Some? ==> r.value < |table|
    ensures var first := if start.Some? then start.value + 1 else 0;
            r == if force then (if first < |table| then Some(first) else None) else NextServing(table, code, first)
    ensures mapped.Some? <==> r.Some? && (table[r.value].nullDriver || code in table[r.value].fourcc)
    ensures mapped.Some? && table[r.value].nullDriver ==> mapped.value == table[r.value].map_[0]
    ensures mapped.Some? && !table[r.value].nullDriver ==>
              exists j :: 0 <= j < CODECS_MAX_FOURCC && table[r.value].fourcc[j] == code
                          && code !in table[r.value].fourcc[..j] && mapped.value == table[r.value].map_[j]
  {
    var first := if start.Some? then start.value + 1 else 0;
    for i := 0 to |table|
      invariant i >= first ==> !force || i == first
      invariant !force && i >= first ==> NextServing(table, code, first) == NextServing(table, code, i)
    {
      if start.Some? && i <= start.value {
        continue;
      }
      var c := table[i];
      for j := 0 to CODECS_MAX_FOURCC
        invariant code !in c.fourcc[..j] && (j > 0 ==> !c.nullDriver)
      {
        if c.fourcc[j] == code || c.nullDriver {
          return Some(i), Some(c.map_[j]);
        }
        assert c.fourcc[..j + 1] == c.fourcc[..j] + [c.fourcc[j]];
      }
      assert c.fourcc[..CODECS_MAX_FOURCC] == c.fourcc;
      if force {
        return Some(i), None;
      }
    }
    return None, None;
  }

  // In a table filled by accepted lines a code that is not the sentinel has one slot, so the alias is the one
  // given with it.
  lemma OneSlot(c: Codec, codes: seq<nat>, code: nat, i: nat, j: nat)
    requires |c.fourcc| == CODECS_MAX_FOURCC && Holds(c.fourcc, codes) && Distinct(codes) && code != FREE
    requires i < CODECS_MAX_FOURCC && j < CODECS_MAX_FOURCC && c.fourcc[i] == code && c.fourcc[j] == code
    ensures i == j && i < |codes| && codes[i] == code
  {
    assert i < |codes| ==> c.fourcc[..|codes|][i] == codes[i];
    assert j < |codes| ==> c.fourcc[..|codes|][j] == codes[j];
  }

  // Where code i of line k is among all the codes, and the same place among all the aliases.
  lemma {:induction false} PlaceOf(lines: seq<Line>, k: nat, i: nat) returns (j: nat)
    requires forall n :: 0 <= n < |lines| ==> AliasThere(lines[n])
    requires k < |lines| && i < |LineCodes(lines[k])|
    ensures j < |AllCodes(lines)| && AllCodes(lines)[j] == LineCodes(lines[k])[i]
    ensures AllMaps(lines)[j] == LineMap(lines[k])[i]
    decreases |lines|
  {
    hide LineCodes, LineMap;
    var n := |lines| - 1;
    assert AllCodes(lines) == AllCodes(lines[..n]) + LineCodes(lines[n]);
    assert AllMaps(lines) == AllMaps(lines[..n]) + LineMap(lines[n]);
    if k == n {
      j := |AllCodes(lines[..n])| + i;
    } else {
      j := PlaceOf(lines[..n], k, i);
    }
  }

  lemma {:induction false} LineOf(lines: seq<Line>, code: nat) returns (k: nat, i: nat)
    requires code in AllCodes(lines)
    ensures k < |lines| && i < |LineCodes(lines[k])| && LineCodes(lines[k])[i] == code
    decreases |lines|
  {
    var n := |lines| - 1;
    if code in LineCodes(lines[n]) {
      k := n;
      i :| 0 <= i < |LineCodes(lines[n])| && LineCodes(lines[n])[i] == code;
    } else {
      k, i := LineOf(lines[..n], code);
    }
  }

  // In a codec filled from lines, the slot of a code has the alias of the line that brought the code.
  lemma AliasOfLine(c: Codec, lines: seq<Line>, code: nat, j: nat)
    requires |c.fourcc| == |c.map_| == CODECS_MAX_FOURCC && Filled(c.fourcc, c.map_, lines) && code != FREE
    requires j < CODECS_MAX_FOURCC && c.fourcc[j] == code
    ensures exists k, i :: 0 <= k < |lines| && 0 <= i < |LineCodes(lines[k])| && LineCodes(lines[k])[i] == code
    ensures forall k, i :: 0 <= k < |lines| && 0 <= i < |LineCodes(lines[k])| && LineCodes(lines[k])[i] == code
              ==> c.map_[j] == LineMap(lines[k])[i]
  {
    var codes := AllCodes(lines);
    OneSlot(c, codes, code, j, j);
    var k0, i0 := LineOf(lines, code);
    forall k, i | 0 <= k < |lines| && 0 <= i < |LineCodes(lines[k])| && LineCodes(lines[k])[i] == code
      ensures c.map_[j] == LineMap(lines[k])[i]
    {
      var place := PlaceOf(lines, k, i);
      assert c.fourcc[place] == c.fourcc[..|codes|][place] && c.map_[place] == c.map_[..|codes|][place];
      OneSlot(c, codes, code, j, place);
    }
  }

  lemma FilledAliases(c: Codec, lines: seq<Line>)
    requires Filled(c.fourcc, c.map_, lines)
    ensures forall k :: 0 <= k < |lines| ==> AliasThere(lines[k])
  {
  }

  // A search in a table of codecs filled from their lines: a codec found with its own driver has a line with the code,
  // and what is returned beside it is the alias that line gave it.
  method FindMapped(table: seq<Codec>, sections: seq<seq<Line>>, code: nat, start: Option<nat>)
    returns (r: Option<nat>, mapped: Option<nat>)
    requires Sized(table) && |sections| == |table| && code != FREE
    requires forall t :: 0 <= t < |table| ==> Filled(table[t].fourcc, table[t].map_, sections[t])
    requires start.Some? ==> start.value < |table|
    ensures r == NextServing(table, code, if start.Some? then start.value + 1 else 0)
    ensures r.Some? && !table[r.value].nullDriver ==>
              && (exists k, i :: 0 <= k < |sections[r.value]| && 0 <= i < |LineCodes(sections[r.value][k])|
                                 && LineCodes(sections[r.value][k])[i] == code)
              && (forall k, i :: 0 <= k < |sections[r.value]| && 0 <= i < |LineCodes(sections[r.value][k])|
                                 && LineCodes(sections[r.value][k])[i] == code
                    ==> AliasThere(sections[r.value][k]) && mapped == Some(LineMap(sections[r.value][k])[i]))
  {
    hide Filled, LineCodes, LineMap;
    r, mapped := FindCodec(table, code, start, false);
    if r.Some? && !table[r.value].nullDriver {
      var c := table[r.value];
      ghost var j :| 0 <= j < CODECS_MAX_FOURCC && c.fourcc[j] == code && code !in c.fourcc[..j]
                     && mapped.value == c.map_[j];
      AliasOfLine(c, sections[r.value], code, j);
      FilledAliases(c, sections[r.value]);
    }
  }

  // Searching again from each result visits every codec that serves the code once, in table order.
  method FindAll(table: seq<Codec>, code: nat) returns (found: seq<nat>)
    requires Sized(table)
    ensures forall k :: 0 <= k < |found| ==>
              found[k] < |table| && (table[found[k]].nullDriver || code in table[found[k]].fourcc)
    ensures forall j, k :: 0 <= j < k < |found| ==> found[j] < found[k]
    ensures forall i :: 0 <= i < |table| && (table[i].nullDriver || code in table[i].fourcc) ==> i in found
  {
    found := [];
    var r, mapped := FindCodec(table, code, None, false);
    while r.Some?
      invariant forall k :: 0 <= k < |found| ==> found[k] < |table| && Serves(table[found[k]], code)
      invariant forall j, k :: 0 <= j < k < |found| ==> found[j] < found[k]
      invariant r.Some? ==> r.value < |table| && Serves(table[r.value], code)
                            && forall k :: 0 <= k < |found| ==> found[k] < r.value
      invariant forall i :: 0 <= i < (if r.Some? then r.value else |table|) && Serves(table[i], code) ==> i in found
      decreases if r.Some? then |table| - r.value else 0
    {
      found := found + [r.value];
      r, mapped := FindCodec(table, code, r, false);
    }
  }
}
