/**
 The greedy list parser inside add_to_inout (codec-cfg.c): at each step the first
 name of a table that is a prefix of the text is taken.  The comment at the format
 table says that a longer name must come before one it starts with.
 */
module NameList {
  import opened Wrappers
  import CodecTable

  // strncmp(s, name, strlen(name)) == 0
  predicate Starts(s: string, name: string) {
    |name| <= |s| && s[..|name|] == name
  }

  function FirstMatch(s: string, table: seq<string>, j: nat := 0): (r: Option<nat>)
    requires j <= |table|
    ensures r.Some? ==> j <= r.value < |table| && Starts(s, table[r.value])
    ensures forall i :: j <= i < (if r.Some? then r.value else |table|) ==> !Starts(s, table[i])
    decreases |table| - j
  {
    if j == |table| then None else if Starts(s, table[j]) then Some(j) else FirstMatch(s, table, j + 1)
  }

  // The positions in the table of the names of a text, None when it does not parse.
  function Names(s: string, table: seq<string>): (r: Option<seq<nat>>)
    ensures r.Some? ==> r.value != [] && InTable(r.value, table)
    decreases |s|
  {
    match FirstMatch(s, table)
    case None => None
    case Some(j) =>
      var rest := s[|table[j]|..];
      if rest == "" then Some([j])
      else if rest[0] != ',' then None
      else After([j], Names(rest[1..], table))
  }

  // A result with the positions found before it.
  function After(done: seq<nat>, r: Option<seq<nat>>): Option<seq<nat>> {
    match r
    case None => None
    case Some(js) => Some(done + js)
  }

  lemma AfterLaws(done: seq<nat>, j: nat, r: Option<seq<nat>>)
    ensures After([], r) == r
    ensures After(done, After([j], r)) == After(done + [j], r)
    ensures After(done, Some([j])) == Some(done + [j])
  {
    if r.Some? {
      assert [] + r.value == r.value;
      assert done + ([j] + r.value) == done + [j] + r.value;
    }
  }

  predicate InTable(js: seq<nat>, table: seq<string>) {
    forall k :: 0 <= k < |js| ==> js[k] < |table|
  }

  function Join(js: seq<nat>, table: seq<string>): string
    requires js != [] && InTable(js, table)
  {
    if |js| == 1 then table[js[0]] else table[js[0]] + "," + Join(js[1..], table)
  }

  predicate CommaFree(table: seq<string>) {
    forall i :: 0 <= i < |table| ==> ',' !in table[i]
  }

  // A name that starts another one comes after it.
  predicate Ordered(table: seq<string>) {
    forall i, j :: 0 <= i < j < |table| ==> !Starts(table[j], table[i])
  }

  lemma FirstMatchOf(j: nat, tail: string, table: seq<string>)
    requires CommaFree(table) && Ordered(table) && j < |table| && (tail == "" || tail[0] == ',')
    ensures FirstMatch(table[j] + tail, table) == Some(j)
  {
    var s := table[j] + tail;
    assert Starts(s, table[j]) by {
      assert s[..|table[j]|] == table[j];
    }
    forall i | 0 <= i < j ensures !Starts(s, table[i]) {
      if |table[i]| <= |table[j]| {
        assert s[..|table[i]|] == table[j][..|table[i]|];
        assert !Starts(table[j], table[i]);
      } else if |table[i]| <= |s| {
        assert s[..|table[i]|][|table[j]|] == ',';
      }
    }
  }

  lemma {:induction false} JoinRead(js: seq<nat>, table: seq<string>)
    requires CommaFree(table) && Ordered(table) && js != [] && InTable(js, table)
    ensures Names(Join(js, table), table) == Some(js)
  {
    var j := js[0];
    var tail := if |js| == 1 then "" else "," + Join(js[1..], table);
    assert Join(js, table) == table[j] + tail;
    FirstMatchOf(j, tail, table);
    assert (table[j] + tail)[|table[j]|..] == tail;
    assert js == [j] + js[1..];
    if |js| == 1 {
      assert js == [j];
    } else {
      JoinRead(js[1..], table);
      assert tail[1..] == Join(js[1..], table);
    }
  }

  // Whatever the table, what parses is the join of what it parses to.
  lemma {:induction false} ReadIsJoin(s: string, table: seq<string>)
    requires Names(s, table).Some?
    ensures s == Join(Names(s, table).value, table)
    decreases |s|
  {
    var j := FirstMatch(s, table).value;
    var rest := s[|table[j]|..];
    assert s == table[j] + rest;
    if rest != "" {
      ReadIsJoin(rest[1..], table);
      var js := Names(rest[1..], table).value;
      assert ([j] + js)[1..] == js;
      assert rest == "," + rest[1..];
    }
  }

  // The rule of the comment is what the parser needs, no more and no less: it recovers every joined list if and
  // only if the table is ordered.
  lemma OrderedExactly(table: seq<string>)
    requires CommaFree(table)
    ensures (forall js :: js != [] && InTable(js, table) ==> Names(Join(js, table), table) == Some(js))
            <==> Ordered(table)
  {
    if Ordered(table) {
      forall js | js != [] && InTable(js, table) ensures Names(Join(js, table), table) == Some(js) {
        JoinRead(js, table);
      }
    } else {
      var i, j :| 0 <= i < j < |table| && Starts(table[j], table[i]);
      var js: seq<nat> := [j];
      assert Join(js, table) == table[j] && InTable(js, table);
      var r := FirstMatch(table[j], table);
      assert r.Some? && r.value <= i;
    }
  }

  // For an ordered table a text is accepted if and only if it is a joined list.
  lemma AcceptedExactly(s: string, table: seq<string>)
    requires CommaFree(table) && Ordered(table)
    ensures Names(s, table).Some? <==> exists js :: js != [] && InTable(js, table) && s == Join(js, table)
  {
    if Names(s, table).Some? {
      ReadIsJoin(s, table);
    }
    if exists js :: js != [] && InTable(js, table) && s == Join(js, table) {
      var js :| js != [] && InTable(js, table) && s == Join(js, table);
      JoinRead(js, table);
    }
  }

  // Two names with a comma between them.
  lemma TwoNames(i: nat, j: nat, table: seq<string>)
    requires CommaFree(table) && Ordered(table) && i < |table| && j < |table|
    ensures Names(table[i] + "," + table[j], table) == Some([i, j])
  {
    JoinRead([i, j], table);
    assert [i, j][1..] == [j];
  }

  // ----- The code

  // The first unused slot.
  function Used(codes: seq<nat>): (n: nat)
    ensures n <= |codes| && forall i :: 0 <= i < n ==> codes[i] != CodecTable.FREE
    ensures n < |codes| ==> codes[n] == CodecTable.FREE
  {
    if codes == [] || codes[0] == CodecTable.FREE then 0 else 1 + Used(codes[1..])
  }

  lemma {:induction false} UsedIs(codes: seq<nat>, n: nat)
    requires n <= |codes| && forall i :: 0 <= i < n ==> codes[i] != CodecTable.FREE
    requires n < |codes| ==> codes[n] == CodecTable.FREE
    ensures Used(codes) == n
  {
    if n > 0 {
      UsedIs(codes[1..], n - 1);
    }
  }

  function Bits(js: seq<nat>): set<nat> {
    set j | j in js
  }

  // The flag list: the set of the bits that are set, None on a parse error.
  method ParseFlags(s0: string, flagNames: seq<string>) returns (flags: Option<set<nat>>)
    ensures match Names(s0, flagNames)
            case None => flags == None
            case Some(js) => flags.Some? && forall j :: j in flags.value <==> j in js
  {
    var s, bits := s0, {};
    ghost var done: seq<nat> := [];
    AfterLaws([], 0, Names(s, flagNames));
    while true
      invariant bits == Bits(done)
      invariant Names(s0, flagNames) == After(done, Names(s, flagNames))
      decreases |s|
    {
      var j := FirstMatch(s, flagNames);
      if j.None? {
        return None;
      }
      bits := bits + {j.value};
      assert bits == Bits(done + [j.value]);
      s := s[|flagNames[j.value]|..];
      AfterLaws(done, j.value, if s == "" then None else Names(s[1..], flagNames));
      done := done + [j.value];
      if s == "" {
        return Some(bits);
      }
      if s[0] != ',' {
        return None;
      }
      s := s[1..];
    }
  }

  method FirstUnused(codes: array<nat>) returns (i: nat)
    ensures i == Used(codes[..])
  {
    assert forall k :: 0 <= k < codes.Length ==> codes[..][k] == codes[k];
    i := 0;
    while i < codes.Length && codes[i] != CodecTable.FREE
      invariant 0 <= i <= codes.Length && forall k :: 0 <= k < i ==> codes[k] != CodecTable.FREE
    {
      i := i + 1;
    }
    UsedIs(codes[..], i);
  }

  lemma NoFlags()
    ensures Bits([]) == {}
  {
  }

  // add_to_inout: the formats named in the text go into the free slots, all with the same flags.
  method AddToInOut(sfmt: string, sflags: Option<string>, table: seq<string>, nums: seq<nat>, flagNames: seq<string>,
                    outfmt: array<nat>, outflags: array<set<nat>>)
    returns (ok: bool)
    requires |nums| == |table| && outfmt.Length == outflags.Length
    modifies outfmt, outflags
    ensures var n := Used(old(outfmt[..]));
            var flags := match sflags case None => Some([]) case Some(f) => Names(f, flagNames);
            var js := Names(sfmt, table);
            && (ok <==> flags.Some? && js.Some? && n + |js.value| <= outfmt.Length)
            && outfmt[..n] == old(outfmt[..n]) && outflags[..n] == old(outflags[..n])
            && (ok ==>
                  var m := n + |js.value|;
                  && (forall k :: 0 <= k < |js.value| ==>
                        && outfmt[n + k] == nums[js.value[k]]
                        && forall b :: b in outflags[n + k] <==> b in flags.value)
                  && outfmt[m..] == old(outfmt[m..]))
  {
    hide Names;
    var i := FirstUnused(outfmt);
    NoFlags();
    var free := outfmt.Length - i;
    if free == 0 {
      assert outfmt[i..] == old(outfmt[i..]);
      return false;
    }
    var flags: set<nat> := {};
    if sflags.Some? {
      var f := ParseFlags(sflags.value, flagNames);
      if f.None? {
        return false;
      }
      flags := f.value;
    }
    ok := FillSlots(sfmt, table, nums, flags, outfmt, outflags, i);
    if ok {
      ghost var js := Names(sfmt, table).value;
      ElementsStored(js, nums, flags);
      SliceAt(outfmt[..], i, NumsOf(js, nums));
      SliceAt(outflags[..], i, Same(flags, |js|));
    }
  }

  lemma SliceAt<T>(xs: seq<T>, i: nat, ys: seq<T>)
    requires i + |ys| <= |xs| && xs[i..i + |ys|] == ys
    ensures forall k :: 0 <= k < |ys| ==> xs[i + k] == ys[k]
  {
    forall k | 0 <= k < |ys| ensures xs[i + k] == ys[k] {
      assert xs[i..i + |ys|][k] == xs[i + k];
    }
  }

  function NumsOf(js: seq<nat>, nums: seq<nat>): seq<nat>
    requires forall k :: 0 <= k < |js| ==> js[k] < |nums|
  {
    seq(|js|, k requires 0 <= k < |js| => nums[js[k]])
  }

  function Same(flags: set<nat>, n: nat): seq<set<nat>> {
    seq(n, _ => flags)
  }

  lemma NothingStored(nums: seq<nat>, flags: set<nat>)
    ensures NumsOf([], nums) == [] && Same(flags, 0) == []
  {
  }

  lemma OneStored(js: seq<nat>, j: nat, nums: seq<nat>, flags: set<nat>)
    requires j < |nums| && forall k :: 0 <= k < |js| ==> js[k] < |nums|
    ensures NumsOf(js + [j], nums) == NumsOf(js, nums) + [nums[j]]
    ensures Same(flags, |js + [j]|) == Same(flags, |js|) + [flags]
  {
  }

  lemma ElementsStored(js: seq<nat>, nums: seq<nat>, flags: set<nat>)
    requires forall k :: 0 <= k < |js| ==> js[k] < |nums|
    ensures |NumsOf(js, nums)| == |js| == |Same(flags, |js|)|
    ensures forall k :: 0 <= k < |js| ==> NumsOf(js, nums)[k] == nums[js[k]] && Same(flags, |js|)[k] == flags
  {
  }

  // The loop over the format names.
  method FillSlots(sfmt: string, table: seq<string>, nums: seq<nat>, flags: set<nat>, outfmt: array<nat>,
                   outflags: array<set<nat>>, start: nat)
    returns (ok: bool)
    requires |nums| == |table| && outfmt.Length == outflags.Length && start < outfmt.Length
    modifies outfmt, outflags
    ensures ok <==> Names(sfmt, table).Some? && start + |Names(sfmt, table).value| <= outfmt.Length
    ensures outfmt[..start] == old(outfmt[..start]) && outflags[..start] == old(outflags[..start])
    ensures ok ==> var js := Names(sfmt, table).value; var m := start + |js|;
                   && outfmt[start..m] == NumsOf(js, nums)
                   && outflags[start..m] == Same(flags, |js|)
                   && outfmt[m..] == old(outfmt[m..])
  {
    hide NumsOf, Same, FirstMatch;
    NothingStored(nums, flags);
    var s, i, free := sfmt, start, outfmt.Length - start;
    ghost var done: seq<nat> := [];
    AfterLaws([], 0, Names(s, table));
    while true
      invariant i == start + |done| && free == outfmt.Length - i > 0 && InTable(done, table)
      invariant Names(sfmt, table) == After(done, Names(s, table))
      invariant outfmt[start..i] == NumsOf(done, nums) && outflags[start..i] == Same(flags, |done|)
      invariant outfmt[..start] == old(outfmt[..start]) && outflags[..start] == old(outflags[..start])
      invariant forall k :: i <= k < outfmt.Length ==> outfmt[k] == old(outfmt[k])
      decreases |s|
    {
      var j := FirstMatch(s, table);
      if j.None? {
        return false;
      }
      Store(outfmt, outflags, start, i, nums[j.value], flags);
      s := s[|table[j.value]|..];
      AfterLaws(done, j.value, if s == "" then None else Names(s[1..], table));
      OneStored(done, j.value, nums, flags);
      done := done + [j.value];
      i := i + 1;
      if s == "" {
        assert Names(sfmt, table) == Some(done) && outfmt[i..] == old(outfmt[i..]);
        return true;
      }
      if s[0] != ',' {
        return false;
      }
      free := free - 1;
      if free == 0 {
        return false;
      }
      s := s[1..];
    }
  }

  method Store(outfmt: array<nat>, outflags: array<set<nat>>, start: nat, i: nat, num: nat, flags: set<nat>)
    requires start <= i < outfmt.Length == outflags.Length
    modifies outfmt, outflags
    ensures outfmt[start..i + 1] == old(outfmt[start..i]) + [num]
    ensures outflags[start..i + 1] == old(outflags[start..i]) + [flags]
    ensures outfmt[..start] == old(outfmt[..start]) && outflags[..start] == old(outflags[..start])
    ensures forall k :: i < k < outfmt.Length ==> outfmt[k] == old(outfmt[k])
  {
    outfmt[i], outflags[i] := num, flags;
  }

  // ----- The tables

  const FLAGS: seq<string> := ["flip", "noflip", "yuvhack", "query", "static"]

  // The table of the flags follows the rule.
  lemma FlagsOrdered()
    ensures CommaFree(FLAGS) && Ordered(FLAGS)
  {
    forall i, j | 0 <= i < j < |FLAGS| ensures !Starts(FLAGS[j], FLAGS[i]) {
      assert FLAGS[i][0] != FLAGS[j][0];
    }
  }

  // The names of fmt_table, in its order.
  const PLANAR: seq<string> := ["YV12", "I420", "IYUV", "NV12", "NV21", "YVU9", "IF09", "444P16LE", "444P16BE",
                                "422P16LE", "422P16BE", "420P16LE", "420P16BE"]
  const LUMA: seq<string> := ["444P16", "422P16", "420P16", "420A", "444P", "422P", "411P", "440P", "Y800", "Y8",
                              "YUY2", "UYVY", "YVYU"]
  const RGB: seq<string> := ["RGB48LE", "RGB48BE", "RGB4", "RGB8", "RGB15", "RGB16", "RGB24", "RGB32"]
  const BGR: seq<string> := ["BGR4", "BGR8", "BGR15", "BGR16", "BGR24", "BGR32", "RGB1", "BGR1"]
  const HARDWARE: seq<string> := ["MPES", "ZRMJPEGNI", "ZRMJPEGIT", "ZRMJPEGIB", "IDCT_MPEG2", "MOCO_MPEG2"]
  const VDPAU: seq<string> := ["VDPAU_MPEG1", "VDPAU_MPEG2", "VDPAU_H264", "VDPAU_WMV3", "VDPAU_VC1", "VDPAU_MPEG4"]

  const FORMATS: seq<string> := PLANAR + (LUMA + (RGB + (BGR + (HARDWARE + VDPAU))))

  // No name of a starts a name of b.
  predicate Apart(a: seq<string>, b: seq<string>) {
    forall i, j :: 0 <= i < |a| && 0 <= j < |b| ==> !Starts(b[j], a[i])
  }

  lemma OrderedConcat(a: seq<string>, b: seq<string>)
    requires CommaFree(a) && Ordered(a) && CommaFree(b) && Ordered(b) && Apart(a, b)
    ensures CommaFree(a + b) && Ordered(a + b)
  {
  }

  lemma ApartConcat(a: seq<string>, b: seq<string>, c: seq<string>)
    requires Apart(a, b) && Apart(a, c)
    ensures Apart(a, b + c)
  {
  }

  // The characters that tell names of the tables apart.
  lemma SameChars(s: string, name: string)
    requires Starts(s, name)
    ensures |name| <= |s| && (|name| > 0 ==> s[0] == name[0]) && (|name| > 1 ==> s[1] == name[1])
    ensures (|name| > 2 ==> s[2] == name[2]) && (|name| > 3 ==> s[3] == name[3])
    ensures (|name| > 4 ==> s[4] == name[4]) && (|name| > 5 ==> s[5] == name[5]) && (|name| > 10 ==> s[10] == name[10])
    ensures (|name| > 6 ==> s[6] == name[6]) && (|name| > 7 ==> s[7] == name[7]) && (|name| > 8 ==> s[8] == name[8])
  {
    assert forall k :: 0 <= k < |name| ==> s[..|name|][k] == s[k];
  }

  lemma PlanarOrdered()
    ensures CommaFree(PLANAR) && Ordered(PLANAR)
  {
    forall i, j | 0 <= i < j < |PLANAR| && Starts(PLANAR[j], PLANAR[i]) ensures false {
      SameChars(PLANAR[j], PLANAR[i]);
    }
  }

  lemma LumaOrdered()
    ensures CommaFree(LUMA) && Ordered(LUMA)
  {
    forall i, j | 0 <= i < j < |LUMA| && Starts(LUMA[j], LUMA[i]) ensures false {
      SameChars(LUMA[j], LUMA[i]);
    }
  }

  lemma RgbOrdered()
    ensures CommaFree(RGB) && Ordered(RGB)
  {
    forall i, j | 0 <= i < j < |RGB| && Starts(RGB[j], RGB[i]) ensures false {
      SameChars(RGB[j], RGB[i]);
    }
  }

  lemma BgrOrdered()
    ensures CommaFree(BGR) && Ordered(BGR)
  {
    forall i, j | 0 <= i < j < |BGR| && Starts(BGR[j], BGR[i]) ensures false {
      SameChars(BGR[j], BGR[i]);
    }
  }

  lemma HardwareOrdered()
    ensures CommaFree(HARDWARE) && Ordered(HARDWARE)
  {
    forall i, j | 0 <= i < j < |HARDWARE| && Starts(HARDWARE[j], HARDWARE[i]) ensures false {
      SameChars(HARDWARE[j], HARDWARE[i]);
    }
  }

  lemma VdpauOrdered()
    ensures CommaFree(VDPAU) && Ordered(VDPAU)
  {
    forall i, j | 0 <= i < j < |VDPAU| && Starts(VDPAU[j], VDPAU[i]) ensures false {
      SameChars(VDPAU[j], VDPAU[i]);
    }
  }

  lemma PlanarApart()
    ensures Apart(PLANAR, LUMA) && Apart(PLANAR, RGB)
  {
    forall i, j | 0 <= i < |PLANAR| && 0 <= j < |LUMA| && Starts(LUMA[j], PLANAR[i]) ensures false {
      SameChars(LUMA[j], PLANAR[i]);
    }
    forall i, j | 0 <= i < |PLANAR| && 0 <= j < |RGB| && Starts(RGB[j], PLANAR[i]) ensures false {
      SameChars(RGB[j], PLANAR[i]);
    }
  }

  lemma PlanarApartToo()
    ensures Apart(PLANAR, BGR) && Apart(PLANAR, HARDWARE) && Apart(PLANAR, VDPAU)
  {
    forall i, j | 0 <= i < |PLANAR| && 0 <= j < |BGR| && Starts(BGR[j], PLANAR[i]) ensures false {
      SameChars(BGR[j], PLANAR[i]);
    }
    forall i, j | 0 <= i < |PLANAR| && 0 <= j < |HARDWARE| && Starts(HARDWARE[j], PLANAR[i]) ensures false {
      SameChars(HARDWARE[j], PLANAR[i]);
    }
    forall i, j | 0 <= i < |PLANAR| && 0 <= j < |VDPAU| && Starts(VDPAU[j], PLANAR[i]) ensures false {
      SameChars(VDPAU[j], PLANAR[i]);
    }
  }

  lemma LumaApart()
    ensures Apart(LUMA, RGB) && Apart(LUMA, BGR)
  {
    forall i, j | 0 <= i < |LUMA| && 0 <= j < |RGB| && Starts(RGB[j], LUMA[i]) ensures false {
      SameChars(RGB[j], LUMA[i]);
    }
    forall i, j | 0 <= i < |LUMA| && 0 <= j < |BGR| && Starts(BGR[j], LUMA[i]) ensures false {
      SameChars(BGR[j], LUMA[i]);
    }
  }

  lemma LumaApartToo()
    ensures Apart(LUMA, HARDWARE) && Apart(LUMA, VDPAU)
  {
    forall i, j | 0 <= i < |LUMA| && 0 <= j < |HARDWARE| && Starts(HARDWARE[j], LUMA[i]) ensures false {
      SameChars(HARDWARE[j], LUMA[i]);
    }
    forall i, j | 0 <= i < |LUMA| && 0 <= j < |VDPAU| && Starts(VDPAU[j], LUMA[i]) ensures false {
      SameChars(VDPAU[j], LUMA[i]);
    }
  }

  lemma RgbApart()
    ensures Apart(RGB, BGR) && Apart(RGB, HARDWARE) && Apart(RGB, VDPAU)
  {
    forall i, j | 0 <= i < |RGB| && 0 <= j < |BGR| && Starts(BGR[j], RGB[i]) ensures false {
      SameChars(BGR[j], RGB[i]);
    }
    forall i, j | 0 <= i < |RGB| && 0 <= j < |HARDWARE| && Starts(HARDWARE[j], RGB[i]) ensures false {
      SameChars(HARDWARE[j], RGB[i]);
    }
    forall i, j | 0 <= i < |RGB| && 0 <= j < |VDPAU| && Starts(VDPAU[j], RGB[i]) ensures false {
      SameChars(VDPAU[j], RGB[i]);
    }
  }

  lemma BgrApart()
    ensures Apart(BGR, HARDWARE) && Apart(BGR, VDPAU)
  {
    forall i, j | 0 <= i < |BGR| && 0 <= j < |HARDWARE| && Starts(HARDWARE[j], BGR[i]) ensures false {
      SameChars(HARDWARE[j], BGR[i]);
    }
    forall i, j | 0 <= i < |BGR| && 0 <= j < |VDPAU| && Starts(VDPAU[j], BGR[i]) ensures false {
      SameChars(VDPAU[j], BGR[i]);
    }
  }

  lemma HardwareApart()
    ensures Apart(HARDWARE, VDPAU)
  {
    forall i, j | 0 <= i < |HARDWARE| && 0 <= j < |VDPAU| && Starts(VDPAU[j], HARDWARE[i]) ensures false {
      SameChars(VDPAU[j], HARDWARE[i]);
    }
  }

  // The table of the formats follows the rule, so every list of its names is recovered.
  lemma FormatsOrdered()
    ensures CommaFree(FORMATS) && Ordered(FORMATS)
  {
    hide CommaFree, Ordered, Apart, Starts;
    VdpauOrdered();
    HardwareOrdered();
    HardwareApart();
    OrderedConcat(HARDWARE, VDPAU);
    BgrOrdered();
    BgrApart();
    ApartConcat(BGR, HARDWARE, VDPAU);
    OrderedConcat(BGR, HARDWARE + VDPAU);
    RgbOrdered();
    RgbApart();
    ApartConcat(RGB, HARDWARE, VDPAU);
    ApartConcat(RGB, BGR, HARDWARE + VDPAU);
    OrderedConcat(RGB, BGR + (HARDWARE + VDPAU));
    LumaOrdered();
    LumaApart();
    LumaApartToo();
    ApartConcat(LUMA, HARDWARE, VDPAU);
    ApartConcat(LUMA, BGR, HARDWARE + VDPAU);
    ApartConcat(LUMA, RGB, BGR + (HARDWARE + VDPAU));
    OrderedConcat(LUMA, RGB + (BGR + (HARDWARE + VDPAU)));
    PlanarOrdered();
    PlanarApart();
    PlanarApartToo();
    ApartConcat(PLANAR, HARDWARE, VDPAU);
    ApartConcat(PLANAR, BGR, HARDWARE + VDPAU);
    ApartConcat(PLANAR, RGB, BGR + (HARDWARE + VDPAU));
    ApartConcat(PLANAR, LUMA, RGB + (BGR + (HARDWARE + VDPAU)));
    OrderedConcat(PLANAR, LUMA + (RGB + (BGR + (HARDWARE + VDPAU))));
  }

  // The order of the table matters: with RGB4 before RGB48LE the longer name would not be read.
  lemma FormatsSwappedFail(table: seq<string>)
    requires table == ["RGB4", "RGB48LE"]
    ensures Names("RGB48LE", table) == None && Names("RGB48LE", FORMATS) == Some([26])
  {
    assert Starts("RGB48LE", "RGB4");
    FormatsOrdered();
    assert FORMATS[26] == "RGB48LE" && InTable([26], FORMATS) && Join([26], FORMATS) == "RGB48LE";
    JoinRead([26], FORMATS);
  }
}
