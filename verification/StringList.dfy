/**
 The string-list option type of m_option.c: a counting pass and an unescaping
 pass over a comma-separated text, and the printer.
 */
module StringList {
  import opened OptionCodes
  import opened Wrappers

  const SEP: char := ','

  // ----- What the text means

  // A separator that no backslash precedes.
  predicate Separates(s: string, k: nat)
    requires k < |s|
  {
    s[k] == SEP && !(k > 0 && s[k - 1] == '\\')
  }

  // The first separator from position k on.
  function FirstSep(s: string, k: nat := 0): (r: Option<nat>)
    requires k <= |s|
    ensures r.Some? ==> k <= r.value < |s| && Separates(s, r.value)
    ensures forall i :: k <= i < (if r.Some? then r.value else |s|) ==> !Separates(s, i)
    decreases |s| - k
  {
    if k == |s| then None else if Separates(s, k) then Some(k) else FirstSep(s, k + 1)
  }

  function Unescape(f: string): (r: string)
    ensures |r| <= |f|
    ensures r == "" <==> f == ""
  {
    if |f| < 2 then f
    else if f[0] == '\\' && f[1] == SEP then [SEP] + Unescape(f[2..])
    else [f[0]] + Unescape(f[1..])
  }

  function Fields(s: string): (r: seq<string>)
    ensures r != []
    decreases |s|
  {
    match FirstSep(s)
    case None => [Unescape(s)]
    case Some(k) => [Unescape(s[..k])] + Fields(s[k + 1..])
  }

  // The number the counting pass arrives at: it stops when nothing is left.
  function Count(s: string): nat
    decreases |s|
  {
    if s == "" then 0
    else
      match FirstSep(s)
      case None => 1
      case Some(k) => 1 + Count(s[k + 1..])
  }

  predicate EndsInSep(s: string) {
    s != "" && Separates(s, |s| - 1)
  }

  lemma FirstSepIs(s: string, k: nat)
    requires k < |s| && Separates(s, k) && forall i :: 0 <= i < k ==> !Separates(s, i)
    ensures FirstSep(s) == Some(k)
  {
    var r := FirstSep(s);
  }

  // The two passes see the same separators: the second finds one field more exactly when the text ends in a
  // separator, so the fields and the terminator fit into the n + 2 slots allocated after the first.
  lemma {:induction false} CountIsFields(s: string)
    requires s != ""
    ensures |Fields(s)| == Count(s) + if EndsInSep(s) then 1 else 0
    ensures |Fields(s)| + 1 <= Count(s) + 2
    decreases |s|
  {
    match FirstSep(s) {
      case None =>
      case Some(k) =>
        var rest := s[k + 1..];
        if rest != "" {
          CountIsFields(rest);
          assert rest[|rest| - 1] == s[|s| - 1] && (if |rest| > 1 then rest[|rest| - 2] else SEP) == s[|s| - 2];
        }
    }
  }

  // ----- Writing lists

  function Escape(f: string): string {
    if f == "" then "" else (if f[0] == SEP then ['\\', SEP] else [f[0]]) + Escape(f[1..])
  }

  function Join(fs: seq<string>): string
    requires fs != []
  {
    if |fs| == 1 then Escape(fs[0]) else Escape(fs[0]) + [SEP] + Join(fs[1..])
  }

  predicate EndsInBackslash(f: string) {
    f != "" && f[|f| - 1] == '\\'
  }

  // Some field other than the last ends in a backslash.
  predicate Ambiguous(fs: seq<string>) {
    exists i :: 0 <= i < |fs| - 1 && EndsInBackslash(fs[i])
  }

  lemma {:induction false} EscapeHides(f: string)
    ensures forall k :: 0 <= k < |Escape(f)| ==> !Separates(Escape(f), k)
    ensures |Escape(f)| >= |f|
    ensures EndsInBackslash(Escape(f)) == EndsInBackslash(f)
    ensures Escape(f) == "" <==> f == ""
  {
    if f != "" {
      EscapeHides(f[1..]);
      var e, rest := Escape(f), Escape(f[1..]);
      var n := |e| - |rest|;
      forall k | 0 <= k < |e| ensures !Separates(e, k) {
        if k >= n {
          assert !Separates(rest, k - n);
          assert e[k] == rest[k - n];
          assert k > n ==> e[k - 1] == rest[k - n - 1];
        }
      }
      if f[1..] != "" {
        assert e[|e| - 1] == rest[|rest| - 1] && f[|f| - 1] == f[1..][|f| - 2];
      }
    }
  }

  lemma {:induction false} UnescapeEscape(f: string)
    ensures Unescape(Escape(f)) == f
  {
    if f != "" {
      UnescapeEscape(f[1..]);
      EscapeHides(f[1..]);
      var e, rest := Escape(f), Escape(f[1..]);
      if f[0] == SEP {
        assert e[2..] == rest;
      } else if |e| >= 2 {
        assert e[1..] == rest && e[1] == rest[0];
        assert !Separates(rest, 0);
      }
    }
  }

  // A field that does not end in a backslash is read back, whatever list follows.
  lemma FieldRead(f: string, rest: string)
    requires !EndsInBackslash(f)
    ensures Fields(Escape(f) + [SEP] + rest) == [f] + Fields(rest)
  {
    var e := Escape(f);
    var s := e + [SEP] + rest;
    EscapeHides(f);
    assert forall i :: 0 <= i < |e| ==> s[i] == e[i];
    assert forall i :: 0 <= i < |e| ==> !Separates(s, i) by {
      assert forall i :: 0 <= i < |e| ==> Separates(s, i) == Separates(e, i);
    }
    assert Separates(s, |e|);
    FirstSepIs(s, |e|);
    assert s[..|e|] == e && s[|e| + 1..] == rest;
    UnescapeEscape(f);
  }

  lemma LastFieldRead(f: string)
    ensures Fields(Escape(f)) == [f]
  {
    EscapeHides(f);
    UnescapeEscape(f);
    assert FirstSep(Escape(f)) == None;
  }

  lemma {:induction false} EscapeConcat(a: string, b: string)
    ensures Escape(a + b) == Escape(a) + Escape(b)
  {
    if a == "" {
      assert a + b == b;
    } else {
      assert (a + b)[1..] == a[1..] + b;
      EscapeConcat(a[1..], b);
    }
  }

  // A field that ends in a backslash and the one after it read as a single field.
  function Merged(fs: seq<string>): seq<string>
    requires |fs| > 1 && fs[0] != ""
  {
    [fs[0][..|fs[0]| - 1] + [SEP] + fs[1]] + fs[2..]
  }

  lemma EscapeMerged(f: string, g: string)
    requires EndsInBackslash(f)
    ensures Escape(f[..|f| - 1] + [SEP] + g) == Escape(f) + [SEP] + Escape(g)
  {
    var init := f[..|f| - 1];
    assert f == init + ['\\'];
    assert Escape(['\\']) == ['\\'] && Escape([SEP]) == ['\\', SEP] by {
      assert ['\\'][1..] == "" && [SEP][1..] == "";
    }
    EscapeConcat(init, ['\\']);
    EscapeConcat(init, [SEP]);
    EscapeConcat(init + [SEP], g);
    assert Escape(init) + ['\\', SEP] == Escape(init) + ['\\'] + [SEP];
  }

  lemma JoinMerged(fs: seq<string>)
    requires |fs| > 1 && EndsInBackslash(fs[0])
    ensures Join(fs) == Join(Merged(fs))
  {
    hide Escape;
    EscapeMerged(fs[0], fs[1]);
    assert fs[1..][0] == fs[1] && fs[1..][1..] == fs[2..] && Merged(fs)[1..] == fs[2..];
    if |fs| > 2 {
      var a, b, tail := Escape(fs[0]), Escape(fs[1]), Join(fs[2..]);
      assert Join(fs[1..]) == b + [SEP] + tail;
      assert a + [SEP] + (b + [SEP] + tail) == a + [SEP] + b + [SEP] + tail;
    }
  }

  lemma {:induction false} FieldsOfJoin(fs: seq<string>)
    requires fs != []
    ensures |Fields(Join(fs))| <= |fs|
    ensures Ambiguous(fs) ==> |Fields(Join(fs))| < |fs|
    ensures !Ambiguous(fs) ==> Fields(Join(fs)) == fs
    decreases |fs|
  {
    if |fs| == 1 {
      LastFieldRead(fs[0]);
      assert fs == [fs[0]];
    } else if EndsInBackslash(fs[0]) {
      JoinMerged(fs);
      FieldsOfJoin(Merged(fs));
    } else {
      FieldRead(fs[0], Join(fs[1..]));
      FieldsOfJoin(fs[1..]);
      assert fs == [fs[0]] + fs[1..];
      assert Ambiguous(fs) <==> Ambiguous(fs[1..]) by {
        assert forall i :: 0 <= i < |fs| - 1 ==> fs[1..][i] == fs[i + 1];
        if Ambiguous(fs) {
          var i :| 0 <= i < |fs| - 1 && EndsInBackslash(fs[i]);
          assert EndsInBackslash(fs[1..][i - 1]);
        }
        if Ambiguous(fs[1..]) {
          var i :| 0 <= i < |fs[1..]| - 1 && EndsInBackslash(fs[1..][i]);
          assert EndsInBackslash(fs[i + 1]);
        }
      }
    }
  }

  // Joining escaped fields and parsing gives them back exactly when no field but the last ends in a backslash.
  lemma RoundTrip(fs: seq<string>)
    requires fs != []
    ensures Fields(Join(fs)) == fs <==> !Ambiguous(fs)
  {
    FieldsOfJoin(fs);
  }

  // The text of a list is empty, and so refused, for one empty field only.
  lemma JoinEmpty(fs: seq<string>)
    requires fs != []
    ensures Join(fs) == "" <==> fs == [""]
  {
    EscapeHides(fs[0]);
  }

  lemma {:induction false} EscapeNothing(f: string)
    requires SEP !in f
    ensures Escape(f) == f
  {
    if f != "" {
      EscapeNothing(f[1..]);
    }
  }

  lemma UnescapeStep(f: string)
    ensures f != "" ==>
      Unescape(f) == if |f| >= 2 && f[0] == '\\' && f[1] == SEP then [SEP] + Unescape(f[2..])
                     else [f[0]] + Unescape(f[1..])
  {
  }

  // What the first round of unescaping takes from a text and makes of it.
  function Taken(f: string): (n: nat)
    requires f != ""
    ensures 1 <= n <= |f|
  {
    if |f| >= 2 && f[0] == '\\' && f[1] == SEP then 2 else 1
  }

  function Head(f: string): string
    requires f != ""
  {
    if Taken(f) == 2 then [SEP] else [f[0]]
  }

  lemma UnescapeHead(f: string)
    requires f != ""
    ensures Unescape(f) == Head(f) + Unescape(f[Taken(f)..])
  {
    UnescapeStep(f);
  }

  lemma SameHead(a: string, b: string)
    requires a != "" && b != "" && (EndsInBackslash(a) ==> b[0] != SEP)
    ensures var n := Taken(a);
            && Taken(a + b) == n && Head(a + b) == Head(a) && (a + b)[n..] == a[n..] + b
            && (EndsInBackslash(a[n..]) ==> EndsInBackslash(a))
  {
  }

  lemma {:induction false} UnescapeConcat(a: string, b: string)
    requires EndsInBackslash(a) && b != "" ==> b[0] != SEP
    ensures Unescape(a + b) == Unescape(a) + Unescape(b)
    decreases |a|
  {
    hide Unescape, Head, Taken, EndsInBackslash;
    if a == "" {
      assert a + b == b;
    } else if b == "" {
      assert a + b == a;
    } else {
      SameHead(a, b);
      UnescapeHead(a);
      UnescapeHead(a + b);
      UnescapeConcat(a[Taken(a)..], b);
    }
  }

  lemma {:induction false} UnescapePlain(f: string)
    requires SEP !in f
    ensures Unescape(f) == f
  {
    if |f| >= 2 {
      UnescapePlain(f[1..]);
    }
  }

  lemma EscapedSep()
    ensures Unescape(['\\', SEP]) == [SEP]
  {
    assert Unescape(['\\', SEP]) == [SEP] + Unescape(['\\', SEP][2..]);
  }

  // What the unescaping pass makes of a chunk up to the next escaped separator.
  lemma UnescapeChunk(a: string, x: string)
    requires !EndsInBackslash(a) && SEP !in x
    ensures Unescape(a + x) == Unescape(a) + x
    ensures Unescape(a + (x + ['\\']) + [SEP]) == Unescape(a) + x + [SEP]
  {
    hide Unescape;
    UnescapePlain(x);
    EscapedSep();
    UnescapeConcat(a, x);
    UnescapeConcat(a + x, ['\\', SEP]);
    assert a + (x + ['\\']) + [SEP] == a + x + ['\\', SEP];
  }

  // A comma separates two fields, and behind a backslash it is part of one.
  lemma TwoFields(f: string, g: string)
    requires ',' !in f && '\\' !in f && ',' !in g && '\\' !in g
    ensures Fields(f + "," + g) == [f, g]
    ensures Fields(f + "\\," + g) == [f + "," + g]
  {
    hide Fields, Join, Escape;
    JoinTwo(f, g);
    JoinOne(f, g);
    RoundTrip([f, g]);
    RoundTrip([f + "," + g]);
  }

  lemma JoinTwo(f: string, g: string)
    requires ',' !in f && ',' !in g
    ensures Join([f, g]) == f + "," + g
  {
    EscapeNothing(f);
    EscapeNothing(g);
    assert [f, g][1..] == [g];
    hide Escape;
  }

  lemma JoinOne(f: string, g: string)
    requires ',' !in f && ',' !in g
    ensures Join([f + "," + g]) == f + "\\," + g
  {
    EscapeNothing(f);
    EscapeNothing(g);
    Grouped(f, ",", g);
    Grouped(f, "\\,", g);
    EscapeParts(f, "," + g);
    assert Escape("," + g) == "\\," + g by {
      assert ("," + g)[1..] == g;
    }
    hide Escape;
  }

  lemma Grouped(a: string, b: string, c: string)
    ensures a + (b + c) == a + b + c
  {
  }

  lemma {:induction false} EscapeParts(a: string, b: string)
    ensures Escape(a + b) == Escape(a) + Escape(b)
    decreases |a|
  {
    if a == "" {
      assert a + b == b;
    } else {
      assert (a + b)[0] == a[0] && (a + b)[1..] == a[1..] + b;
      EscapeParts(a[1..], b);
    }
  }

  // ----- The code: get_nextsep and parse_str_list

  // The C string s stands at position p of the buffer.
  ghost predicate Holds(buf: array<char>, p: nat, s: string)
    reads buf
  {
    p + |s| < buf.Length && buf[p..p + |s|] == s && buf[p + |s|] == NUL && NUL !in s
  }

  method StrChr(buf: array<char>, ptr: nat, c: char, ghost s: string) returns (r: Option<nat>)
    requires Holds(buf, ptr, s) && c != NUL
    ensures r.None? ==> c !in s
    ensures r.Some? ==> ptr <= r.value < ptr + |s| && s[r.value - ptr] == c && c !in s[..r.value - ptr]
  {
    var i := ptr;
    assert s != "" ==> buf[ptr] == buf[ptr..ptr + |s|][0];
    while buf[i] != NUL
      invariant ptr <= i <= ptr + |s| && c !in s[..i - ptr]
      invariant i < ptr + |s| ==> buf[i] == s[i - ptr]
      decreases ptr + |s| - i
    {
      assert s[..i + 1 - ptr] == s[..i - ptr] + [s[i - ptr]];
      if buf[i] == c {
        return Some(i);
      }
      i := i + 1;
      assert i < ptr + |s| ==> buf[i] == buf[ptr..ptr + |s|][i - ptr];
    }
    assert s[..|s|] == s;
    r := None;
  }

  // memmove(ptr - 1, ptr, strlen(ptr) + 1) for the C string s at ptr.
  method DropBefore(buf: array<char>, ptr: nat, ghost s: string)
    requires ptr > 0 && Holds(buf, ptr, s)
    modifies buf
    ensures Holds(buf, ptr - 1, s) && buf[..ptr - 1] == old(buf[..ptr - 1])
  {
    assert forall i :: 0 <= i < |s| ==> buf[ptr + i] == s[i] by {
      assert forall i :: 0 <= i < |s| ==> buf[ptr..ptr + |s|][i] == s[i];
    }
    var n := ptr;
    while buf[n] != NUL
      invariant ptr <= n <= ptr + |s|
      invariant n < ptr + |s| ==> buf[n] == s[n - ptr]
      decreases ptr + |s| - n
    {
      n := n + 1;
    }
    forall i | ptr <= i <= n {
      buf[i - 1] := buf[i];
    }
    assert buf[ptr - 1..ptr - 1 + |s|] == s;
  }

  // A text as a pass leaves it: the first one as it is, the second one without the escapes.
  function Pass(f: string, edit: bool): string {
    if edit then Unescape(f) else f
  }

  lemma PassChunk(a: string, x: string, edit: bool)
    requires !EndsInBackslash(a) && SEP !in x
    ensures Pass(a + x, edit) == Pass(a, edit) + x
    ensures x != "" && x[|x| - 1] == '\\' ==>
              var px := Pass(a, edit) + x;
              Pass(a + x + [SEP], edit) == Shifted(px, edit)
  {
    hide Unescape;
    UnescapeChunk(a, x);
    if x != "" && x[|x| - 1] == '\\' {
      var y := x[..|x| - 1];
      UnescapeChunk(a, y);
      assert x == y + ['\\'];
      assert (Pass(a, edit) + x)[..|Pass(a, edit) + x| - 1] == Pass(a, edit) + y;
    }
  }

  lemma NoMoreSep(a: string, x: string)
    requires SEP !in x && forall i :: 0 <= i < |a| ==> !Separates(a + x, i)
    ensures FirstSep(a + x) == None
  {
    assert forall i :: |a| <= i < |a + x| ==> (a + x)[i] == x[i - |a|];
  }

  lemma NextSep(a: string, x: string, rest: string)
    requires SEP !in x && rest != "" && rest[0] == SEP && !EndsInBackslash(a + x)
    requires forall i :: 0 <= i < |a| ==> !Separates(a + x + rest, i)
    ensures FirstSep(a + x + rest) == Some(|a + x|)
  {
    var s := a + x + rest;
    assert forall i :: |a| <= i < |a + x| ==> s[i] == x[i - |a|];
    FirstSepIs(s, |a + x|);
  }

  // A pass over s has come to position ptr of the buffer: a is behind it and b is left.
  ghost predicate Reached(buf: array<char>, start: nat, ptr: nat, edit: bool, s: string, a: string, b: string)
    reads buf
  {
    && s == a + b
    && (a != "" ==> a[|a| - 1] == SEP)
    && (forall i :: 0 <= i < |a| ==> !Separates(s, i))
    && NUL !in Pass(a, edit)
    && ptr == start + |Pass(a, edit)| < buf.Length
    && Holds(buf, ptr, b)
    && buf[start..ptr] == Pass(a, edit)
    && (ptr > start ==> buf[ptr - 1] == SEP)
  }

  // The result of a search: the first separator of s, with the text before it, as the pass leaves it, in the
  // buffer from start to there.
  ghost predicate Found(buf: array<char>, start: nat, edit: bool, s: string, r: Option<nat>)
    reads buf
  {
    match FirstSep(s)
    case None => r == None && Holds(buf, start, Pass(s, edit))
    case Some(k) =>
      && r == Some(start + |Pass(s[..k], edit)|)
      && r.value < buf.Length
      && Holds(buf, r.value, s[k..])
      && buf[start..r.value] == Pass(s[..k], edit)
  }

  // get_nextsep: the next separator, and the text with the escapes before it removed when edit is set.
  method GetNextSep(buf: array<char>, start: nat, edit: bool, ghost s: string) returns (r: Option<nat>)
    requires Holds(buf, start, s)
    modifies buf
    ensures !edit ==> buf[..] == old(buf[..])
    ensures Found(buf, start, edit, s, r)
  {
    hide Unescape, FirstSep, Holds, Pass, Shifted, Reached, Found, Separates, EndsInBackslash;
    var ptr: nat := start;
    ghost var a, b := "", s;
    AtStart(buf, start, edit, s);
    while true
      invariant Reached(buf, start, ptr, edit, s, a, b)
      invariant !edit ==> buf[..] == old(buf[..])
      decreases |b|
    {
      WhenReached(buf, start, ptr, edit, s, a, b);
      var next := StrChr(buf, ptr, SEP, b);
      if next.None? {
        FoundNone(buf, start, ptr, edit, s, a, b);
        return None;
      }
      var q := next.value;
      ghost var i: nat := q - ptr;
      BeforeSep(buf, start, ptr, edit, s, a, b, i);
      if q > start && buf[q - 1] == '\\' {
        ghost var a', b' := Escaped(buf, start, ptr, edit, s, a, b, i);
        ptr := SkipEscape(buf, start, q, edit, Pass(a, edit) + b[..i], b');
        a, b := a', b';
        Arrive(buf, start, ptr, edit, s, a, b);
      } else {
        FoundSep(buf, start, ptr, edit, s, a, b, i);
        return Some(q);
      }
    }
  }

  lemma AtStart(buf: array<char>, start: nat, edit: bool, s: string)
    requires Holds(buf, start, s)
    ensures Reached(buf, start, start, edit, s, "", s)
  {
    assert buf[start..start] == "";
  }

  lemma WhenReached(buf: array<char>, start: nat, ptr: nat, edit: bool, s: string, a: string, b: string)
    requires Reached(buf, start, ptr, edit, s, a, b)
    ensures Holds(buf, ptr, b) && s == a + b && NUL !in Pass(a, edit) && ptr == start + |Pass(a, edit)|
    ensures a != "" ==> a[|a| - 1] == SEP
    ensures forall i :: 0 <= i < |a| ==> !Separates(s, i)
  {
  }

  lemma FoundNone(buf: array<char>, start: nat, ptr: nat, edit: bool, s: string, a: string, b: string)
    requires Reached(buf, start, ptr, edit, s, a, b) && SEP !in b
    ensures Found(buf, start, edit, s, None)
  {
    hide Unescape, FirstSep, Holds, Pass;
    NoMoreSep(a, b);
    PassChunk(a, b, edit);
    HoldsJoin(buf, start, Pass(a, edit), b);
  }

  // At a separator that StrChr found, i characters on.
  ghost predicate AtSep(b: string, i: nat) {
    i < |b| && b[i] == SEP && SEP !in b[..i]
  }

  lemma BeforeSep(buf: array<char>, start: nat, ptr: nat, edit: bool, s: string, a: string, b: string, i: nat)
    requires Reached(buf, start, ptr, edit, s, a, b) && AtSep(b, i)
    ensures start <= ptr && ptr + i < buf.Length && a + b[..i] + b[i..] == s
    ensures Pass(a + b[..i], edit) == Pass(a, edit) + b[..i]
    ensures buf[start..ptr + i] == Pass(a, edit) + b[..i] && Holds(buf, ptr + i, b[i..])
    ensures i > 0 ==> buf[ptr + i - 1] == b[i - 1]
    ensures ptr > start ==> buf[ptr - 1] == SEP
    ensures EndsInBackslash(a + b[..i]) <==> ptr + i > start && buf[ptr + i - 1] == '\\'
  {
    hide Unescape, Pass, Holds, Separates, FirstSep;
    WhenReached(buf, start, ptr, edit, s, a, b);
    var x, rest := b[..i], b[i..];
    assert b == x + rest;
    assert a + (x + rest) == a + x + rest;
    PassChunk(a, x, edit);
    Extend(buf, start, ptr, Pass(a, edit), x, rest);
  }

  lemma FoundSep(buf: array<char>, start: nat, ptr: nat, edit: bool, s: string, a: string, b: string, i: nat)
    requires Reached(buf, start, ptr, edit, s, a, b) && AtSep(b, i)
    requires !(ptr + i > start && buf[ptr + i - 1] == '\\')
    ensures Found(buf, start, edit, s, Some(ptr + i))
  {
    hide Unescape, FirstSep, Holds, Pass, Separates, Reached;
    WhenReached(buf, start, ptr, edit, s, a, b);
    BeforeSep(buf, start, ptr, edit, s, a, b, i);
    NextSep(a, b[..i], b[i..]);
    var k := |a| + i;
    assert a + b[..i] + b[i..] == s;
    assert s[..k] == a + b[..i];
    assert s[k..] == b[i..];
    assert |Pass(s[..k], edit)| == |Pass(a, edit)| + i;
  }

  lemma EndsInSepNot(f: string)
    ensures f != "" && f[|f| - 1] == SEP ==> !EndsInBackslash(f)
    ensures f == "" ==> !EndsInBackslash(f)
  {
  }

  lemma NoNul(buf: array<char>, p: nat, x: string, rest: string)
    requires Holds(buf, p, x + rest)
    ensures NUL !in x
  {
    assert forall j :: 0 <= j < |x| ==> (x + rest)[j] == x[j];
  }

  // Past the escaped separator at q, which loses its backslash when edit is set; px is the text before it.
  method SkipEscape(buf: array<char>, start: nat, q: nat, edit: bool, ghost px: string, ghost rest: string)
    returns (ptr: nat)
    requires start < q < buf.Length && buf[start..q] == px && Holds(buf, q, [SEP] + rest)
    modifies buf
    ensures start < ptr < buf.Length && buf[ptr - 1] == SEP && Holds(buf, ptr, rest)
    ensures buf[start..ptr] == Shifted(px, edit)
    ensures !edit ==> buf[..] == old(buf[..])
  {
    if edit {
      assert ([SEP] + rest)[1..] == rest;
      DropBackslash(buf, start, q, px, [SEP] + rest);
      ptr := q;
    } else {
      Extend(buf, start, q, px, [SEP], rest);
      ptr := q + 1;
    }
  }

  function Shifted(px: string, edit: bool): string
    requires px != ""
  {
    (if edit then px[..|px| - 1] else px) + [SEP]
  }

  // What the text behind the pass becomes.
  lemma Escaped(buf: array<char>, start: nat, ptr: nat, edit: bool, s: string, a: string, b: string, i: nat)
    returns (a': string, b': string)
    requires Reached(buf, start, ptr, edit, s, a, b) && AtSep(b, i)
    requires ptr + i > start && ptr + i < buf.Length && buf[ptr + i - 1] == '\\'
    ensures s == a' + b' && a' != "" && a'[|a'| - 1] == SEP && |b'| < |b| && b[i..] == [SEP] + b'
    ensures forall i :: 0 <= i < |a'| ==> !Separates(s, i)
    ensures Pass(a, edit) + b[..i] != "" && Pass(a', edit) == Shifted(Pass(a, edit) + b[..i], edit)
    ensures NUL !in Pass(a', edit)
  {
    hide Unescape, Holds, Pass, Reached, Separates, EndsInBackslash;
    var x, rest := b[..i], b[i..];
    WhenReached(buf, start, ptr, edit, s, a, b);
    EndsInSepNot(a);
    BeforeSep(buf, start, ptr, edit, s, a, b, i);
    SkipEscaped(s, a, x, rest);
    PassChunk(a, x, edit);
    assert x + rest == b;
    NoNul(buf, ptr, x, rest);
    NulFree(Pass(a, edit) + x, edit);
    a', b' := a + x + [SEP], rest[1..];
  }

  lemma Arrive(buf: array<char>, start: nat, ptr: nat, edit: bool, s: string, a: string, b: string)
    requires s == a + b && a != "" && a[|a| - 1] == SEP
    requires forall i :: 0 <= i < |a| ==> !Separates(s, i)
    requires NUL !in Pass(a, edit) && start < ptr < buf.Length && Holds(buf, ptr, b)
    requires buf[start..ptr] == Pass(a, edit) && buf[ptr - 1] == SEP
    ensures Reached(buf, start, ptr, edit, s, a, b)
  {
  }

  lemma NulFree(px: string, edit: bool)
    requires NUL !in px && px != ""
    ensures NUL !in Shifted(px, edit)
  {
  }

  lemma SkipEscaped(s: string, a: string, x: string, rest: string)
    requires s == a + x + rest && rest != "" && rest[0] == SEP && SEP !in x && x != "" && x[|x| - 1] == '\\'
    requires forall i :: 0 <= i < |a| ==> !Separates(s, i)
    ensures s == a + x + [SEP] + rest[1..]
    ensures forall i :: 0 <= i < |a + x + [SEP]| ==> !Separates(s, i)
  {
    assert rest == [SEP] + rest[1..];
    assert forall i :: |a| <= i < |a + x| ==> s[i] == x[i - |a|];
  }

  // What is known of the text from start on grows by x.
  lemma Extend(buf: array<char>, start: nat, ptr: nat, pa: string, x: string, rest: string)
    requires start <= ptr < buf.Length && buf[start..ptr] == pa && Holds(buf, ptr, x + rest)
    ensures ptr + |x| < buf.Length && buf[start..ptr + |x|] == pa + x && Holds(buf, ptr + |x|, rest)
    ensures x != "" ==> buf[ptr + |x| - 1] == x[|x| - 1]
    ensures NUL !in x
  {
    HoldsTail(buf, ptr, x, rest);
    var q := ptr + |x|;
    assert buf[start..q] == buf[start..ptr] + buf[ptr..q];
    assert x != "" ==> buf[q - 1] == buf[ptr..q][|x| - 1];
    assert forall i :: 0 <= i < |x| ==> (x + rest)[i] == x[i];
  }

  // The escape in front of the separator at q goes; the separator takes its place.
  method DropBackslash(buf: array<char>, start: nat, q: nat, ghost px: string, ghost rest: string)
    requires start < q < buf.Length && buf[start..q] == px && Holds(buf, q, rest) && rest != "" && rest[0] == SEP
    modifies buf
    ensures buf[start..q] == px[..|px| - 1] + [SEP] && Holds(buf, q, rest[1..]) && buf[q - 1] == SEP
  {
    DropBefore(buf, q, rest);
    assert buf[start..q - 1] == px[..|px| - 1] by {
      assert old(buf[start..q])[..q - 1 - start] == old(buf[..q - 1])[start..];
      assert buf[..q - 1][start..] == buf[start..q - 1];
    }
    assert rest == [SEP] + rest[1..];
    HoldsTail(buf, q - 1, [SEP], rest[1..]);
    assert buf[start..q] == buf[start..q - 1] + buf[q - 1..q];
    assert buf[q - 1..q] == [buf[q - 1]];
  }

  lemma HoldsTail(buf: array<char>, p: nat, a: string, b: string)
    requires Holds(buf, p, a + b)
    ensures Holds(buf, p + |a|, b) && buf[p..p + |a|] == a
  {
    var s := buf[p..p + |a| + |b|];
    assert s == a + b;
    assert s[..|a|] == buf[p..p + |a|] && s[|a|..] == buf[p + |a|..p + |a| + |b|];
    assert forall i :: 0 <= i < |b| ==> b[i] == (a + b)[|a| + i];
  }

  lemma HoldsJoin(buf: array<char>, p: nat, a: string, b: string)
    requires p + |a| < buf.Length && buf[p..p + |a|] == a && NUL !in a && Holds(buf, p + |a|, b)
    ensures Holds(buf, p, a + b)
  {
    assert buf[p..p + |a| + |b|] == buf[p..p + |a|] + buf[p + |a|..p + |a| + |b|];
  }

  // strdup
  method Dup(s: string) returns (buf: array<char>)
    requires NUL !in s
    ensures fresh(buf) && Holds(buf, 0, s)
  {
    buf := new char[|s| + 1](i => if 0 <= i < |s| then s[i] else NUL);
    assert buf[0..|s|] == s;
  }

  // strdup the other way: the C string at p as a value.
  method ReadString(buf: array<char>, p: nat, ghost s: string) returns (t: string)
    requires Holds(buf, p, s)
    ensures t == s
  {
    var n := p;
    assert s != "" ==> buf[p] == buf[p..p + |s|][0];
    while buf[n] != NUL
      invariant p <= n <= p + |s|
      invariant n < p + |s| ==> buf[n] == s[n - p]
      decreases p + |s| - n
    {
      n := n + 1;
      assert n < p + |s| ==> buf[n] == buf[p..p + |s|][n - p];
    }
    t := buf[p..n];
  }

  // Past the separator at q.
  lemma AfterSep(buf: array<char>, q: nat, s: string, k: nat)
    requires k < |s| && s[k] == SEP && Holds(buf, q, s[k..])
    ensures Holds(buf, q + 1, s[k + 1..])
  {
    assert s[k..] == [SEP] + s[k + 1..];
    HoldsTail(buf, q, [SEP], s[k + 1..]);
  }

  lemma AtEnd(buf: array<char>, p: nat, s: string)
    requires Holds(buf, p, s)
    ensures p < buf.Length && (buf[p] == NUL <==> s == "")
  {
    assert s != "" ==> buf[p] == buf[p..p + |s|][0];
  }

  // The counting pass.
  method CountPass(buf: array<char>, ghost s: string) returns (n: nat)
    requires Holds(buf, 0, s)
    modifies buf
    ensures n == Count(s) && buf[..] == old(buf[..])
  {
    hide Holds;
    n := 0;
    var ptr: nat := 0;
    ghost var rest := s;
    AtEnd(buf, ptr, rest);
    while buf[ptr] != NUL
      invariant ptr < buf.Length && Holds(buf, ptr, rest) && (buf[ptr] == NUL <==> rest == "")
      invariant n + Count(rest) == Count(s)
      invariant buf[..] == old(buf[..])
      decreases |rest|
    {
      var next := GetNextSep(buf, ptr, false, rest);
      n := n + 1;
      if next.None? {
        return;
      }
      ghost var k := FirstSep(rest).value;
      AfterSep(buf, next.value, rest, k);
      ptr, rest := next.value + 1, rest[k + 1..];
      AtEnd(buf, ptr, rest);
    }
  }

  // The unescaping pass, into the slots allocated after the counting pass.
  method SplitPass(buf: array<char>, slots: array<Option<string>>, ghost s: string) returns (n: nat)
    requires Holds(buf, 0, s) && s != "" && slots.Length == Count(s) + 2
    modifies buf, slots
    ensures n == |Fields(s)| && n + 1 <= slots.Length
    ensures forall i :: 0 <= i < n ==> slots[i] == Some(Fields(s)[i])
  {
    hide Holds, Found, Fields, Unescape, FirstSep, Count;
    CountIsFields(s);
    n := 0;
    var ptr: nat := 0;
    ghost var rest, done := s, [];
    while true
      invariant Holds(buf, ptr, rest) && Fields(s) == done + Fields(rest)
      invariant n == |done| && forall i :: 0 <= i < n ==> slots[i] == Some(done[i])
      decreases |rest|
    {
      var last := ptr;
      var next := GetNextSep(buf, ptr, true, rest);
      ghost var f, rest' := FirstField(buf, last, rest, next);
      if next.None? {
        var text := ReadString(buf, last, f);
        slots[n] := Some(text);
        n := n + 1;
        return;
      }
      slots[n] := Some(buf[last..next.value]);
      done := done + [f];
      ptr, rest, n := next.value + 1, rest', n + 1;
    }
  }

  // The field that a search of the unescaping pass has found, and the text after its separator.
  lemma FirstField(buf: array<char>, last: nat, s: string, r: Option<nat>) returns (f: string, rest: string)
    requires Found(buf, last, true, s, r)
    ensures r.None? ==> Fields(s) == [f] && Holds(buf, last, f)
    ensures r.Some? ==>
              && last <= r.value < buf.Length && buf[last..r.value] == f
              && Fields(s) == [f] + Fields(rest) && |rest| < |s| && Holds(buf, r.value + 1, rest)
  {
    hide Holds;
    if r.None? {
      f, rest := Unescape(s), "";
    } else {
      var k := FirstSep(s).value;
      f, rest := Unescape(s[..k]), s[k + 1..];
      AfterSep(buf, r.value, s, k);
    }
  }

  // parse_str_list without a suffix operator.  The bounds are those of the option, when it has any; without
  // store the text is only checked.
  method Parse(param: string, min: Option<int>, max: Option<int>, store: bool)
    returns (code: int, slots: array<Option<string>>, n: nat)
    requires NUL !in param
    ensures fresh(slots)
    ensures code == if param == "" then M_OPT_MISSING_PARAM
                    else if (min.Some? && Count(param) < min.value) || (max.Some? && Count(param) > max.value)
                    then M_OPT_OUT_OF_RANGE else 1
    ensures code == 1 && store ==>
              && n == |Fields(param)| < slots.Length
              && slots[n] == None
              && forall i :: 0 <= i < n ==> slots[i] == Some(Fields(param)[i])
  {
    hide Holds, Unescape;
    slots, n := new Option<string>[0], 0;
    if |param| == 0 {
      return M_OPT_MISSING_PARAM, slots, 0;
    }
    var text := Dup(param);
    n := CountPass(text, param);
    if n == 0 {
      return M_OPT_INVALID, slots, n;
    }
    if (min.Some? && n < min.value) || (max.Some? && n > max.value) {
      return M_OPT_OUT_OF_RANGE, slots, 0;
    }
    code := 1;
    if !store {
      return;
    }
    slots := new Option<string>[n + 2];
    var str := Dup(param);
    n := SplitPass(str, slots, param);
    slots[n] := None;
  }

  // ----- print_str_list

  function Printed(fs: seq<string>): string {
    if fs == [] then "" else if |fs| == 1 then fs[0] else Printed(fs[..|fs| - 1]) + [SEP] + fs[|fs| - 1]
  }

  // Printing a list and parsing the text gives the list back when no field has a comma, no field but the last
  // ends in a backslash, and the list is not one empty field.
  lemma PrintedParses(fs: seq<string>)
    requires fs != [] && fs != [""] && !Ambiguous(fs)
    requires forall i :: 0 <= i < |fs| ==> SEP !in fs[i]
    ensures Printed(fs) != "" && Fields(Printed(fs)) == fs
  {
    PrintedIsJoin(fs);
    JoinEmpty(fs);
    RoundTrip(fs);
  }

  lemma {:induction false} JoinLast(fs: seq<string>)
    requires |fs| > 1
    ensures Join(fs) == Join(fs[..|fs| - 1]) + [SEP] + Escape(fs[|fs| - 1])
  {
    if |fs| > 2 {
      JoinLast(fs[1..]);
      assert fs[1..][..|fs| - 2] == fs[..|fs| - 1][1..];
      assert Join(fs[..|fs| - 1]) == Escape(fs[0]) + [SEP] + Join(fs[1..][..|fs| - 2]);
    }
  }

  lemma {:induction false} PrintedIsJoin(fs: seq<string>)
    requires fs != [] && forall i :: 0 <= i < |fs| ==> SEP !in fs[i]
    ensures Printed(fs) == Join(fs)
  {
    EscapeNothing(fs[|fs| - 1]);
    if |fs| > 1 {
      PrintedIsJoin(fs[..|fs| - 1]);
      JoinLast(fs);
    }
  }

  method Print(slots: array<Option<string>>, ghost fs: seq<string>) returns (r: Option<string>)
    requires |fs| < slots.Length && slots[|fs|] == None && forall i :: 0 <= i < |fs| ==> slots[i] == Some(fs[i])
    ensures r == if fs == [] then None else Some(Printed(fs))
  {
    r := None;
    var i := 0;
    while slots[i].Some?
      invariant 0 <= i <= |fs|
      invariant r == if i == 0 then None else Some(Printed(fs[..i]))
      decreases |fs| - i
    {
      assert fs[..i + 1][..i] == fs[..i];
      if r.Some? {
        r := Some(r.value + [SEP] + slots[i].value);
      } else {
        r := slots[i];
      }
      i := i + 1;
    }
    assert fs[..|fs|] == fs;
  }
}
