/**
 The sub-option grammar of m_option.c: name, name=value, name="value" and
 name=%length%value, separated by colons.

 A pointer into the text is the text that is left of it.
 */
module SubConfig {
  import opened OptionCodes
  import opened Wrappers

  // ----- The library functions

  // strcspn: the length of the part of p before the first character of stop.
  function Span(p: string, stop: string): (n: nat)
    ensures n <= |p|
    ensures forall i :: 0 <= i < n ==> p[i] !in stop
    ensures n < |p| ==> p[n] in stop
  {
    if p == "" || p[0] in stop then 0 else 1 + Span(p[1..], stop)
  }

  lemma {:induction false} SpanIs(a: string, b: string, stop: string)
    requires forall i :: 0 <= i < |a| ==> a[i] !in stop
    requires b == "" || b[0] in stop
    ensures Span(a + b, stop) == |a|
  {
    if a == "" {
      assert a + b == b;
    } else {
      assert (a + b)[1..] == a[1..] + b && (a + b)[0] == a[0];
      SpanIs(a[1..], b, stop);
    }
  }

  function Digit(c: char): nat {
    if '0' <= c <= '9' then c as nat - '0' as nat
    else if 'a' <= c <= 'z' then c as nat - 'a' as nat + 10
    else if 'A' <= c <= 'Z' then c as nat - 'A' as nat + 10
    else 36
  }

  // The digits at the start of p added to acc, and how many there are.
  function Digits(p: string, base: nat, acc: nat): (r: (nat, nat))
    ensures r.1 <= |p|
  {
    if p != "" && Digit(p[0]) < base then
      var (v, n) := Digits(p[1..], base, acc * base + Digit(p[0]));
      (v, n + 1)
    else (acc, 0)
  }

  predicate Space(c: char) {
    c == ' ' || 9 as char <= c <= 13 as char
  }

  function Blanks(p: string): (n: nat)
    ensures n <= |p|
  {
    if p != "" && Space(p[0]) then 1 + Blanks(p[1..]) else 0
  }

  const LONG_MAX: int := 0x7FFFFFFF
  const LONG_MIN: int := -0x80000000

  // strtol with base 0 and a long of 32 bits: the value and the number of characters used, none without a digit.
  function Strtol(p: string): (r: (int, nat))
    ensures r.1 <= |p|
  {
    var blanks := Blanks(p);
    var signed := blanks < |p| && (p[blanks] == '-' || p[blanks] == '+');
    var i := if signed then blanks + 1 else blanks;
    var q := p[i..];
    var hex := |q| > 2 && q[0] == '0' && (q[1] == 'x' || q[1] == 'X') && Digit(q[2]) < 16;
    var (v, n) := if hex then Digits(q[2..], 16, 0) else Digits(q, if q != "" && q[0] == '0' then 8 else 10, 0);
    if n == 0 then (0, 0)
    else
      var x: int := if signed && p[blanks] == '-' then -(v as int) else v as int;
      (if x > LONG_MAX then LONG_MAX else if x < LONG_MIN then LONG_MIN else x, i + n + if hex then 2 else 0)
  }

  // ----- One item

  datatype Scan = Bad | Item(name: string, value: string, rest: string)

  // The value after an equals sign, and what follows it.
  function ScanValue(p: string): (r: Scan)
    ensures r.Item? ==> |r.rest| <= |p| && |r.value| <= |p|
    ensures r.Item? && r.value == p ==> ':' !in p && !(p != "" && p[0] in "\"%")
  {
    if p != "" && p[0] == '"' then
      var n := Span(p[1..], "\"");
      if n == |p[1..]| then Bad else Item("", p[1..][..n], p[1..][n + 1..])
    else if p != "" && p[0] == '%' then
      var (len, used) := Strtol(p[1..]);
      var q := p[1..][used..];
      if q == "" || q[0] != '%' || len < 0 || len > |q| - 1 then Bad
      else Item("", q[1..][..len], q[1..][len..])
    else
      var n := Span(p, ":");
      Item("", p[..n], p[n..])
  }

  function ScanItem(p: string): (r: Scan)
    requires p != ""
    ensures r.Item? ==> |r.rest| < |p|
  {
    var n := Span(p, ":=");
    var s := if n < |p| && p[n] == '=' then ScanValue(p[n + 1..]) else Item("", "", p[n..]);
    if s.Bad? then Bad
    else if s.rest != "" && s.rest[0] != ':' then Bad
    else Item(p[..n], s.value, if s.rest == "" then "" else s.rest[1..])
  }

  // ----- The whole text

  type Pair = (string, Option<string>)

  datatype Result = Ok(pairs: seq<Pair>) | Err(code: int)

  function ValueOf(v: string): Option<string> {
    if v == "" then None else Some(v)
  }

  // A result with the pairs read before it.
  function After(lst: seq<Pair>, r: Result): Result {
    match r
    case Err(code) => Err(code)
    case Ok(pairs) => Ok(lst + pairs)
  }

  // accept is the parser of the sub-option's own type; negative codes are errors.
  function ParseFrom(p: string, names: seq<string>, accept: (string, Option<string>) -> int): Result
    decreases |p|
  {
    if p == "" then Ok([])
    else
      var s := ScanItem(p);
      if s.Bad? then Err(M_OPT_INVALID)
      else if s.name !in names then Err(M_OPT_UNKNOWN)
      else
        var r := accept(s.name, ValueOf(s.value));
        if r < 0 then Err(r)
        else After([(s.name, ValueOf(s.value))], ParseFrom(s.rest, names, accept))
  }

  // ----- Writing

  datatype Form = Bare | Plain | Quoted | Counted

  datatype Written = Written(name: string, value: Option<string>, form: Form)

  function DigitChar(k: nat): (c: char)
    requires k < 10
    ensures Digit(c) == k
  {
    (k + '0' as nat) as char
  }

  function Dec(n: nat): string {
    (if n < 10 then "" else Dec(n / 10)) + [DigitChar(n % 10)]
  }

  function EncodeValue(v: string, form: Form): string {
    match form
    case Bare => ""
    case Plain => "=" + v
    case Quoted => "=\"" + v + "\""
    case Counted => "=%" + Dec(|v|) + "%" + v
  }

  function Encode(w: Written): string {
    w.name + EncodeValue(if w.value.Some? then w.value.value else "", w.form)
  }

  function EncodeAll(ws: seq<Written>): string {
    if ws == [] then "" else if |ws| == 1 then Encode(ws[0]) else Encode(ws[0]) + ":" + EncodeAll(ws[1..])
  }

  predicate PlainOk(v: string) {
    ':' !in v && !(v != "" && v[0] in "\"%")
  }

  predicate Legal(w: Written) {
    && ':' !in w.name && '=' !in w.name
    && match w.form
       case Bare => w.value.None?
       case Plain => w.value.Some? && w.value.value != "" && PlainOk(w.value.value)
       case Quoted => w.value.Some? && w.value.value != "" && '"' !in w.value.value
       case Counted => w.value.Some? && w.value.value != "" && |w.value.value| <= LONG_MAX
  }

  lemma {:induction false} DigitsOfDec(n: nat, t: string)
    ensures Digits(Dec(n) + t, 10, 0).0 == Digits(t, 10, n).0
    ensures Digits(Dec(n) + t, 10, 0).1 == Digits(t, 10, n).1 + |Dec(n)|
    decreases n
  {
    hide Digits, Digit, DigitChar;
    var d := [DigitChar(n % 10)];
    assert Dec(n) == (if n < 10 then "" else Dec(n / 10)) + d;
    DigitFirst(n % 10, t, n / 10);
    assert 10 * (n / 10) + n % 10 == n;
    hide Dec;
    if n < 10 {
      assert Dec(n) + t == d + t;
    } else {
      DigitsOfDec(n / 10, d + t);
      assert Dec(n) + t == Dec(n / 10) + (d + t);
    }
  }

  lemma DigitFirst(k: nat, t: string, acc: nat)
    requires k < 10
    ensures var d := [DigitChar(k)];
            && Digits(d + t, 10, acc).0 == Digits(t, 10, 10 * acc + k).0
            && Digits(d + t, 10, acc).1 == Digits(t, 10, 10 * acc + k).1 + 1
  {
    hide DigitChar, Digit;
    assert ([DigitChar(k)] + t)[1..] == t;
  }

  lemma {:induction false} DecStart(n: nat)
    requires n > 0
    ensures Dec(n) != "" && '1' <= Dec(n)[0] <= '9'
  {
    if n >= 10 {
      DecStart(n / 10);
    }
  }

  lemma StrtolDec(n: nat, t: string)
    requires 0 < n <= LONG_MAX && (t == "" || !('0' <= t[0] <= '9'))
    ensures Strtol(Dec(n) + t) == (n, |Dec(n)|)
  {
    DecStart(n);
    DigitsOfDec(n, t);
    var p := Dec(n) + t;
    assert p[0] == Dec(n)[0];
    assert p[0..] == p;
  }

  lemma PlainRead(v: string, tail: string)
    requires v != "" && PlainOk(v) && (tail == "" || tail[0] == ':')
    ensures ScanValue(v + tail) == Item("", v, tail)
  {
    hide Span, Strtol;
    SpanIs(v, tail, ":");
    assert (v + tail)[0] == v[0] && (v + tail)[..|v|] == v && (v + tail)[|v|..] == tail;
  }

  lemma QuotedRead(v: string, tail: string)
    requires '"' !in v
    ensures ScanValue("\"" + v + "\"" + tail) == Item("", v, tail)
  {
    hide Span, Strtol;
    var p := "\"" + v + "\"" + tail;
    assert p[1..] == v + ("\"" + tail);
    SpanIs(v, "\"" + tail, "\"");
    assert p[1..][..|v|] == v && p[1..][|v| + 1..] == tail;
  }

  lemma CountedRead(v: string, tail: string)
    requires 0 < |v| <= LONG_MAX
    ensures ScanValue("%" + Dec(|v|) + "%" + v + tail) == Item("", v, tail)
  {
    hide Span, Strtol, Dec;
    var d := Dec(|v|);
    var p, q := "%" + d + "%" + v + tail, "%" + (v + tail);
    CountedText(d, v, tail);
    StrtolDec(|v|, q);
    assert ScanValue(p) == Item("", q[1..][..|v|], q[1..][|v|..]) by {
      assert Strtol(p[1..]) == (|v|, |d|) && p[1..][|d|..] == q;
    }
    hide ScanValue;
  }

  lemma CountedText(d: string, v: string, tail: string)
    ensures var q := "%" + (v + tail); var p := "%" + d + "%" + v + tail;
            && p[0] == '%' && p[1..] == d + q && (d + q)[|d|..] == q
            && q[0] == '%' && q[1..] == v + tail
            && (v + tail)[..|v|] == v && (v + tail)[|v|..] == tail
  {
    var q := "%" + (v + tail);
    assert "%" + d + "%" + v + tail == "%" + (d + q);
    assert (d + q)[|d|..] == q;
  }

  // Each form, where it is legal, is read back to its end.
  lemma ValueRead(w: Written, tail: string)
    requires Legal(w) && w.form != Bare && (tail == "" || tail[0] == ':')
    ensures var e := EncodeValue(w.value.value, w.form);
            e != "" && e[0] == '=' && ScanValue(e[1..] + tail) == Item("", w.value.value, tail)
  {
    hide ScanValue, Dec;
    var v := w.value.value;
    var e := EncodeValue(v, w.form);
    match w.form
    case Plain =>
      assert e[1..] == v;
      PlainRead(v, tail);
    case Quoted =>
      assert e[1..] + tail == "\"" + v + "\"" + tail;
      QuotedRead(v, tail);
    case Counted =>
      assert e[1..] + tail == "%" + Dec(|v|) + "%" + v + tail;
      CountedRead(v, tail);
  }

  lemma ItemRead(w: Written, tail: string)
    requires Legal(w) && (tail == "" || tail[0] == ':') && Encode(w) + tail != ""
    ensures ScanItem(Encode(w) + tail)
         == Item(w.name, if w.value.Some? then w.value.value else "", if tail == "" then "" else tail[1..])
  {
    hide Span, ScanValue, EncodeValue;
    var e := EncodeValue(if w.value.Some? then w.value.value else "", w.form);
    var p := Encode(w) + tail;
    assert p == w.name + (e + tail);
    if w.form == Bare {
      BareEmpty();
      assert e + tail == tail;
    } else {
      ValueRead(w, tail);
      assert e + tail == [e[0]] + (e[1..] + tail);
    }
    SpanIs(w.name, e + tail, ":=");
    ItemSplit(w.name, e + tail);
  }

  lemma BareEmpty()
    ensures EncodeValue("", Bare) == ""
  {
  }

  // Reading an item whose name is known to end where rest starts.
  lemma ItemSplit(name: string, rest: string)
    requires name + rest != "" && Span(name + rest, ":=") == |name|
    ensures var s := if rest != "" && rest[0] == '=' then ScanValue(rest[1..]) else Item("", "", rest);
            ScanItem(name + rest)
            == if s.Bad? || (s.rest != "" && s.rest[0] != ':') then Bad
               else Item(name, s.value, if s.rest == "" then "" else s.rest[1..])
  {
    hide Span, ScanValue;
    var p := name + rest;
    assert p[..|name|] == name && p[|name|..] == rest;
    assert rest != "" ==> p[|name|] == rest[0] && p[|name| + 1..] == rest[1..];
  }

  function PairsOf(ws: seq<Written>): seq<Pair> {
    seq(|ws|, i requires 0 <= i < |ws| => (ws[i].name, ws[i].value))
  }

  lemma PairsSplit(ws: seq<Written>)
    requires ws != []
    ensures PairsOf(ws) == [(ws[0].name, ws[0].value)] + PairsOf(ws[1..])
  {
  }

  lemma NotEmpty(w: Written, tail: string)
    requires w.name != ""
    ensures Encode(w) + tail != ""
  {
  }

  // What the parser makes of one written sub-option and the text after it.
  lemma ParseRead(w: Written, tail: string, names: seq<string>, accept: (string, Option<string>) -> int)
    requires Legal(w) && w.name != "" && (tail == "" || tail[0] == ':')
    ensures ParseFrom(Encode(w) + tail, names, accept)
         == if w.name !in names then Err(M_OPT_UNKNOWN)
            else if accept(w.name, w.value) < 0 then Err(accept(w.name, w.value))
            else After([(w.name, w.value)], ParseFrom(if tail == "" then "" else tail[1..], names, accept))
  {
    NotEmpty(w, tail);
    ItemRead(w, tail);
    hide ScanItem, Encode;
  }

  predicate Good(w: Written, names: seq<string>, accept: (string, Option<string>) -> int) {
    Legal(w) && w.name != "" && w.name in names && accept(w.name, w.value) >= 0
  }

  // Every list of known, accepted sub-options, each value in any form that is legal for it, is read back.
  lemma {:induction false} RoundTrip(ws: seq<Written>, names: seq<string>, accept: (string, Option<string>) -> int)
    requires forall i :: 0 <= i < |ws| ==> Good(ws[i], names, accept)
    ensures ParseFrom(EncodeAll(ws), names, accept) == Ok(PairsOf(ws))
  {
    hide ScanItem, Encode;
    if ws != [] {
      var w := ws[0];
      var tail := if |ws| == 1 then "" else ":" + EncodeAll(ws[1..]);
      assert EncodeAll(ws) == Encode(w) + tail;
      ParseRead(w, tail, names, accept);
      RoundTrip(ws[1..], names, accept);
      PairsSplit(ws);
      hide PairsOf;
      if |ws| == 1 {
        assert ws[1..] == [];
      }
    }
  }

  // The first sub-option that is unknown, or refused by its type, decides the error, whatever follows it.
  lemma {:induction false} FirstError(ws: seq<Written>, bad: Written, rest: string, names: seq<string>,
                                      accept: (string, Option<string>) -> int)
    requires forall i :: 0 <= i < |ws| ==> Good(ws[i], names, accept)
    requires Legal(bad) && bad.name != "" && !Good(bad, names, accept) && (rest == "" || rest[0] == ':')
    ensures ParseFrom(EncodeAll(ws + [bad]) + rest, names, accept)
         == Err(if bad.name !in names then M_OPT_UNKNOWN else accept(bad.name, bad.value))
  {
    hide Encode, ParseFrom;
    if ws == [] {
      assert ws + [bad] == [bad];
      ParseRead(bad, rest, names, accept);
    } else {
      var w, more := ws[0], ws[1..] + [bad];
      var tail := ":" + EncodeAll(more) + rest;
      assert (ws + [bad])[1..] == more && (ws + [bad])[0] == w;
      assert EncodeAll(ws + [bad]) + rest == Encode(w) + tail;
      ParseRead(w, tail, names, accept);
      assert tail[1..] == EncodeAll(more) + rest;
      FirstError(ws[1..], bad, rest, names, accept);
    }
  }

  // ----- Malformed items

  // Text behind a list of good items.
  function Behind(ws: seq<Written>, tail: string): string {
    if ws == [] then tail else EncodeAll(ws) + ":" + tail
  }

  // After good items the parser goes on with what follows them.
  lemma {:induction false} BehindRead(ws: seq<Written>, tail: string, names: seq<string>,
                                      accept: (string, Option<string>) -> int)
    requires forall i :: 0 <= i < |ws| ==> Good(ws[i], names, accept)
    ensures ParseFrom(Behind(ws, tail), names, accept) == After(PairsOf(ws), ParseFrom(tail, names, accept))
    decreases |ws|
  {
    hide Encode, ParseFrom;
    if ws == [] {
      AfterNothing(ParseFrom(tail, names, accept));
    } else {
      var w := ws[0];
      BehindRead(ws[1..], tail, names, accept);
      assert Behind(ws, tail) == Encode(w) + (":" + Behind(ws[1..], tail)) by {
        if |ws| == 1 {
          assert EncodeAll(ws) == Encode(w) && Behind(ws[1..], tail) == tail;
        } else {
          assert EncodeAll(ws) == Encode(w) + ":" + EncodeAll(ws[1..]);
        }
      }
      assert (":" + Behind(ws[1..], tail))[1..] == Behind(ws[1..], tail);
      ParseRead(w, ":" + Behind(ws[1..], tail), names, accept);
      PairsSplit(ws);
      AfterTwice([(w.name, w.value)], PairsOf(ws[1..]), ParseFrom(tail, names, accept));
    }
  }

  lemma AfterTwice(a: seq<Pair>, b: seq<Pair>, r: Result)
    ensures After(a, After(b, r)) == After(a + b, r)
  {
    if r.Ok? {
      assert a + (b + r.pairs) == a + b + r.pairs;
    }
  }

  // What can be wrong with an item: a quote that is not closed, text behind a closed quote, a length beyond the end of
  // the text, text behind a counted value, and a length that no percent sign closes.
  datatype Fault = OpenQuote(v: string) | AfterQuote(v: string, x: string) | TooLong(n: nat, x: string)
                 | AfterCount(v: string, x: string) | OpenCount(n: nat, x: string)

  predicate IsFault(f: Fault) {
    match f
    case OpenQuote(v) => '"' !in v
    case AfterQuote(v, x) => '"' !in v && x != "" && x[0] != ':'
    case TooLong(n, x) => |x| < n <= LONG_MAX
    case AfterCount(v, x) => 0 < |v| <= LONG_MAX && x != "" && x[0] != ':'
    case OpenCount(n, x) => 0 < n <= LONG_MAX && (x == "" || (x[0] != '%' && !('0' <= x[0] <= '9')))
  }

  function FaultText(f: Fault): string {
    match f
    case OpenQuote(v) => "\"" + v
    case AfterQuote(v, x) => "\"" + v + "\"" + x
    case TooLong(n, x) => "%" + Dec(n) + "%" + x
    case AfterCount(v, x) => "%" + Dec(|v|) + "%" + v + x
    case OpenCount(n, x) => "%" + Dec(n) + x
  }

  // Each makes the option invalid, whatever good items come before.
  lemma MalformedIsInvalid(ws: seq<Written>, name: string, f: Fault, names: seq<string>,
                           accept: (string, Option<string>) -> int)
    requires forall i :: 0 <= i < |ws| ==> Good(ws[i], names, accept)
    requires ':' !in name && '=' !in name && IsFault(f)
    ensures ParseFrom(Behind(ws, name + "=" + FaultText(f)), names, accept) == Err(M_OPT_INVALID)
  {
    hide ScanItem, FaultText, IsFault, Behind;
    FaultIsBad(name, f);
    BehindRead(ws, name + "=" + FaultText(f), names, accept);
  }

  lemma FaultIsBad(name: string, f: Fault)
    requires ':' !in name && '=' !in name && IsFault(f)
    ensures ScanItem(name + "=" + FaultText(f)).Bad?
  {
    var t := FaultText(f);
    hide Span, ScanValue, FaultText;
    FaultValue(f);
    SpanIs(name, "=" + t, ":=");
    assert name + "=" + t == name + ("=" + t) && ("=" + t)[1..] == t;
    ItemSplit(name, "=" + t);
  }

  lemma FaultValue(f: Fault)
    requires IsFault(f)
    ensures var s := ScanValue(FaultText(f)); s.Bad? || (s.rest != "" && s.rest[0] != ':')
  {
    hide Span, Strtol, Dec;
    match f
    case OpenQuote(v) => NeverClosed(v);
    case AfterQuote(v, x) => QuotedRead(v, x);
    case TooLong(n, x) =>
      assert ("%" + Dec(n) + "%" + x)[1..] == Dec(n) + ("%" + x);
      StrtolDec(n, "%" + x);
      assert (Dec(n) + ("%" + x))[|Dec(n)|..] == "%" + x;
    case AfterCount(v, x) => CountedRead(v, x);
    case OpenCount(n, x) =>
      assert ("%" + Dec(n) + x)[1..] == Dec(n) + x;
      StrtolDec(n, x);
      assert (Dec(n) + x)[|Dec(n)|..] == x;
  }

  lemma NeverClosed(v: string)
    requires '"' !in v
    ensures ScanValue("\"" + v).Bad?
  {
    var p := "\"" + v;
    assert p[1..] == v && v + "" == v;
    SpanIs(v, "", "\"");
    hide Span;
  }

  // An equals sign without a value is as good as none.
  lemma EmptyValue(name: string, tail: string, names: seq<string>, accept: (string, Option<string>) -> int)
    requires ':' !in name && '=' !in name && name in names && accept(name, None) >= 0 && (tail == "" || tail[0] == ':')
    ensures ParseFrom(name + "=" + tail, names, accept)
         == After([(name, None)], ParseFrom(if tail == "" then "" else tail[1..], names, accept))
  {
    assert name + "=" + tail == name + ("=" + tail) && ("=" + tail)[1..] == tail;
    SpanIs(name, "=" + tail, ":=");
    SpanIs("", tail, ":");
    assert "" + tail == tail;
    ItemSplit(name, "=" + tail);
    hide Span, ScanItem;
  }

  // Lengths can be written in hexadecimal and octal, after blanks and with a sign.
  lemma HexLength()
    ensures Strtol("0x1f%") == (31, 4) && Strtol("0X1F%") == (31, 4)
  {
    assert Blanks("0x1f%") == 0 == Blanks("0X1F%");
    assert "0x1f%"[0..] == "0x1f%" && "0X1F%"[0..] == "0X1F%";
    assert "0x1f%"[2..] == "1f%" && "1f%"[1..] == "f%" && "f%"[1..] == "%";
    assert "0X1F%"[2..] == "1F%" && "1F%"[1..] == "F%" && "F%"[1..] == "%";
    assert Digits("f%", 16, 1) == (31, 1) && Digits("F%", 16, 1) == (31, 1);
  }

  lemma OctalLength()
    ensures Strtol("017%") == (15, 3)
  {
    assert Blanks("017%") == 0 && "017%"[0..] == "017%";
    assert "017%"[1..] == "17%" && "17%"[1..] == "7%" && "7%"[1..] == "%";
    assert Digits("7%", 8, 1) == (15, 1);
  }

  lemma SignedLength()
    ensures Strtol("-2%") == (-2, 2) && Strtol("+9%") == (9, 2)
  {
    assert "-2%"[1..] == "2%" && "2%"[1..] == "%" && "+9%"[1..] == "9%" && "9%"[1..] == "%";
    assert Blanks("-2%") == 0 && Blanks("+9%") == 0;
    assert Digits("2%", 10, 0) == (2, 1) && Digits("9%", 10, 0) == (9, 1);
  }

  lemma BlankLength()
    ensures Strtol(" 9%") == (9, 2) && Strtol("%") == (0, 0)
  {
    assert " 9%"[1..] == "9%" && "9%"[1..] == "%" && "%"[0..] == "%";
    assert Blanks("9%") == 0 && Blanks(" 9%") == 1 && Blanks("%") == 0;
    assert Digits("9%", 10, 0) == (9, 1) && Digits("%", 10, 0) == (0, 0);
  }

  // The counted form works for every value; the others exactly for the values they are legal for.
  lemma PlainExactly(v: string)
    requires v != ""
    ensures ScanValue(v) == Item("", v, "") <==> PlainOk(v)
  {
    if PlainOk(v) {
      PlainRead(v, "");
      assert v + "" == v;
    }
  }

  lemma QuotedExactly(v: string)
    ensures ScanValue("\"" + v + "\"") == Item("", v, "") <==> '"' !in v
  {
    var p := "\"" + v + "\"";
    if '"' !in v {
      QuotedRead(v, "");
      assert p + "" == p;
    } else {
      hide Span, Strtol;
      var i :| 0 <= i < |v| && v[i] == '"';
      assert p[1..][i] == '"';
    }
  }

  // ----- The code

  // The part of the loop that moves p.
  method NextItem(p0: string) returns (r: Scan)
    requires p0 != ""
    ensures r == ScanItem(p0)
  {
    hide Span, Strtol;
    var optlen := Span(p0, ":=");
    var subopt, subparam := p0[..optlen], "";
    var p := p0[optlen..];
    if p != "" && p[0] == '=' {
      p := p[1..];
      assert p == p0[optlen + 1..];
      if p != "" && p[0] == '"' {
        p := p[1..];
        optlen := Span(p, "\"");
        subparam := p[..optlen];
        p := p[optlen..];
        if p == "" {
          return Bad;
        }
        p := p[1..];
      } else if p != "" && p[0] == '%' {
        p := p[1..];
        var (len, used) := Strtol(p);
        p := p[used..];
        if p == "" || p[0] != '%' || len < 0 || len > |p| - 1 {
          return Bad;
        }
        p := p[1..];
        subparam := p[..len];
        p := p[len..];
      } else {
        optlen := Span(p, ":");
        subparam := p[..optlen];
        p := p[optlen..];
      }
    }
    if p != "" && p[0] == ':' {
      p := p[1..];
    } else if p != "" {
      return Bad;
    }
    r := Item(subopt, subparam, p);
  }

  lemma AfterNothing(r: Result)
    ensures After([], r) == r
  {
  }

  lemma AfterAll(lst: seq<Pair>)
    ensures After(lst, Ok([])) == Ok(lst)
  {
  }

  lemma AfterError(lst: seq<Pair>, code: int)
    ensures After(lst, Err(code)) == Err(code)
  {
  }

  lemma AfterOne(lst: seq<Pair>, x: Pair, r: Result)
    ensures After(lst, After([x], r)) == After(lst + [x], r)
  {
    if r.Ok? {
      assert lst + ([x] + r.pairs) == lst + [x] + r.pairs;
    }
  }

  method FindName(names: seq<string>, name: string) returns (i: nat)
    ensures i <= |names| && (i < |names| ==> names[i] == name) && (i == |names| <==> name !in names)
  {
    i := 0;
    while i < |names| && names[i] != name
      invariant 0 <= i <= |names| && name !in names[..i]
    {
      i := i + 1;
    }
    assert names[..|names|] == names;
  }

  method Parse(param: string, names: seq<string>, accept: (string, Option<string>) -> int) returns (r: Result)
    ensures r == if param == "" then Err(M_OPT_MISSING_PARAM) else ParseFrom(param, names, accept)
  {
    if |param| == 0 {
      return Err(M_OPT_MISSING_PARAM);
    }
    hide ScanItem, After;
    var p := param;
    var lst: seq<Pair> := [];
    AfterNothing(ParseFrom(p, names, accept));
    while p != ""
      invariant ParseFrom(param, names, accept) == After(lst, ParseFrom(p, names, accept))
      decreases |p|
    {
      var item := NextItem(p);
      if item.Bad? {
        AfterError(lst, M_OPT_INVALID);
        return Err(M_OPT_INVALID);
      }
      var subopt, subparam := item.name, item.value;
      p := item.rest;
      var i := FindName(names, subopt);
      if i == |names| {
        AfterError(lst, M_OPT_UNKNOWN);
        return Err(M_OPT_UNKNOWN);
      }
      var code := accept(subopt, ValueOf(subparam));
      if code < 0 {
        AfterError(lst, code);
        return Err(code);
      }
      AfterOne(lst, (subopt, ValueOf(subparam)), ParseFrom(p, names, accept));
      lst := lst + [(subopt, ValueOf(subparam))];
    }
    AfterAll(lst);
    r := Ok(lst);
  }
}
