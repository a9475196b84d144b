/**
 The property-string expander of m_property.c: a one-pass machine with a nesting
 level and a skip level, against a recursive meaning of nested conditionals.

 A pointer into the template is the text that is left of it.
 */
module PropertyExpand {
  import opened Wrappers

  // What m_property_do answers: the printed value of a property, and whether it can be read.
  datatype Env = Env(show: string -> Option<string>, has: string -> bool)

  // ----- Reading one item of a template

  datatype Token = Char(c: char) | Nothing | Property(name: string) | Open(neg: bool, name: string) | Close

  const ESC: char := '\U{1b}'

  function At(t: string, i: nat): char {
    if i < |t| then t[i] else NUL
  }

  // strchr
  function IndexOf(t: string, c: char): (r: Option<nat>)
    ensures r.Some? ==> r.value < |t| && t[r.value] == c && forall i :: 0 <= i < r.value ==> t[i] != c
    ensures r.None? ==> c !in t
  {
    if t == "" then None
    else if t[0] == c then Some(0)
    else
      match IndexOf(t[1..], c)
      case None => None
      case Some(i) => Some(i + 1)
  }

  function HexDigit(c: char): Option<nat> {
    if '0' <= c <= '9' then Some(c as nat - '0' as nat)
    else if 'a' <= c <= 'f' then Some(c as nat - 'a' as nat + 10)
    else if 'A' <= c <= 'F' then Some(c as nat - 'A' as nat + 10)
    else None
  }

  // strtol in base 16 on at most two characters: the byte it stands for and how many were used.
  function Strtol2(a: char, b: char): (r: (nat, nat))
    ensures r.0 < 256 && r.1 <= 2
    ensures b == NUL ==> r.1 <= 1
  {
    if HexDigit(a).Some? then
      if HexDigit(b).Some? then (16 * HexDigit(a).value + HexDigit(b).value, 2) else (HexDigit(a).value, 1)
    else if (a == ' ' || 9 as char <= a <= 13 as char || a == '+') && HexDigit(b).Some? then (HexDigit(b).value, 2)
    else if a == '-' && HexDigit(b).Some? then ((256 - HexDigit(b).value) % 256, 2)
    else (0, 0)
  }

  // The branches of the expander's loop: an item and the text after it.  A template that ends in a lone
  // backslash makes the code read past its end; see NoDangling.
  function Lex(t: string, inside: bool): (r: (Token, string))
    requires t != ""
    ensures |r.1| < |t|
  {
    if t[0] == '\\' then
      match At(t, 1)
      case 'e' => (Char(ESC), t[2..])
      case 'n' => (Char('\n'), t[2..])
      case 'r' => (Char('\r'), t[2..])
      case 't' => (Char('\t'), t[2..])
      case 'x' =>
        if |t| > 2 then
          var (v, used) := Strtol2(t[2], At(t, 3));
          assert At(t, 3) == NUL || |t| > 3;
          (Char(v as char), t[1 + used..])
        else (Nothing, t[2..])
      case c => if |t| > 1 then (Char(c), t[2..]) else (Nothing, "")
    else if inside && t[0] == ')' then (Close, t[1..])
    else if t[0] == '$' && At(t, 1) == '{' && IndexOf(t[2..], '}').Some? then
      var e := IndexOf(t[2..], '}').value;
      (Property(t[2..][..e]), t[2..][e + 1..])
    else if t[0] == '?' && At(t, 1) == '(' && IndexOf(t[2..], ':').Some? then
      var e := IndexOf(t[2..], ':').value;
      var neg := t[2] == '!';
      (Open(neg, t[2..][if neg then 1 else 0..e]), t[2..][e + 1..])
    else (Char(t[0]), t[1..])
  }

  // The machine never meets a backslash that is the last character.
  predicate NoDangling(t: string, lvl: nat)
    decreases |t|
  {
    t != "" ==>
      && t != "\\"
      && var (tok, rest) := Lex(t, lvl > 0);
         NoDangling(rest, if tok.Open? then lvl + 1 else if tok.Close? && lvl > 0 then lvl - 1 else lvl)
  }

  // ----- The machine

  // What is still to be written at level lvl; sk is 0, or the level whose text is being skipped.
  function Run(t: string, lvl: nat, sk: nat, env: Env): string
    decreases |t|
  {
    if t == "" then ""
    else
      var (tok, rest) := Lex(t, lvl > 0);
      match tok
      case Char(c) => (if sk > 0 then "" else [c]) + Run(rest, lvl, sk, env)
      case Nothing => Run(rest, lvl, sk, env)
      case Property(name) => (if sk > 0 then "" else Printed(env, name)) + Run(rest, lvl, sk, env)
      case Open(neg, name) => Run(rest, lvl + 1, if sk == 0 && env.has(name) == neg then lvl + 1 else sk, env)
      case Close => Run(rest, if lvl > 0 then lvl - 1 else 0, if lvl <= sk then 0 else sk, env)
  }

  // What an item does to the machine: the text it writes and the new levels.
  function Act(tok: Token, lvl: nat, sk: nat, env: Env): (string, nat, nat) {
    match tok
    case Char(c) => (if sk > 0 then "" else [c], lvl, sk)
    case Nothing => ("", lvl, sk)
    case Property(name) => (if sk > 0 then "" else Printed(env, name), lvl, sk)
    case Open(neg, name) => ("", lvl + 1, if sk == 0 && env.has(name) == neg then lvl + 1 else sk)
    case Close => ("", if lvl > 0 then lvl - 1 else 0, if lvl <= sk then 0 else sk)
  }

  lemma {:induction false} RunActs(t: string, lvl: nat, sk: nat, env: Env)
    requires t != ""
    ensures var (tok, rest) := Lex(t, lvl > 0);
            var (w, lvl', sk') := Act(tok, lvl, sk, env);
            Run(t, lvl, sk, env) == w + Run(rest, lvl', sk', env)
  {
    hide Lex, Printed;
  }

  function Printed(env: Env, name: string): string {
    match env.show(name) case None => "" case Some(v) => v
  }

  // ----- The meaning of a template

  datatype Node = Lit(c: char) | Prop(name: string) | Cond(neg: bool, name: string, body: seq<Node>)

  function Eval(ns: seq<Node>, env: Env): string {
    if ns == [] then "" else EvalNode(ns[0], env) + Eval(ns[1..], env)
  }

  function EvalNode(n: Node, env: Env): string {
    match n
    case Lit(c) => [c]
    case Prop(name) => Printed(env, name)
    case Cond(neg, name, body) => if env.has(name) != neg then Eval(body, env) else ""
  }

  // Nodes up to the end of the text, or up to and including a closing parenthesis of the enclosing conditional.
  datatype Parsed = Parsed(nodes: seq<Node>, rest: string, closed: bool)

  function Parse(t: string, inside: bool): (r: Parsed)
    ensures |r.rest| <= |t| && (r.closed ==> inside) && (!r.closed ==> r.rest == "")
    decreases |t|
  {
    if t == "" then Parsed([], "", false)
    else
      var (tok, rest) := Lex(t, inside);
      match tok
      case Nothing => Parse(rest, inside)
      case Close => Parsed([], rest, true)
      case Char(c) => Cons(Lit(c), Parse(rest, inside))
      case Property(name) => Cons(Prop(name), Parse(rest, inside))
      case Open(neg, name) =>
        var body := Parse(rest, true);
        Cons(Cond(neg, name, body.nodes),
             if body.closed then Parse(body.rest, inside) else Parsed([], "", false))
  }

  function Cons(n: Node, p: Parsed): Parsed {
    p.(nodes := [n] + p.nodes)
  }

  // What the machine writes for what it reads: the nodes, and after their closing parenthesis the rest.
  function Show(p: Parsed, lvl: nat, sk: nat, env: Env): string
    requires p.closed ==> lvl > 0
  {
    (if sk > 0 then "" else Eval(p.nodes, env))
    + if p.closed then Run(p.rest, lvl - 1, if lvl <= sk then 0 else sk, env) else ""
  }

  lemma ShowCons(n: Node, p: Parsed, lvl: nat, sk: nat, env: Env)
    requires p.closed ==> lvl > 0
    ensures Show(Cons(n, p), lvl, sk, env) == (if sk > 0 then "" else EvalNode(n, env)) + Show(p, lvl, sk, env)
  {
    hide Run;
    EvalCons(n, p.nodes, env);
  }

  lemma ParseStep(t: string, inside: bool)
    ensures Parse(t, inside)
         == if t == "" then Parsed([], "", false)
            else
              var (tok, rest) := Lex(t, inside);
              match tok
              case Nothing => Parse(rest, inside)
              case Close => Parsed([], rest, true)
              case Char(c) => Cons(Lit(c), Parse(rest, inside))
              case Property(name) => Cons(Prop(name), Parse(rest, inside))
              case Open(neg, name) =>
                var body := Parse(rest, true);
                Cons(Cond(neg, name, body.nodes),
                     if body.closed then Parse(body.rest, inside) else Parsed([], "", false))
  {
  }

  lemma EvalCons(n: Node, ns: seq<Node>, env: Env)
    ensures Eval([], env) == ""
    ensures Eval([n] + ns, env) == EvalNode(n, env) + Eval(ns, env)
  {
    assert ([n] + ns)[1..] == ns;
  }

  // The machine's skip and level counters implement the recursion.
  lemma {:induction false} RunIsEval(t: string, lvl: nat, sk: nat, env: Env)
    requires sk <= lvl
    ensures Run(t, lvl, sk, env) == Show(Parse(t, lvl > 0), lvl, sk, env)
    decreases |t|
  {
    hide Lex, Eval, Run, Parse;
    EvalCons(Lit(NUL), [], env);
    RunEmpty(env);
    ParseStep(t, lvl > 0);
    if t != "" {
      RunActs(t, lvl, sk, env);
      var (tok, rest) := Lex(t, lvl > 0);
      match tok
      case Char(c) =>
        RunIsEval(rest, lvl, sk, env);
        ShowCons(Lit(c), Parse(rest, lvl > 0), lvl, sk, env);
      case Nothing =>
        RunIsEval(rest, lvl, sk, env);
      case Property(name) =>
        RunIsEval(rest, lvl, sk, env);
        ShowCons(Prop(name), Parse(rest, lvl > 0), lvl, sk, env);
      case Close =>
      case Open(neg, name) =>
        var body := Parse(rest, true);
        RunIsEval(rest, lvl + 1, if sk == 0 && env.has(name) == neg then lvl + 1 else sk, env);
        var n := Cond(neg, name, body.nodes);
        if body.closed {
          RunIsEval(body.rest, lvl, sk, env);
          ShowCons(n, Parse(body.rest, lvl > 0), lvl, sk, env);
        } else {
          ShowCons(n, Parsed([], "", false), lvl, sk, env);
        }
    }
  }

  // Every template, well bracketed or not, expands to its meaning.
  lemma ExpandIsEval(t: string, env: Env)
    ensures Run(t, 0, 0, env) == Eval(Parse(t, false).nodes, env)
  {
    RunIsEval(t, 0, 0, env);
  }

  // ----- Writing templates

  function PrintChar(c: char): (r: string)
    ensures r != ""
  {
    if c == ESC then "\\e" else if c == '\n' then "\\n" else if c == '\r' then "\\r" else if c == '\t' then "\\t"
    else if c in "\\$?)" then ['\\', c] else [c]
  }

  function Print(ns: seq<Node>): string {
    if ns == [] then "" else PrintNode(ns[0]) + Print(ns[1..])
  }

  function PrintNode(n: Node): string {
    match n
    case Lit(c) => PrintChar(c)
    case Prop(name) => "${" + name + "}"
    case Cond(neg, name, body) => "?(" + Head(neg, name) + ":" + Print(body) + ")"
  }

  function Head(neg: bool, name: string): string {
    (if neg then "!" else "") + name
  }

  // The names a template can mention.
  predicate Printable(ns: seq<Node>) {
    ns != [] ==> PrintableNode(ns[0]) && Printable(ns[1..])
  }

  predicate PrintableNode(n: Node) {
    match n
    case Lit(c) => true
    case Prop(name) => '}' !in name
    case Cond(neg, name, body) => ':' !in name && (neg || name == "" || name[0] != '!') && Printable(body)
  }

  lemma IndexAfter(a: string, c: char, b: string)
    requires c !in a
    ensures IndexOf(a + [c] + b, c) == Some(|a|)
  {
    var r := IndexOf(a + [c] + b, c);
    assert (a + [c] + b)[|a|] == c;
    assert forall i :: 0 <= i < |a| ==> (a + [c] + b)[i] == a[i];
  }

  lemma LexChar(c: char, rest: string, inside: bool)
    ensures Lex(PrintChar(c) + rest, inside) == (Char(c), rest)
  {
    var t := PrintChar(c) + rest;
    assert t[|PrintChar(c)|..] == rest;
  }

  lemma LexProp(name: string, rest: string, inside: bool)
    requires '}' !in name
    ensures Lex("${" + name + "}" + rest, inside) == (Property(name), rest)
  {
    var t := "${" + name + "}" + rest;
    assert t[2..] == name + ['}'] + rest;
    IndexAfter(name, '}', rest);
    assert t[2..][..|name|] == name && t[2..][|name| + 1..] == rest;
  }

  lemma LexHead(head: string, rest: string, inside: bool)
    requires ':' !in head
    ensures var neg := head != "" && head[0] == '!';
            Lex("?(" + head + ":" + rest, inside) == (Open(neg, head[if neg then 1 else 0..]), rest)
  {
    hide IndexOf;
    var t, u := "?(" + head + ":" + rest, head + [':'] + rest;
    assert t[2..] == u;
    IndexAfter(head, ':', rest);
    assert u[0] == if head == "" then ':' else head[0];
    assert u[..|head|] == head && u[|head| + 1..] == rest;
    assert forall i :: 0 <= i <= |head| ==> u[i..|head|] == head[i..];
  }

  lemma LexOpen(neg: bool, name: string, rest: string, inside: bool)
    requires ':' !in name && (neg || name == "" || name[0] != '!')
    ensures Lex("?(" + Head(neg, name) + ":" + rest, inside) == (Open(neg, name), rest)
  {
    hide Lex;
    LexHead(Head(neg, name), rest, inside);
    assert Head(neg, name)[if neg then 1 else 0..] == name;
  }

  lemma LexClose(rest: string)
    ensures Lex([')'] + rest, true) == (Close, rest)
  {
  }

  // Reading a written template gives it back, whatever follows it.
  lemma {:induction false} ParsePrint(ns: seq<Node>, rest: string, inside: bool)
    requires Printable(ns)
    ensures Parse(Print(ns) + rest, inside) == Parse(rest, inside).(nodes := ns + Parse(rest, inside).nodes)
    decreases ns, 0
  {
    hide Lex, PrintNode, PrintableNode, Parse;
    if ns == [] {
      assert Print(ns) + rest == rest;
    } else {
      var more := Print(ns[1..]) + rest;
      assert Print(ns) + rest == PrintNode(ns[0]) + more;
      ParsePrint(ns[1..], rest, inside);
      ParsePrintNode(ns[0], more, inside);
      assert [ns[0]] + ns[1..] == ns;
    }
  }

  lemma {:induction false} ParsePrintNode(n: Node, rest: string, inside: bool)
    requires PrintableNode(n)
    ensures Parse(PrintNode(n) + rest, inside) == Cons(n, Parse(rest, inside))
    decreases n, 0
  {
    hide Lex, PrintChar;
    match n
    case Lit(c) => LexChar(c, rest, inside);
    case Prop(name) => LexProp(name, rest, inside);
    case Cond(neg, name, body) =>
      var after := Print(body) + ([')'] + rest);
      assert PrintNode(n) + rest == "?(" + Head(neg, name) + ":" + after;
      LexOpen(neg, name, after, inside);
      ParsePrint(body, [')'] + rest, true);
      LexClose(rest);
      assert Parse([')'] + rest, true) == Parsed([], rest, true);
      assert body + [] == body;
  }

  // The expander gives every written template its recursive meaning.
  lemma ExpandPrinted(ns: seq<Node>, env: Env)
    requires Printable(ns)
    ensures Run(Print(ns), 0, 0, env) == Eval(ns, env)
  {
    ParsePrint(ns, "", false);
    assert Print(ns) + "" == Print(ns);
    assert ns + [] == ns;
    ExpandIsEval(Print(ns), env);
  }

  // A hexadecimal escape with used digits, none to two of them, writes its byte, and reading goes on one character too
  // early: the last character of the escape, its last digit or else the x, is written too.
  lemma HexDigitReadTwice(c: char, rest: string, lvl: nat, sk: nat, env: Env)
    ensures var t := "\\x" + [c] + rest;
            var (v, used) := Strtol2(c, At(rest, 0));
            && |t| >= 2 + used
            && var d := if used == 0 then 'x' else if used == 1 then c else rest[0];
               && Lex(t, lvl > 0) == (Char(v as char), [d] + t[2 + used..])
               && Run(t, lvl, sk, env) == (if sk > 0 then "" else [v as char, d]) + Run(t[2 + used..], lvl, sk, env)
  {
    hide Run;
    var t := "\\x" + [c] + rest;
    var (v, used) := Strtol2(c, At(rest, 0));
    var d := if used == 0 then 'x' else if used == 1 then c else rest[0];
    LexHex(c, rest, lvl > 0);
    RunActs(t, lvl, sk, env);
    LexDigit(d, t[2 + used..], lvl > 0);
    RunActs([d] + t[2 + used..], lvl, sk, env);
  }

  lemma LexHex(c: char, rest: string, inside: bool)
    ensures var t := "\\x" + [c] + rest;
            var (v, used) := Strtol2(c, At(rest, 0));
            && |t| >= 2 + used
            && var d := if used == 0 then 'x' else if used == 1 then c else rest[0];
               (used > 0 ==> HexDigit(d).Some?) && Lex(t, inside) == (Char(v as char), [d] + t[2 + used..])
  {
    hide IndexOf;
    var t := "\\x" + [c] + rest;
    var (v, used) := Strtol2(c, At(rest, 0));
    var d := if used == 0 then 'x' else if used == 1 then c else rest[0];
    assert t[2] == c && At(t, 3) == At(rest, 0);
    assert t[1 + used..] == [d] + t[2 + used..];
  }

  lemma LexDigit(d: char, rest: string, inside: bool)
    requires d == 'x' || HexDigit(d).Some?
    ensures Lex([d] + rest, inside) == (Char(d), rest)
  {
    hide IndexOf;
    assert ([d] + rest)[1..] == rest;
  }

  // ----- Hexadecimal escapes, against a writer of digits

  const LOWER := "0123456789abcdef"
  const UPPER := "0123456789ABCDEF"

  function Digit(k: nat, upper: bool): char
    requires k < 16
  {
    if upper then UPPER[k] else LOWER[k]
  }

  lemma DigitRead(k: nat, upper: bool)
    requires k < 16
    ensures HexDigit(Digit(k, upper)) == Some(k)
  {
  }

  lemma NoDigitRead(c: char)
    requires c !in LOWER && c !in UPPER
    ensures HexDigit(c).None?
  {
    InTable(LOWER, c);
    InTable(UPPER, c);
  }

  // Sixteen characters, one by one.
  lemma InTable(table: string, c: char)
    requires |table| == 16
    ensures c in table <==>
              || c in [table[0], table[1], table[2], table[3], table[4], table[5], table[6], table[7]]
              || c in [table[8], table[9], table[10], table[11], table[12], table[13], table[14], table[15]]
  {
  }

  // Two digits, in either case, write their byte and then the second digit.
  lemma HexByte(v: nat, upper: bool, upper': bool, rest: string, lvl: nat, env: Env)
    requires v < 256
    ensures var c, d := Digit(v / 16, upper), Digit(v % 16, upper');
            Run("\\x" + [c, d] + rest, lvl, 0, env) == [v as char, d] + Run(rest, lvl, 0, env)
  {
    hide Run, Digit, HexDigit;
    var c, d := Digit(v / 16, upper), Digit(v % 16, upper');
    DigitRead(v / 16, upper);
    DigitRead(v % 16, upper');
    HexDigitReadTwice(c, [d] + rest, lvl, 0, env);
    assert "\\x" + [c] + ([d] + rest) == "\\x" + [c, d] + rest;
    assert ("\\x" + [c, d] + rest)[4..] == rest;
  }

  // One digit, before the end of the text or before something that is no digit, writes its value and then itself.
  lemma HexOneDigit(k: nat, upper: bool, rest: string, lvl: nat, env: Env)
    requires k < 16 && (rest == "" || (rest[0] !in LOWER && rest[0] !in UPPER))
    ensures var c := Digit(k, upper);
            Run("\\x" + [c] + rest, lvl, 0, env) == [k as char, c] + Run(rest, lvl, 0, env)
  {
    hide Run, Digit, HexDigit;
    var c := Digit(k, upper);
    DigitRead(k, upper);
    NulNoDigit();
    if rest != "" {
      NoDigitRead(rest[0]);
    }
    HexDigitReadTwice(c, rest, lvl, 0, env);
    assert ("\\x" + [c] + rest)[3..] == rest;
  }

  lemma NulNoDigit()
    ensures HexDigit(NUL).None?
  {
  }

  // A blank or a sign before one digit counts as part of the number.
  lemma HexSigned(c: char, k: nat, upper: bool, rest: string, lvl: nat, env: Env)
    requires c in " \t\n\U{b}\U{c}\r+-" && k < 16
    ensures var d := Digit(k, upper); var v := if c == '-' && k > 0 then 256 - k else k;
            Run("\\x" + [c, d] + rest, lvl, 0, env) == [v as char, d] + Run(rest, lvl, 0, env)
  {
    hide Run, Digit;
    var d := Digit(k, upper);
    DigitRead(k, upper);
    assert HexDigit(c).None?;
    hide HexDigit;
    HexDigitReadTwice(c, [d] + rest, lvl, 0, env);
    assert "\\x" + [c] + ([d] + rest) == "\\x" + [c, d] + rest;
    assert ("\\x" + [c, d] + rest)[4..] == rest;
  }

  // Without a digit a NUL is written, and then the x and what follows it.
  lemma HexNone(c: char, rest: string, lvl: nat, env: Env)
    requires c !in LOWER && c !in UPPER
    requires c in " \t\n\U{b}\U{c}\r+-" ==> rest == "" || (rest[0] !in LOWER && rest[0] !in UPPER)
    ensures Run("\\x" + [c] + rest, lvl, 0, env) == [NUL, 'x'] + Run([c] + rest, lvl, 0, env)
  {
    hide Run, HexDigit;
    NoDigitRead(c);
    NulNoDigit();
    if rest != "" && rest[0] !in LOWER && rest[0] !in UPPER {
      NoDigitRead(rest[0]);
    }
    HexDigitReadTwice(c, rest, lvl, 0, env);
    assert ("\\x" + [c] + rest)[2..] == [c] + rest;
  }

  // ----- The other forms, on the text

  // What an escape other than a hexadecimal one writes.
  lemma EscapeMeans(c: char, rest: string, lvl: nat, env: Env)
    requires c != 'x'
    ensures var w := if c == 'e' then '\U{1b}' else if c == 'n' then '\n' else if c == 'r' then '\r'
                     else if c == 't' then '\t' else c;
            Run("\\" + [c] + rest, lvl, 0, env) == [w] + Run(rest, lvl, 0, env)
  {
    assert ("\\" + [c] + rest)[2..] == rest;
  }

  // Characters that start no form are copied, and so is a closing parenthesis outside of conditionals.
  lemma {:induction false} PlainCopied(t: string, env: Env)
    requires '\\' !in t && '$' !in t && '?' !in t
    ensures Run(t, 0, 0, env) == t
  {
    if t != "" {
      assert t == [t[0]] + t[1..];
      PlainCopied(t[1..], env);
    }
  }

  lemma {:induction false} PlainInside(x: string, rest: string, lvl: nat, sk: nat, env: Env)
    requires '\\' !in x && '$' !in x && '?' !in x && ')' !in x
    ensures Run(x + rest, lvl, sk, env) == (if sk > 0 then "" else x) + Run(rest, lvl, sk, env)
    decreases |x|
  {
    if x == "" {
      assert x + rest == rest;
    } else {
      assert (x + rest)[0] == x[0] && (x + rest)[1..] == x[1..] + rest;
      PlainInside(x[1..], rest, lvl, sk, env);
    }
  }

  // A property prints its value, and nothing if it has none.
  lemma PropertyMeans(name: string, rest: string, lvl: nat, env: Env)
    requires '}' !in name
    ensures Run("${" + name + "}" + rest, lvl, 0, env)
         == (match env.show(name) case Some(v) => v case None => "") + Run(rest, lvl, 0, env)
  {
    var t := "${" + name + "}" + rest;
    IndexAfter(name, '}', rest);
    assert t[2..] == name + ['}'] + rest;
    assert t[2..][..|name|] == name && t[2..][|name| + 1..] == rest;
    hide IndexOf;
  }

  // Where there is no end to the name, the dollar sign and the question mark are plain characters.
  lemma UnclosedMeans(rest: string, lvl: nat, env: Env)
    ensures '}' !in rest ==> Run("${" + rest, lvl, 0, env) == "$" + Run("{" + rest, lvl, 0, env)
    ensures ':' !in rest ==> Run("?(" + rest, lvl, 0, env) == "?" + Run("(" + rest, lvl, 0, env)
  {
    assert ("${" + rest)[2..] == rest && ("${" + rest)[1..] == "{" + rest;
    assert ("?(" + rest)[2..] == rest && ("?(" + rest)[1..] == "(" + rest;
    hide IndexOf;
  }

  // A conditional shows its text if the property is there, a negated one if it is not.
  lemma ConditionMeans(neg: bool, name: string, x: string, rest: string, env: Env)
    requires ':' !in name && (name != "" ==> name[0] != '!')
    requires '\\' !in x && '$' !in x && '?' !in x && ')' !in x
    ensures Run("?(" + (if neg then "!" else "") + name + ":" + x + ")" + rest, 0, 0, env)
         == (if env.has(name) == neg then "" else x) + Run(rest, 0, 0, env)
  {
    hide Run, Lex;
    var after := x + (")" + rest);
    var t := "?(" + (if neg then "!" else "") + name + ":" + after;
    assert "?(" + (if neg then "!" else "") + name + ":" + x + ")" + rest == t;
    OpenText(neg, name, after);
    RunActs(t, 0, 0, env);
    var sk := if env.has(name) == neg then 1 else 0;
    PlainInside(x, ")" + rest, 1, sk, env);
    AtClose(")" + rest);
    RunActs(")" + rest, 1, sk, env);
    assert (")" + rest)[1..] == rest;
  }

  lemma OpenText(neg: bool, name: string, after: string)
    requires ':' !in name && (name != "" ==> name[0] != '!')
    ensures Lex("?(" + (if neg then "!" else "") + name + ":" + after, false) == (Open(neg, name), after)
  {
    hide IndexOf, Lex;
    var q := (if neg then "!" else "") + name;
    var t := "?(" + q + ":" + after;
    assert "?(" + (if neg then "!" else "") + name + ":" + after == t;
    IndexAfter(q, ':', after);
    assert t[2..] == q + [':'] + after && t[2..][|q| + 1..] == after;
    assert (t[2] == '!') == neg by {
      assert t[2] == (q + ":" + after)[0];
    }
    assert q[if neg then 1 else 0..] == name;
    assert t[2..][if neg then 1 else 0..|q|] == q[if neg then 1 else 0..];
    AtOpen(t, false);
  }

  // The text of a C string in a buffer.
  function CString(s: seq<char>): string {
    if s == [] || s[0] == NUL then "" else [s[0]] + CString(s[1..])
  }

  lemma {:induction false} CStringWhole(w: string, rest: seq<char>)
    ensures CString(w + [NUL] + rest) == CString(w) <= w
    ensures CString(w) == w <==> NUL !in w
  {
    if w != "" {
      assert (w + [NUL] + rest)[1..] == w[1..] + [NUL] + rest;
      CStringWhole(w[1..], rest);
    }
  }

  // ----- The code

  // The escape switch: at most one character to write, and the text after the escape.
  method Escape(t: string) returns (p: string, rest: string)
    requires t != "" && t[0] == '\\' && t != "\\" && NUL !in t
    ensures |p| <= 1
    ensures forall inside :: Lex(t, inside) == (if p == "" then Nothing else Char(p[0]), rest)
  {
    var sl := 1;
    match t[1] {
      case 'e' => p := [ESC];
      case 'n' => p := "\n";
      case 'r' => p := "\r";
      case 't' => p := "\t";
      case 'x' =>
        if At(t, 2) != NUL {
          var (v, used) := Strtol2(t[2], At(t, 3));
          assert At(t, 3) == NUL || |t| > 3;
          p, sl := [v as char], used;
        } else {
          p := "";
        }
      case c => p := [c];
    }
    rest := t[1 + sl..];
  }

  // Make room for p and a terminator, then copy p to position pos.
  method Append(buf: array<char>, pos: nat, p: string) returns (ret: array<char>)
    requires pos < buf.Length
    modifies buf
    ensures ret == buf || fresh(ret)
    ensures pos + |p| < ret.Length
    ensures ret[..pos + |p|] == old(buf[..pos]) + p
  {
    ret := buf;
    if pos + |p| + 1 > buf.Length {
      ret := new char[pos + |p| + 512];
      forall i | 0 <= i < buf.Length {
        ret[i] := buf[i];
      }
    }
    forall i | 0 <= i < |p| {
      ret[pos + i] := p[i];
    }
  }

  lemma AtClose(t: string)
    requires t != "" && t[0] == ')'
    ensures Lex(t, true) == (Close, t[1..])
  {
    hide IndexOf;
  }

  lemma AtProperty(t: string, inside: bool)
    requires t != "" && t[0] == '$' && At(t, 1) == '{' && |t| > 1 && IndexOf(t[2..], '}').Some?
    ensures var e := IndexOf(t[2..], '}').value; Lex(t, inside) == (Property(t[2..][..e]), t[2..][e + 1..])
  {
    hide IndexOf;
  }

  lemma AtOpen(t: string, inside: bool)
    requires t != "" && t[0] == '?' && At(t, 1) == '(' && |t| > 1 && IndexOf(t[2..], ':').Some?
    ensures var e := IndexOf(t[2..], ':').value; var neg := t[2] == '!';
            && (neg ==> e > 0)
            && Lex(t, inside) == (Open(neg, t[2..][if neg then 1 else 0..e]), t[2..][e + 1..])
  {
    hide IndexOf;
  }

  lemma AtPlain(t: string, inside: bool)
    requires t != "" && t[0] != '\\' && !(inside && t[0] == ')')
    requires t[0] == '$' ==> At(t, 1) == '{' && |t| > 1 ==> IndexOf(t[2..], '}').None?
    requires t[0] == '?' ==> At(t, 1) == '(' && |t| > 1 ==> IndexOf(t[2..], ':').None?
    ensures Lex(t, inside) == (Char(t[0]), t[1..])
  {
    hide IndexOf;
  }

  // One round of the loop up to the test of skip: the text p it yields and the new state of the machine.
  method Item(str: string, lvl: nat, skip: bool, skipLvl: nat, env: Env)
    returns (p: string, str': string, lvl': nat, skip': bool, skipLvl': nat)
    requires str != "" && str != "\\" && NUL !in str && (skip ==> 1 <= skipLvl <= lvl)
    ensures skip' ==> 1 <= skipLvl' <= lvl'
    ensures var (tok, rest) := Lex(str, lvl > 0);
            str' == rest && lvl' == if tok.Open? then lvl + 1 else if tok.Close? && lvl > 0 then lvl - 1 else lvl
    ensures Run(str, lvl, if skip then skipLvl else 0, env)
         == (if skip' then "" else p) + Run(str', lvl', if skip' then skipLvl' else 0, env)
  {
    hide IndexOf, Run, Lex;
    RunActs(str, lvl, if skip then skipLvl else 0, env);
    p, lvl', skip', skipLvl' := "", lvl, skip, skipLvl;
    if str[0] == '\\' {
      p, str' := Escape(str);
    } else if lvl > 0 && str[0] == ')' {
      if skip && lvl <= skipLvl {
        skip' := false;
      }
      lvl', str' := lvl - 1, str[1..];
      AtClose(str);
    } else if str[0] == '$' && At(str, 1) == '{' && IndexOf(str[2..], '}').Some? {
      var pl := IndexOf(str[2..], '}').value;
      var v := env.show(str[2..][..pl]);
      if v.Some? {
        p := v.value;
      }
      str' := str[2..][pl + 1..];
      AtProperty(str, lvl > 0);
    } else if str[0] == '?' && At(str, 1) == '(' && IndexOf(str[2..], ':').Some? {
      var e := IndexOf(str[2..], ':').value;
      lvl' := lvl + 1;
      if !skip {
        var isNot := str[2] == '!';
        if !env.has(str[2..][if isNot then 1 else 0..e]) {
          if !isNot {
            skip', skipLvl' := true, lvl';
          }
        } else if isNot {
          skip', skipLvl' := true, lvl';
        }
      }
      str' := str[2..][e + 1..];
      AtOpen(str, lvl > 0);
    } else {
      p, str' := [str[0]], str[1..];
      AtPlain(str, lvl > 0);
    }
  }

  // The expansion is terminated inside the buffer and is the meaning of the template.
  method Expand(t: string, env: Env) returns (ret: array<char>, pos: nat)
    requires NUL !in t && NoDangling(t, 0)
    ensures fresh(ret) && pos < ret.Length && ret[pos] == NUL
    ensures ret[..pos] == Eval(Parse(t, false).nodes, env)
    ensures CString(ret[..]) == Eval(Parse(t, false).nodes, env) <==> NUL !in Eval(Parse(t, false).nodes, env)
  {
    hide Lex, Eval, Parse, Run, CString;
    ExpandIsEval(t, env);
    RunEmpty(env);
    ghost var goal := Eval(Parse(t, false).nodes, env);
    var str := t;
    ret, pos := new char[|t| + 512], 0;
    var skip, lvl, skipLvl := false, 0, 0;
    while str != ""
      invariant NUL !in str && NoDangling(str, lvl)
      invariant fresh(ret) && pos < ret.Length
      invariant skip ==> 1 <= skipLvl <= lvl
      invariant ret[..pos] + Run(str, lvl, if skip then skipLvl else 0, env) == goal
      decreases |str|
    {
      LexSuffix(str, lvl > 0);
      var p;
      p, str, lvl, skip, skipLvl := Item(str, lvl, skip, skipLvl, env);
      if skip || p == "" {
        continue;
      }
      ret := Append(ret, pos, p);
      pos := pos + |p|;
    }
    ret[pos] := NUL;
    assert ret[..] == goal + [NUL] + ret[pos + 1..];
    CStringWhole(goal, ret[pos + 1..]);
  }

  lemma RunEmpty(env: Env)
    ensures forall lvl, sk :: Run("", lvl, sk, env) == ""
  {
  }

  lemma LexSuffix(t: string, inside: bool)
    requires t != "" && NUL !in t
    ensures NUL !in Lex(t, inside).1
  {
  }
}
