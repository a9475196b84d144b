/**
 Setting an option with children (m_config.c): the list that the sub-option
 grammar makes of its parameter is set child by child, and the children may have
 children themselves.
 */
module SubOptions {
  import opened Wrappers
  import opened ConfigSpec
  import opened ConfigRestore
  import opened Config
  import opened ConfigEffect
  import SubConfig

  // What the option types make of a parameter: a value or an error of a leaf, or the sub-options of an option with
  // children.  A text of sub-options that does not parse is an error of the option itself.
  datatype Param = Leaf(parsed: Option<Value>) | Sub(pairs: seq<Pair>)

  datatype Pair = Pair(name: string, param: Param)

  // ----- m_config_parse_option on values

  function ParseTree(s: State, arg: string, param: Param, apply: bool): (r: (State, Status))
    ensures |r.0.entries| == |s.entries|
    decreases param
  {
    match param
    case Leaf(parsed) => (if apply then SetOption(s, arg, parsed) else s, ParseStatus(s, arg, parsed))
    case Sub(pairs) =>
      match Find(s.entries, arg)
      case None => (s, Unknown)
      case Some(i) =>
        var e := s.entries[i];
        if Forbidden(e.def, s.mode) then (s, Invalid)
        else if !e.def.child then (s, ParseError)
        else
          var write := apply && !Gated(e, s.mode);
          var (t, status) := SetPairs(s, e.def.name, pairs, write);
          (if status.Ok? && write then MarkSet(t, i) else t, status)
  }

  // The loop over the list: it goes on only while all goes well.
  function SetPairs(s: State, name: string, pairs: seq<Pair>, write: bool): (r: (State, Status))
    ensures |r.0.entries| == |s.entries|
    decreases pairs
  {
    if pairs == [] then (s, Ok)
    else
      var (t, status) := ParseTree(s, Child(name, pairs[0]), pairs[0].param, write);
      if status.Ok? then SetPairs(t, name, pairs[1..], write) else (t, Reported(status))
  }

  function Child(name: string, pair: Pair): string {
    name + ":" + pair.name
  }

  // An unknown sub-option is reported as invalid.
  function Reported(status: Status): Status {
    if status.Unknown? then Invalid else status
  }

  // ----- Errors in the middle of a list

  lemma {:induction false} SetInParts(s: State, name: string, before: seq<Pair>, after: seq<Pair>,
                                      write: bool)
    ensures var (t, status) := SetPairs(s, name, before, write);
            SetPairs(s, name, before + after, write)
            == if status.Ok? then SetPairs(t, name, after, write) else (t, status)
    decreases |before|
  {
    hide ParseTree;
    if before == [] {
      assert before + after == after;
    } else {
      assert (before + after)[0] == before[0] && (before + after)[1..] == before[1..] + after;
      var (t, status) := ParseTree(s, Child(name, before[0]), before[0].param, write);
      SetInParts(t, name, before[1..], after, write);
    }
  }

  // The first sub-option that fails ends the list: the ones before it stay set, and those after it are not looked at.
  lemma StopsAtFailure(s: State, name: string, before: seq<Pair>, bad: Pair,
                       rest: seq<Pair>, write: bool)
    requires SetPairs(s, name, before, write).1.Ok?
    requires !ParseTree(SetPairs(s, name, before, write).0, Child(name, bad), bad.param, write).1.Ok?
    ensures var (u, status) := ParseTree(SetPairs(s, name, before, write).0, Child(name, bad), bad.param, write);
            SetPairs(s, name, before + ([bad] + rest), write) == (u, Reported(status))
  {
    hide ParseTree;
    SetInParts(s, name, before, [bad] + rest, write);
    assert ([bad] + rest)[0] == bad;
  }

  // An unknown sub-option makes the list invalid, whatever comes before it.
  lemma UnknownIsInvalid(s: State, name: string, before: seq<Pair>, bad: Pair, rest: seq<Pair>, write: bool)
    requires SetPairs(s, name, before, write).1.Ok?
    requires var es := SetPairs(s, name, before, write).0.entries;
             forall j :: 0 <= j < |es| ==> !NameMatches(es[j].def, name + ":" + bad.name)
    ensures SetPairs(s, name, before + ([bad] + rest), write) == (SetPairs(s, name, before, write).0, Invalid)
  {
    var t := SetPairs(s, name, before, write).0;
    assert Find(t.entries, Child(name, bad)).None?;
    if bad.param.Leaf? {
      SetRefuses(t, Child(name, bad), bad.param.parsed);
    }
    assert ParseTree(t, Child(name, bad), bad.param, write) == (t, Unknown);
    StopsAtFailure(s, name, before, bad, rest, write);
  }

  // The next value of a list goes into the variable and the slot of the child it names.
  lemma NextIsWritten(s: State, name: string, before: seq<Pair>, leaf: string, v: Value, i: nat)
    requires SetPairs(s, name, before, true).1.Ok?
    requires var t := SetPairs(s, name, before, true).0;
             && FirstNamed(t, name + ":" + leaf, i) && !t.entries[i].def.child
             && Allowed(t.entries[i].def, t.mode) && Writable(t.entries[i], t.mode)
    ensures var t := SetPairs(s, name, before, true).0;
            var (u, status) := SetPairs(s, name, before + [Pair(leaf, Leaf(Some(v)))], true);
            status == Ok && Wrote(t, i, v, u) && WroteSlots(t, i, v, u)
  {
    var t, last := SetPairs(s, name, before, true).0, Pair(leaf, Leaf(Some(v)));
    SetWrites(t, name + ":" + leaf, v, i);
    SetInParts(s, name, before, [last], true);
    OnePair(t, name, last, true);
  }

  lemma OnePair(s: State, name: string, pair: Pair, write: bool)
    ensures var (t, status) := ParseTree(s, name + ":" + pair.name, pair.param, write);
            SetPairs(s, name, [pair], write) == (t, if status.Unknown? then Invalid else status)
  {
    hide ParseTree;
    assert [pair][1..] == [];
  }

  // An option with children: refused, it changes nothing; else its list is set if it may be written and checked if not,
  // and its set flag goes up when all went well.
  lemma ParentMeans(s: State, arg: string, pairs: seq<Pair>, apply: bool, i: nat)
    requires FirstNamed(s, arg, i) && s.entries[i].def.child
    ensures var (t, status) := ParseTree(s, arg, Sub(pairs), apply);
            if !Allowed(s.entries[i].def, s.mode) then t == s && status == Invalid
            else
              var write := apply && Writable(s.entries[i], s.mode);
              var (u, status') := SetPairs(s, s.entries[i].def.name, pairs, write);
              && status == status' && |u.entries| == |t.entries| == |s.entries|
              && t == u.(entries := t.entries)
              && t.entries == u.entries[i := u.entries[i].(isSet := u.entries[i].isSet || (write && status.Ok?))]
  {
    hide SetPairs;
    FindsFirst(s, arg, i);
    hide Find;
    var u := SetPairs(s, s.entries[i].def.name, pairs, apply && Writable(s.entries[i], s.mode)).0;
    assert u.entries[i := u.entries[i]] == u.entries;
  }

  // A mere check changes nothing, however deep.
  lemma {:induction false} CheckChangesNothing(s: State, arg: string, param: Param)
    ensures ParseTree(s, arg, param, false).0 == s
    decreases param
  {
    match param
    case Leaf(_) =>
    case Sub(pairs) =>
      if Find(s.entries, arg).Some? {
        ChecksChangeNothing(s, s.entries[Find(s.entries, arg).value].def.name, pairs);
      }
  }

  lemma {:induction false} ChecksChangeNothing(s: State, name: string, pairs: seq<Pair>)
    ensures SetPairs(s, name, pairs, false).0 == s
    decreases pairs
  {
    if pairs != [] {
      CheckChangesNothing(s, Child(name, pairs[0]), pairs[0].param);
      hide ParseTree;
      ChecksChangeNothing(s, name, pairs[1..]);
    }
  }

  // An error in the text of the list sets nothing at all.
  function ParamOf(text: string, names: seq<string>, accept: (string, Option<string>) -> int,
                   typed: (string, Option<string>) -> Param): Param {
    if text == "" then Leaf(None)
    else
      match SubConfig.ParseFrom(text, names, accept)
      case Err(_) => Leaf(None)
      case Ok(lst) => Sub(seq(|lst|, i requires 0 <= i < |lst| => Pair(lst[i].0, typed(lst[i].0, lst[i].1))))
  }

  lemma BadTextSetsNothing(s: State, arg: string, text: string, names: seq<string>,
                           accept: (string, Option<string>) -> int, typed: (string, Option<string>) -> Param,
                           apply: bool)
    requires text == "" || SubConfig.ParseFrom(text, names, accept).Err?
    ensures var (t, status) := ParseTree(s, arg, ParamOf(text, names, accept, typed), apply);
            t == s && !status.Ok?
  {
  }

  // An error in setting the list can set a part of it: in a configuration file, a second child that is not allowed
  // there leaves the first one set.
  lemma PartlySet(s: State, i: nat, name: string, v: Value, w: Value)
    requires s.mode == ConfigFile && i < |s.entries|
    requires var e := s.entries[i]; e.def.child && !Gated(e, s.mode) && Find(s.entries, name) == Some(i)
    requires var x := Find(s.entries, s.entries[i].def.name + ":a");
             && x.Some? && !s.entries[x.value].def.child && !s.entries[x.value].def.nocfg
             && !Gated(s.entries[x.value], s.mode)
    requires var y := Find(s.entries, s.entries[i].def.name + ":b"); y.Some? && s.entries[y.value].def.nocfg
    requires !s.entries[i].def.nocfg
    ensures var (t, status) := ParseTree(s, name, Sub([Pair("a", Leaf(Some(v))), Pair("b", Leaf(Some(w)))]), true);
            status == Invalid && t == SetState(s, Find(s.entries, s.entries[i].def.name + ":a").value, v)
  {
    var full := s.entries[i].def.name;
    var a, b := Pair("a", Leaf(Some(v))), Pair("b", Leaf(Some(w)));
    assert Child(full, a) == full + ":a" && Child(full, b) == full + ":b";
    var x, y := Find(s.entries, full + ":a").value, Find(s.entries, full + ":b").value;
    var t := SetState(s, x, v);
    SameFind(s.entries, t.entries, full + ":b", 0);
    hide Find;
    assert ParseTree(s, full + ":a", a.param, true) == (t, Ok);
    assert ParseTree(t, full + ":b", b.param, true) == (t, Invalid);
    PairsOfTwo(s, full, a, b, true);
  }

  lemma PairsOfTwo(s: State, name: string, a: Pair, b: Pair, write: bool)
    ensures var (t, status) := ParseTree(s, Child(name, a), a.param, write);
            status.Ok? ==>
              var (u, status') := ParseTree(t, Child(name, b), b.param, write);
              SetPairs(s, name, [a, b], write) == (u, Reported(status'))
  {
    hide ParseTree;
    var (t, status) := ParseTree(s, Child(name, a), a.param, write);
    assert [a, b][1..] == [b] && [b][1..] == [];
    if status.Ok? {
      assert SetPairs(s, name, [a, b], write) == SetPairs(t, name, [b], write);
    }
  }

  // ----- Setting children is a run of sets

  // The sets of leaves that are performed, in order.
  function Performed(s: State, arg: string, param: Param, apply: bool): seq<Event>
    decreases param
  {
    match param
    case Leaf(parsed) => if apply then [Set(arg, parsed)] else []
    case Sub(pairs) =>
      match Find(s.entries, arg)
      case None => []
      case Some(i) =>
        var e := s.entries[i];
        if Forbidden(e.def, s.mode) || !e.def.child then []
        else PerformedAll(s, e.def.name, pairs, apply && !Gated(e, s.mode))
  }

  function PerformedAll(s: State, name: string, pairs: seq<Pair>, write: bool): seq<Event>
    decreases pairs
  {
    if pairs == [] then []
    else
      var (t, status) := ParseTree(s, Child(name, pairs[0]), pairs[0].param, write);
      Performed(s, Child(name, pairs[0]), pairs[0].param, write)
      + if status.Ok? then PerformedAll(t, name, pairs[1..], write) else []
  }

  // The same store but for the set flags of options with children.
  ghost predicate SameLeaves(s: State, t: State) {
    && s.lvl == t.lvl && s.mode == t.mode && s.vars == t.vars && |s.entries| == |t.entries|
    && forall i :: 0 <= i < |s.entries| ==> SameLeaf(s.entries[i], t.entries[i])
  }

  predicate SameLeaf(x: Entry, y: Entry) {
    x == y || (x.def.child && y == x.(isSet := y.isSet))
  }

  lemma SetSame(s: State, t: State, arg: string, parsed: Option<Value>)
    requires SameLeaves(s, t)
    ensures SameLeaves(SetOption(s, arg, parsed), SetOption(t, arg, parsed))
  {
    SameFind(s.entries, t.entries, arg, 0);
    assert Target(s, arg) == Target(t, arg);
    if Target(s, arg).Some? {
      assert SameLeaf(s.entries[Target(s, arg).value], t.entries[Target(s, arg).value]);
    }
  }

  lemma {:induction false} RunSame(s: State, t: State, evs: seq<Event>)
    requires SameLeaves(s, t) && OnlySets(evs)
    ensures SameLeaves(Run(s, evs), Run(t, evs))
    decreases |evs|
  {
    hide SameLeaves, SetOption;
    if evs != [] {
      SetSame(s, t, evs[0].arg, evs[0].parsed);
      RunSame(Step(s, evs[0]), Step(t, evs[0]), evs[1..]);
    }
  }

  lemma SameTransitive(s: State, t: State, u: State)
    requires SameLeaves(s, t) && SameLeaves(t, u)
    ensures SameLeaves(s, u) && SameLeaves(t, s)
  {
    forall i | 0 <= i < |s.entries|
      ensures SameLeaf(s.entries[i], u.entries[i]) && SameLeaf(t.entries[i], s.entries[i])
    {
      assert SameLeaf(s.entries[i], t.entries[i]) && SameLeaf(t.entries[i], u.entries[i]);
    }
  }

  lemma MarkSame(s: State, i: nat)
    requires i < |s.entries| && s.entries[i].def.child
    ensures SameLeaves(MarkSet(s, i), s)
  {
  }

  // Setting an option with children, to any depth and with any errors on the way, is the run of the sets that are
  // performed, but for the set flags of options with children.
  lemma {:induction false} TreeIsRun(s: State, arg: string, param: Param, apply: bool)
    ensures var evs := Performed(s, arg, param, apply);
            OnlySets(evs) && SameLeaves(ParseTree(s, arg, param, apply).0, Run(s, evs))
    decreases param
  {
    match param
    case Leaf(parsed) =>
      if apply {
        assert [Set(arg, parsed)][1..] == [];
      }
    case Sub(pairs) =>
      if Find(s.entries, arg).Some? {
        var i := Find(s.entries, arg).value;
        var e := s.entries[i];
        if !Forbidden(e.def, s.mode) && e.def.child {
          var write := apply && !Gated(e, s.mode);
          PairsAreRun(s, e.def.name, pairs, write);
          PairsKeepDefs(s, e.def.name, pairs, write);
          var t := SetPairs(s, e.def.name, pairs, write).0;
          MarkSame(t, i);
          SameTransitive(MarkSet(t, i), t, Run(s, PerformedAll(s, e.def.name, pairs, write)));
        }
      }
  }

  lemma {:induction false} PairsAreRun(s: State, name: string, pairs: seq<Pair>, write: bool)
    ensures var evs := PerformedAll(s, name, pairs, write);
            OnlySets(evs) && SameLeaves(SetPairs(s, name, pairs, write).0, Run(s, evs))
    decreases pairs
  {
    if pairs != [] {
      var arg := Child(name, pairs[0]);
      var (t, status) := ParseTree(s, arg, pairs[0].param, write);
      var first := Performed(s, arg, pairs[0].param, write);
      TreeIsRun(s, arg, pairs[0].param, write);
      hide SameLeaves, ParseTree, Performed;
      if status.Ok? {
        var rest := PerformedAll(t, name, pairs[1..], write);
        PairsAreRun(t, name, pairs[1..], write);
        RunSame(t, Run(s, first), rest);
        RunConcat(s, first, rest);
        SameTransitive(SetPairs(t, name, pairs[1..], write).0, Run(t, rest), Run(Run(s, first), rest));
      } else {
        assert first + [] == first;
      }
    }
  }

  ghost predicate SameDefs(s: State, t: State) {
    |s.entries| == |t.entries| && forall i :: 0 <= i < |s.entries| ==> s.entries[i].def == t.entries[i].def
  }

  lemma {:induction false} TreeKeepsDefs(s: State, arg: string, param: Param, apply: bool)
    ensures SameDefs(s, ParseTree(s, arg, param, apply).0)
    decreases param
  {
    match param
    case Leaf(parsed) =>
    case Sub(pairs) =>
      if Find(s.entries, arg).Some? {
        var e := s.entries[Find(s.entries, arg).value];
        PairsKeepDefs(s, e.def.name, pairs, apply && !Gated(e, s.mode));
      }
  }

  lemma {:induction false} PairsKeepDefs(s: State, name: string, pairs: seq<Pair>, write: bool)
    ensures SameDefs(s, SetPairs(s, name, pairs, write).0)
    decreases pairs
  {
    if pairs != [] {
      var (t, status) := ParseTree(s, Child(name, pairs[0]), pairs[0].param, write);
      TreeKeepsDefs(s, Child(name, pairs[0]), pairs[0].param, write);
      hide ParseTree;
      PairsKeepDefs(t, name, pairs[1..], write);
    }
  }

  // Whatever is set, a variable ends with the value of the last leaf that took effect on it.
  lemma TreeLastSet(s: State, arg: string, param: Param, before: seq<Event>, e: Event, after: seq<Event>, p: Var,
                    v: Value)
    requires Performed(s, arg, param, true) == before + [e] + after
    requires Assigns(Run(s, before), e, p, v)
    requires forall n, w :: 0 <= n < |after| ==>
               !Assigns(Run(Step(Run(s, before), e), after[..n]), after[n], p, w)
    ensures var t := ParseTree(s, arg, param, true).0; p in t.vars && t.vars[p] == v
  {
    TreeIsRun(s, arg, param, true);
    hide ParseTree, Performed;
    SetsParts(before, e, after);
    hide Run, Step, Assigns, OnlySets, SameLeaf;
    LastSetWins(s, before, e, after, p, v);
    RunConcat(s, before + [e], after);
  }

  lemma SetsParts(before: seq<Event>, e: Event, after: seq<Event>)
    requires OnlySets(before + [e] + after)
    ensures OnlySets(before) && OnlySets(after)
  {
    var evs := before + [e] + after;
    assert forall n :: 0 <= n < |before| ==> before[n] == evs[n];
    assert forall n :: 0 <= n < |after| ==> after[n] == evs[|before| + 1 + n];
  }

  // ----- Options with children between a push and its pop

  lemma {:induction false} PopVarsSame(es: seq<Entry>, fs: seq<Entry>, n: nat, lvl: nat, vars: map<Var, Value>)
    requires n <= |es| == |fs| && forall i :: 0 <= i < |es| ==> SameLeaf(es[i], fs[i])
    ensures PopVars(es, n, lvl, vars) == PopVars(fs, n, lvl, vars)
  {
    if n > 0 {
      PopVarsSame(es, fs, n - 1, lvl, vars);
      PopVarSame(es[n - 1], fs[n - 1], lvl, PopVars(es, n - 1, lvl, vars));
      hide SameLeaf, PopVar;
    }
  }

  lemma PopVarSame(x: Entry, y: Entry, lvl: nat, vars: map<Var, Value>)
    requires SameLeaf(x, y)
    ensures PopVar(x, lvl, vars) == PopVar(y, lvl, vars)
  {
  }

  // A pop undoes the setting of an option with children, failed or not: every variable that the push saved on a stack
  // of more than two slots, or that no alias can set, is back.
  lemma PopUndoesTree(s: State, arg: string, param: Param, k: nat)
    requires WF(s) && k < |s.entries| && s.entries[k].Saves()
    requires |s.entries[k].stack| > 2 || !Aliased(s, s.entries[k].def.p)
    ensures var p := s.entries[k].def.p; var s' := PopState(ParseTree(PushState(s), arg, param, true).0);
            p in s.vars && p in s'.vars && s'.vars[p] == s.vars[p]
  {
    var s1 := PushState(s);
    var evs := Performed(s1, arg, param, true);
    TreeIsRun(s1, arg, param, true);
    SetsBalanced(s1, evs);
    NoAliasProtects(s, k, evs);
    var t, u := ParseTree(s1, arg, param, true).0, Run(s1, evs);
    PopVarsSame(t.entries, u.entries, |t.entries|, t.lvl, t.vars);
  }

  // ----- The code

  method SetOptionTree(config: Config, arg: string, param: Param, apply: bool) returns (r: Status)
    requires config.Valid()
    modifies config.Repr
    ensures config.Valid() && config.Repr == old(config.Repr) && config.opts == old(config.opts)
    ensures (config.model, r) == ParseTree(old(config.model), arg, param, apply)
    decreases param
  {
    match param {
      case Leaf(parsed) => r := config.ParseOption(arg, parsed, apply);
      case Sub(pairs) =>
        var found := config.GetOption(arg);
        if found.None? {
          return Unknown;
        }
        var i := found.value;
        var forbidden, write := config.Check(i, apply);
        if forbidden {
          return Invalid;
        }
        if !config.opts[i].def.child {
          return ParseError;
        }
        var name := config.opts[i].def.name;
        ghost var m := config.model;
        hide Config.Valid, SetOption, ParseStatus;
        for j := 0 to |pairs|
          invariant config.Valid() && config.Repr == old(config.Repr) && config.opts == old(config.opts)
          invariant SetPairs(config.model, name, pairs[j..], write) == SetPairs(m, name, pairs, write)
        {
          FirstPair(config.model, name, pairs[j..], write);
          assert pairs[j..][1..] == pairs[j + 1..];
          r := SetOptionTree(config, name + ":" + pairs[j].name, pairs[j].param, write);
          if r != Ok {
            r := Reported(r);
            return;
          }
        }
        NoPair(config.model, name, pairs[|pairs|..], write);
        if write {
          config.MarkSetAt(i);
        }
        r := Ok;
    }
  }

  lemma FirstPair(s: State, name: string, pairs: seq<Pair>, write: bool)
    requires pairs != []
    ensures var (t, status) := ParseTree(s, name + ":" + pairs[0].name, pairs[0].param, write);
            SetPairs(s, name, pairs, write)
            == if status.Ok? then SetPairs(t, name, pairs[1..], write) else (t, Reported(status))
  {
    hide ParseTree;
  }

  lemma NoPair(s: State, name: string, pairs: seq<Pair>, write: bool)
    requires pairs == []
    ensures SetPairs(s, name, pairs, write) == (s, Ok)
  {
  }
}
