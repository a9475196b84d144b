/**
 What the operations of the configuration store do to options, slots and
 variables, said without the functions that compute it.
 */
module ConfigEffect {
  import opened Wrappers
  import opened ConfigSpec
  import opened ConfigRestore

  // ----- Names

  predicate SameLetter(c: char, d: char) {
    || c == d
    || ('A' <= c <= 'Z' && d as int == c as int + 32)
    || ('A' <= d <= 'Z' && c as int == d as int + 32)
  }

  predicate SameText(a: string, b: string) {
    |a| == |b| && forall i :: 0 <= i < |a| ==> SameLetter(a[i], b[i])
  }

  lemma LowerMeans(a: string, b: string)
    ensures Lower(a) == Lower(b) <==> SameText(a, b)
  {
    if Lower(a) == Lower(b) {
      assert |Lower(a)| == |a| && |Lower(b)| == |b|;
      forall i | 0 <= i < |a| ensures SameLetter(a[i], b[i]) {
        assert Lower(a)[i] == LowerChar(a[i]) && Lower(b)[i] == LowerChar(b[i]);
      }
    }
  }

  // Case does not count; a wildcard option matches everything that starts with its name up to the star.
  lemma NameMeans(d: OptDef, arg: string)
    ensures NameMatches(d, arg)
        <==> if d.wildcard && d.name != "" && d.name[|d.name| - 1] == '*' then
               |arg| >= |d.name| - 1 && SameText(d.name[..|d.name| - 1], arg[..|d.name| - 1])
             else SameText(d.name, arg)
  {
    LowerMeans(d.name, arg);
    if d.name != "" && |arg| >= |d.name| - 1 {
      LowerMeans(d.name[..|d.name| - 1], arg[..|d.name| - 1]);
    }
  }

  // ----- Setting an option

  // The option i of the list is the first one of that name.
  predicate FirstNamed(s: State, arg: string, i: int) {
    && 0 <= i < |s.entries|
    && NameMatches(s.entries[i].def, arg)
    && forall j :: 0 <= j < i ==> !NameMatches(s.entries[j].def, arg)
  }

  // The mode lets it be named, and lets it be written: before the command line is parsed in full only the options
  // meant for that, and after it those only if they have not been set.
  predicate Allowed(d: OptDef, mode: Mode) {
    match mode
    case ConfigFile => !d.nocfg
    case CommandLine => !d.nocmd
    case PreParse => true
  }

  predicate Writable(e: Entry, mode: Mode) {
    if mode.PreParse? then e.def.preParse else e.def.preParse ==> !e.isSet
  }

  // What a set of option i to v does.  Everything that is not mentioned as changed is as before.
  ghost predicate Wrote(s: State, i: nat, v: Value, t: State)
    requires i < |s.entries|
  {
    var e := s.entries[i];
    && t.lvl == s.lvl && t.mode == s.mode && |t.entries| == |s.entries|
    && e.def.p in t.vars && t.vars[e.def.p] == v
    && (forall q :: q != e.def.p ==> (q in t.vars <==> q in s.vars))
    && (forall q :: q != e.def.p && q in s.vars ==> t.vars[q] == s.vars[q])
    && t.entries[i].isSet
    && (forall k :: 0 <= k < |s.entries| ==>
          && t.entries[k].def == s.entries[k].def && t.entries[k].alias == s.entries[k].alias
          && (k != i ==> t.entries[k].isSet == s.entries[k].isSet)
          && |t.entries[k].stack| == |s.entries[k].stack|)
  }

  // The slots: the variable's owner has v in its top slot when it was named itself, and in slot 1 when an alias was;
  // no other slot changes.
  ghost predicate WroteSlots(s: State, i: nat, v: Value, t: State)
    requires i < |s.entries| && |t.entries| == |s.entries|
  {
    var e := s.entries[i];
    forall k, j :: 0 <= k < |s.entries| && 0 <= j < |s.entries[k].stack| == |t.entries[k].stack| ==>
      var owner := s.entries[k].def.p == e.def.p && !s.entries[k].def.child && !s.entries[k].alias;
      t.entries[k].stack[j]
      == if owner && j == (if e.alias then 1 else |s.entries[k].stack| - 1) then Slot(s.entries[k].stack[j].lvl, v)
         else s.entries[k].stack[j]
  }

  // In any store and for any name: an option without children that is the first of its name, is allowed and writable,
  // and whose value parses, gets the value, in its variable and in its slot.
  lemma SetWrites(s: State, arg: string, v: Value, i: nat)
    requires FirstNamed(s, arg, i) && !s.entries[i].def.child
    requires Allowed(s.entries[i].def, s.mode) && Writable(s.entries[i], s.mode)
    ensures Wrote(s, i, v, SetOption(s, arg, Some(v))) && WroteSlots(s, i, v, SetOption(s, arg, Some(v)))
    ensures ParseStatus(s, arg, Some(v)) == Ok
  {
    FindsFirst(s, arg, i);
    hide Find;
    assert Target(s, arg) == Some(i);
    hide Target, Allowed, Writable;
    SetStateWrites(s, i, v);
  }

  lemma FindsFirst(s: State, arg: string, i: nat)
    requires FirstNamed(s, arg, i)
    ensures Find(s.entries, arg) == Some(i)
  {
  }

  lemma SetStateWrites(s: State, i: nat, v: Value)
    requires i < |s.entries| && !s.entries[i].def.child
    ensures Wrote(s, i, v, SetState(s, i, v)) && WroteSlots(s, i, v, SetState(s, i, v))
  {
  }

  // In a well-formed store the owner has that slot, so it holds the value.
  lemma OwnerHasSlot(s: State, arg: string, v: Value, i: nat, k: nat)
    requires WF(s) && FirstNamed(s, arg, i) && !s.entries[i].def.child
    requires Allowed(s.entries[i].def, s.mode) && Writable(s.entries[i], s.mode)
    requires k < |s.entries| && !s.entries[k].def.child && !s.entries[k].alias
    requires s.entries[k].def.p == s.entries[i].def.p
    ensures var t := SetOption(s, arg, Some(v));
            var at := if s.entries[i].alias then 1 else |s.entries[k].stack| - 1;
            && |t.entries| == |s.entries| && 0 < at < |s.entries[k].stack| == |t.entries[k].stack|
            && t.entries[k].stack[at].data == v
            && (!s.entries[i].alias ==> k == i)
  {
    SetWrites(s, arg, v, i);
    assert EntryOk(s.entries[k], s.lvl, s.vars);
    hide SetOption;
  }

  // In every other case nothing changes; the status says why.
  lemma SetRefuses(s: State, arg: string, parsed: Option<Value>)
    requires parsed.None? || forall i :: FirstNamed(s, arg, i) ==>
               var e := s.entries[i]; e.def.child || !Allowed(e.def, s.mode) || !Writable(e, s.mode)
    ensures SetOption(s, arg, parsed) == s
  {
    if Find(s.entries, arg).Some? {
      assert FirstNamed(s, arg, Find(s.entries, arg).value);
    }
  }

  lemma StatusMeans(s: State, arg: string, parsed: Option<Value>)
    ensures ParseStatus(s, arg, parsed) == Unknown
        <==> forall j :: 0 <= j < |s.entries| ==> !NameMatches(s.entries[j].def, arg)
    ensures forall i :: FirstNamed(s, arg, i) ==>
              var d := s.entries[i].def;
              ParseStatus(s, arg, parsed) == if !Allowed(d, s.mode) then Invalid else if d.child then ParentOption
                                             else if parsed.None? then ParseError else Ok
  {
    forall i | FirstNamed(s, arg, i) ensures Find(s.entries, arg) == Some(i) {
      FindsFirst(s, arg, i);
    }
    hide NameMatches, FirstNamed;
  }

  // ----- Registering

  // The first option of a variable gets the default and a slot of the current level, both with the value of the
  // variable; a later one is an alias and has none.
  lemma RegisterMeans(s: State, d: OptDef)
    requires !d.child ==> d.p in s.vars
    ensures var t := RegisterState(s, d);
            && t.vars == s.vars && t.lvl == s.lvl && t.mode == s.mode
            && |t.entries| == |s.entries| + 1 && t.entries[1..] == s.entries
            && t.entries[0].def == d && !t.entries[0].isSet
            && (t.entries[0].alias <==> !d.child && exists k :: 0 <= k < |s.entries| && s.entries[k].def.p == d.p)
            && (d.child || t.entries[0].alias ==> t.entries[0].stack == [])
            && (!d.child && !t.entries[0].alias ==>
                  t.entries[0].stack == [Slot(0, s.vars[d.p]), Slot(s.lvl, s.vars[d.p])])
  {
  }

  // ----- Push and pop

  // The options that take part: their own variable, to be saved, and with the M_OPT_OLD flag only when set.
  predicate TakesPart(e: Entry) {
    !e.def.child && !e.alias && !e.def.global && !e.def.nosave
  }

  // A push refreshes the top slot from the variable, puts a slot of the new level with the same value over it, and
  // clears the set flag.  Nothing else changes.
  lemma PushMeans(s: State, k: nat)
    requires WF(s) && k < |s.entries|
    ensures var t := PushState(s); var e, f := s.entries[k], t.entries[k];
            && t.lvl == s.lvl + 1 && t.mode == s.mode && t.vars == s.vars && |t.entries| == |s.entries|
            && f.def == e.def && f.alias == e.alias
            && if TakesPart(e) && (!e.def.saveIfSet || e.isSet) then
                 var n := |e.stack|;
                 && !f.isSet && n > 0 && |f.stack| == n + 1 && e.def.p in s.vars
                 && f.stack[..n - 1] == e.stack[..n - 1]
                 && f.stack[n - 1] == Slot(e.stack[n - 1].lvl, s.vars[e.def.p])
                 && f.stack[n] == Slot(s.lvl + 1, s.vars[e.def.p])
               else f == e
  {
    assert EntryOk(s.entries[k], s.lvl, s.vars);
  }

  // A pop drops the slots of the current level and above; where it drops one, the variable gets the value of the slot
  // then on top.  Set flags, other variables and other options stay.
  lemma PopMeans(s: State, k: nat)
    requires WF(s) && s.lvl > 1 && k < |s.entries|
    ensures var t := PopState(s); var e, f := s.entries[k], t.entries[k];
            && t.lvl == s.lvl - 1 && t.mode == s.mode && |t.entries| == |s.entries| && t.vars.Keys == s.vars.Keys
            && f == e.(stack := f.stack) && |f.stack| <= |e.stack| && f.stack == e.stack[..|f.stack|]
            && if TakesPart(e) then
                 && f.stack != [] && e.def.p in s.vars
                 && (forall j :: 0 <= j < |e.stack| ==> (e.stack[j].lvl < s.lvl <==> j < |f.stack|))
                 && t.vars[e.def.p] == if |f.stack| < |e.stack| then f.stack[|f.stack| - 1].data else s.vars[e.def.p]
               else f == e
  {
    OwnersIn(s);
    PopVarsKeys(s.entries, |s.entries|, s.lvl, s.vars);
    PopStack(s, k);
    if TakesPart(s.entries[k]) {
      PopVarMeans(s, k);
    }
    hide PopVars, Unwind, WF;
  }

  lemma PopStack(s: State, k: nat)
    requires WF(s) && s.lvl > 1 && k < |s.entries|
    ensures var e, f := s.entries[k], PopEntry(s.entries[k], s.lvl);
            && f == e.(stack := f.stack) && |f.stack| <= |e.stack| && f.stack == e.stack[..|f.stack|]
            && if TakesPart(e) then
                 && f.stack != [] && forall j :: 0 <= j < |e.stack| ==> (e.stack[j].lvl < s.lvl <==> j < |f.stack|)
               else f == e
  {
    var e := s.entries[k];
    assert EntryOk(e, s.lvl, s.vars);
    if TakesPart(e) {
      assert LevelsOk(e.stack, s.lvl);
      UnwindKeepsLow(e.stack, s.lvl, 1);
    }
    hide WF;
  }

  lemma PopVarMeans(s: State, k: nat)
    requires WF(s) && s.lvl > 1 && k < |s.entries| && TakesPart(s.entries[k])
    ensures var e, f := s.entries[k], PopEntry(s.entries[k], s.lvl); var t := PopState(s);
            && e.def.p in s.vars && e.def.p in t.vars && f.stack != []
            && t.vars[e.def.p] == if |f.stack| < |e.stack| then f.stack[|f.stack| - 1].data else s.vars[e.def.p]
  {
    var e, es := s.entries[k], s.entries;
    assert EntryOk(e, s.lvl, s.vars);
    assert LevelsOk(e.stack, s.lvl);
    PopStack(s, k);
    hide PopVars, WF;
    if e.stack[|e.stack| - 1].lvl >= s.lvl {
      PopVarsAt(es, |es|, s.lvl, s.vars, k);
    } else {
      PopVarsKept(es, |es|, s.lvl, s.vars, k);
    }
  }

  lemma OwnersIn(s: State)
    requires WF(s)
    ensures forall j :: 0 <= j < |s.entries| && s.entries[j].Primary() ==> s.entries[j].def.p in s.vars
  {
    assert forall j :: 0 <= j < |s.entries| ==> EntryOk(s.entries[j], s.lvl, s.vars);
  }

  lemma {:induction false} PopVarsKept(es: seq<Entry>, n: nat, lvl: nat, vars: map<Var, Value>, k: nat)
    requires k < |es| && n <= |es| && DistinctOwners(es) && es[k].Primary() && es[k].def.p in vars
    requires es[k].stack != [] && es[k].stack[|es[k].stack| - 1].lvl < lvl
    ensures var after := PopVars(es, n, lvl, vars);
            es[k].def.p in after && after[es[k].def.p] == vars[es[k].def.p]
  {
    if n > 0 {
      PopVarsKept(es, n - 1, lvl, vars, k);
      assert n - 1 != k && es[n - 1].Primary() ==> es[n - 1].def.p != es[k].def.p;
    }
  }

  // A variable that no option owns is not touched by a pop.
  lemma {:induction false} PopKeepsUnowned(s: State, p: Var)
    requires WF(s) && p in s.vars
    requires forall k :: 0 <= k < |s.entries| && TakesPart(s.entries[k]) ==> s.entries[k].def.p != p
    ensures p in PopState(s).vars && PopState(s).vars[p] == s.vars[p]
  {
    Unowned(s.entries, |s.entries|, s.lvl, s.vars, p);
  }

  lemma {:induction false} Unowned(es: seq<Entry>, n: nat, lvl: nat, vars: map<Var, Value>, p: Var)
    requires n <= |es| && p in vars && forall k :: 0 <= k < |es| && TakesPart(es[k]) ==> es[k].def.p != p
    ensures p in PopVars(es, n, lvl, vars) && PopVars(es, n, lvl, vars)[p] == vars[p]
  {
    if n > 0 {
      Unowned(es, n - 1, lvl, vars, p);
    }
  }

  // A pop right after a push changes no variable; of the store it leaves the refreshed top slots and the cleared flags.
  lemma PushThenPop(s: State, k: nat)
    requires WF(s) && k < |s.entries|
    ensures var t := PopState(PushState(s)); var e, f := s.entries[k], t.entries[k];
            && t.lvl == s.lvl && |t.entries| == |s.entries|
            && (e.def.p in s.vars && TakesPart(e) ==> e.def.p in t.vars && t.vars[e.def.p] == s.vars[e.def.p])
            && if TakesPart(e) && (!e.def.saveIfSet || e.isSet) then
                 && !f.isSet && |f.stack| == |e.stack| > 0 && e.def.p in s.vars
                 && f.stack[|f.stack| - 1] == Slot(e.stack[|f.stack| - 1].lvl, s.vars[e.def.p])
               else f == e
  {
    PushMeans(s, k);
    PushKeepsWF(s);
    PopMeans(PushState(s), k);
    assert EntryOk(s.entries[k], s.lvl, s.vars);
  }

  // ----- Runs of sets

  // The value that event e gives to variable p, if it is a set that takes effect on it.
  ghost predicate Assigns(s: State, e: Event, p: Var, v: Value) {
    && e.Set? && e.parsed == Some(v)
    && exists i :: && FirstNamed(s, e.arg, i) && !s.entries[i].def.child && s.entries[i].def.p == p
                   && Allowed(s.entries[i].def, s.mode) && Writable(s.entries[i], s.mode)
  }

  lemma SetAssigns(s: State, e: Event, p: Var)
    requires e.Set?
    ensures forall v :: Assigns(s, e, p, v) ==> p in Step(s, e).vars && Step(s, e).vars[p] == v
    ensures (forall v :: !Assigns(s, e, p, v)) && p in s.vars ==>
              p in Step(s, e).vars && Step(s, e).vars[p] == s.vars[p]
  {
    forall v | Assigns(s, e, p, v) ensures p in Step(s, e).vars && Step(s, e).vars[p] == v {
      var i :| FirstNamed(s, e.arg, i) && !s.entries[i].def.child && s.entries[i].def.p == p
               && Allowed(s.entries[i].def, s.mode) && Writable(s.entries[i], s.mode);
      SetWrites(s, e.arg, v, i);
    }
    if e.parsed.Some? && Target(s, e.arg).Some? {
      var i := Target(s, e.arg).value;
      assert FirstNamed(s, e.arg, i);
      assert s.entries[i].def.p == p ==> Assigns(s, e, p, e.parsed.value);
    }
  }

  // After a run of sets a variable has the value of the last set that took effect on it.
  lemma {:induction false} LastSetWins(s: State, before: seq<Event>, e: Event, after: seq<Event>, p: Var, v: Value)
    requires OnlySets(before) && OnlySets(after) && Assigns(Run(s, before), e, p, v)
    requires forall n, w :: 0 <= n < |after| ==>
               !Assigns(Run(Step(Run(s, before), e), after[..n]), after[n], p, w)
    ensures var t := Run(Run(s, before + [e]), after); p in t.vars && t.vars[p] == v
  {
    var u := Run(s, before);
    RunConcat(s, before, [e]);
    assert [e][1..] == [] && Run(u, [e]) == Step(u, e);
    SetAssigns(u, e, p);
    NoneAssigns(Step(u, e), after, p);
  }

  lemma {:induction false} NoneAssigns(s: State, evs: seq<Event>, p: Var)
    requires OnlySets(evs) && p in s.vars
    requires forall n, w :: 0 <= n < |evs| ==> !Assigns(Run(s, evs[..n]), evs[n], p, w)
    ensures p in Run(s, evs).vars && Run(s, evs).vars[p] == s.vars[p]
    decreases |evs|
  {
    if evs != [] {
      assert evs[..0] == [] && Run(s, evs[..0]) == s;
      SetAssigns(s, evs[0], p);
      forall n, w | 0 <= n < |evs[1..]| ensures !Assigns(Run(Step(s, evs[0]), evs[1..][..n]), evs[1..][n], p, w) {
        assert evs[..n + 1][0] == evs[0] && evs[..n + 1][1..] == evs[1..][..n];
        assert !Assigns(Run(s, evs[..n + 1]), evs[n + 1], p, w);
      }
      NoneAssigns(Step(s, evs[0]), evs[1..], p);
    }
  }
}
