/**
 What push and pop restore, over every run of sets and nested push/pop between
 a push and its matching pop.
 */
module ConfigRestore {
  import opened Wrappers
  import opened ConfigSpec

  datatype Event = Set(arg: string, parsed: Option<Value>) | Push | Pop

  function Step(s: State, e: Event): State {
    match e
    case Set(arg, parsed) => SetOption(s, arg, parsed)
    case Push => PushState(s)
    case Pop => PopState(s)
  }

  function Run(s: State, evs: seq<Event>): State
    decreases |evs|
  {
    if evs == [] then s else Run(Step(s, evs[0]), evs[1..])
  }

  // The run never pops below floor and ends there.
  predicate Balanced(s: State, evs: seq<Event>, floor: nat)
    decreases |evs|
  {
    s.lvl >= floor
    && if evs == [] then s.lvl == floor
       else (evs[0].Pop? ==> s.lvl > floor) && Balanced(Step(s, evs[0]), evs[1..], floor)
  }

  lemma {:induction false} RunConcat(s: State, a: seq<Event>, b: seq<Event>)
    ensures Run(s, a + b) == Run(Run(s, a), b)
    decreases |a|
  {
    hide Step;
    if a == [] {
      assert a + b == b;
    } else {
      assert (a + b)[0] == a[0] && (a + b)[1..] == a[1..] + b;
      RunConcat(Step(s, a[0]), a[1..], b);
    }
  }

  predicate OnlySets(evs: seq<Event>) {
    forall i :: 0 <= i < |evs| ==> evs[i].Set?
  }

  lemma {:induction false} SetsBalanced(s: State, evs: seq<Event>)
    requires OnlySets(evs)
    ensures Balanced(s, evs, s.lvl)
    decreases |evs|
  {
    if evs != [] {
      SetsBalanced(Step(s, evs[0]), evs[1..]);
    }
  }

  // ----- Every step keeps the store well formed

  lemma SetKeepsWF(s: State, i: nat, v: Value)
    requires WF(s) && i < |s.entries| && !s.entries[i].def.child
    ensures WF(SetState(s, i, v))
  {
    var s' := SetState(s, i, v);
    assert EntryOk(s.entries[i], s.lvl, s.vars);
    forall k | 0 <= k < |s'.entries| ensures EntryOk(s'.entries[k], s'.lvl, s'.vars) {
      SetEntryOk(s.entries[k], k == i, s.entries[i], v, s.lvl, s.vars);
    }
    assert forall k :: 0 <= k < |s'.entries| ==> s'.entries[k].Primary() == s.entries[k].Primary();
  }

  lemma SetEntryOk(x: Entry, self: bool, e: Entry, v: Value, lvl: nat, vars: map<Var, Value>)
    requires EntryOk(x, lvl, vars) && EntryOk(e, lvl, vars) && !e.def.child && (self ==> x == e)
    ensures EntryOk(SetEntry(x, self, e, v), lvl, vars[e.def.p := v])
  {
    var x' := SetEntry(x, self, e, v);
    assert |x'.stack| == |x.stack| && forall j :: 0 <= j < |x.stack| ==> x'.stack[j].lvl == x.stack[j].lvl;
  }

  lemma PushKeepsWF(s: State)
    requires WF(s)
    ensures WF(PushState(s))
  {
    var s' := PushState(s);
    forall k | 0 <= k < |s'.entries| ensures EntryOk(s'.entries[k], s'.lvl, s'.vars) {
      var e := s.entries[k];
      if e.Saves() {
        assert LevelsOk(e.stack, s.lvl);
        assert LevelsOk(s'.entries[k].stack, s'.lvl);
      }
    }
  }

  lemma {:induction false} PopVarsKeys(es: seq<Entry>, n: nat, lvl: nat, vars: map<Var, Value>)
    requires n <= |es|
    requires forall k :: 0 <= k < |es| && es[k].Primary() ==> es[k].def.p in vars
    ensures PopVars(es, n, lvl, vars).Keys == vars.Keys
  {
    if n > 0 {
      PopVarsKeys(es, n - 1, lvl, vars);
    }
  }

  lemma PopKeepsWF(s: State)
    requires WF(s) && s.lvl > 1
    ensures WF(PopState(s))
  {
    var s' := PopState(s);
    assert forall k :: 0 <= k < |s.entries| ==> EntryOk(s.entries[k], s.lvl, s.vars);
    PopVarsKeys(s.entries, |s.entries|, s.lvl, s.vars);
    hide PopVars, EntryOk, Unwind;
    forall k | 0 <= k < |s'.entries| ensures EntryOk(s'.entries[k], s'.lvl, s'.vars) {
      PopEntryOk(s.entries[k], s.lvl, s.vars, s'.vars);
    }
  }

  lemma PopEntryOk(e: Entry, lvl: nat, vars: map<Var, Value>, after: map<Var, Value>)
    requires EntryOk(e, lvl, vars) && lvl > 1 && after.Keys == vars.Keys
    ensures EntryOk(PopEntry(e, lvl), lvl - 1, after)
  {
    if e.Restores() {
      UnwindKeepsLow(e.stack, lvl, 1);
      hide Unwind;
      var kept := Unwind(e.stack, lvl);
      assert kept == e.stack[..|kept|];
      assert LevelsOk(kept, lvl - 1);
    }
  }

  // ----- What a step keeps of a slot below the floor

  // The value that step e writes into slot number 1 of variable p, through an alias of p.
  function AliasWrite(s: State, e: Event, p: Var): Option<Value> {
    if e.Set? && Target(s, e.arg).Some? && s.entries[Target(s, e.arg).value].alias
       && s.entries[Target(s, e.arg).value].def.p == p then e.parsed
    else None
  }

  // The last such value of a whole run, v when there is none.
  function LastAliasWrite(s: State, evs: seq<Event>, p: Var, v: Value): Value
    decreases |evs|
  {
    if evs == [] then v
    else
      var w := AliasWrite(s, evs[0], p);
      LastAliasWrite(Step(s, evs[0]), evs[1..], p, if w.Some? then w.value else v)
  }

  // Slot n - 1 of entry k holds v, and slot n was pushed at level floor.
  ghost predicate Holds(s: State, k: nat, d: OptDef, floor: nat, n: nat, v: Value) {
    && WF(s)
    && k < |s.entries|
    && s.entries[k].Restores()
    && s.entries[k].def == d
    && |s.entries[k].stack| > n >= 2
    && s.entries[k].stack[n].lvl == floor
    && s.entries[k].stack[n - 1].data == v
  }

  lemma SetHolds(s: State, i: nat, x: Value, k: nat, d: OptDef, floor: nat, n: nat, v: Value)
    requires Holds(s, k, d, floor, n, v) && i < |s.entries| && !s.entries[i].def.child
    ensures var w := s.entries[i].alias && s.entries[i].def.p == d.p;
            Holds(SetState(s, i, x), k, d, floor, n, if n == 2 && w then x else v)
  {
    SetKeepsWF(s, i, x);
    assert EntryOk(s.entries[i], s.lvl, s.vars) && EntryOk(s.entries[k], s.lvl, s.vars);
    assert i != k && s.entries[i].Primary() ==> s.entries[i].def.p != d.p;
  }

  lemma PopHolds(s: State, k: nat, d: OptDef, floor: nat, n: nat, v: Value)
    requires Holds(s, k, d, floor, n, v) && 1 <= floor < s.lvl
    ensures Holds(PopState(s), k, d, floor, n, v)
  {
    PopKeepsWF(s);
    hide WF, PopVars;
    UnwindKeepsLow(s.entries[k].stack, s.lvl, n);
  }

  lemma StepHolds(s: State, e: Event, k: nat, d: OptDef, floor: nat, n: nat, v: Value)
    requires Holds(s, k, d, floor, n, v) && floor >= 1
    requires s.lvl >= floor && (e.Pop? ==> s.lvl > floor)
    ensures var w := AliasWrite(s, e, d.p);
            Holds(Step(s, e), k, d, floor, n, if n == 2 && w.Some? then w.value else v)
  {
    match e
    case Set(arg, parsed) =>
      hide Holds, SetState;
      if Target(s, arg).Some? && parsed.Some? {
        SetHolds(s, Target(s, arg).value, parsed.value, k, d, floor, n, v);
      }
    case Push =>
      PushKeepsWF(s);
    case Pop =>
      hide Holds;
      PopHolds(s, k, d, floor, n, v);
  }

  lemma {:induction false} RunHolds(s: State, evs: seq<Event>, k: nat, d: OptDef, floor: nat, n: nat, v: Value)
    requires Holds(s, k, d, floor, n, v) && floor >= 1
    requires Balanced(s, evs, floor)
    ensures Run(s, evs).lvl == floor
    ensures Holds(Run(s, evs), k, d, floor, n, if n == 2 then LastAliasWrite(s, evs, d.p, v) else v)
    decreases |evs|
  {
    if evs != [] {
      StepHolds(s, evs[0], k, d, floor, n, v);
      var w := AliasWrite(s, evs[0], d.p);
      RunHolds(Step(s, evs[0]), evs[1..], k, d, floor, n, if n == 2 && w.Some? then w.value else v);
    }
  }

  // ----- Pop puts the top kept slot back into the variable

  lemma {:induction false} PopVarsOther(es: seq<Entry>, n: nat, lvl: nat, vars: map<Var, Value>, p: Var)
    requires n <= |es| && p in vars
    requires forall j :: 0 <= j < n && es[j].Primary() ==> es[j].def.p != p
    ensures p in PopVars(es, n, lvl, vars) && PopVars(es, n, lvl, vars)[p] == vars[p]
  {
    if n > 0 {
      PopVarsOther(es, n - 1, lvl, vars, p);
    }
  }

  lemma {:induction false} PopVarsAt(es: seq<Entry>, n: nat, lvl: nat, vars: map<Var, Value>, k: nat)
    requires k < n <= |es| && DistinctOwners(es) && es[k].Restores() && es[k].def.p in vars
    requires es[k].stack != [] && es[k].stack[0].lvl < lvl <= es[k].stack[|es[k].stack| - 1].lvl
    ensures var kept := Unwind(es[k].stack, lvl);
            var after := PopVars(es, n, lvl, vars);
            0 < |kept| < |es[k].stack| && es[k].def.p in after && after[es[k].def.p] == kept[|kept| - 1].data
  {
    UnwindKeepsLow(es[k].stack, lvl, 0);
    if n - 1 == k {
      PopVarsOther(es, k, lvl, vars, es[k].def.p);
    } else {
      PopVarsAt(es, n - 1, lvl, vars, k);
      assert es[n - 1].Primary() ==> es[n - 1].def.p != es[k].def.p;
    }
  }

  lemma UnwindKeepsLow(stack: seq<Slot>, lvl: nat, i: nat)
    requires i < |stack| && stack[i].lvl < lvl
    ensures |Unwind(stack, lvl)| > i
  {
  }

  // ----- The restoration theorem

  // A push puts the current value below its new slot.
  lemma PushHolds(s: State, k: nat)
    requires WF(s) && k < |s.entries| && s.entries[k].Saves()
    ensures var e := s.entries[k];
            && |e.stack| >= 2 && e.def.p in s.vars
            && Holds(PushState(s), k, e.def, s.lvl + 1, |e.stack|, s.vars[e.def.p])
  {
    assert EntryOk(s.entries[k], s.lvl, s.vars);
    PushKeepsWF(s);
  }

  // A pop to the floor puts the value below the slot of that floor back into the variable.
  lemma PopAt(s: State, k: nat, d: OptDef, n: nat, v: Value)
    requires s.lvl > 1 && Holds(s, k, d, s.lvl, n, v)
    ensures var s' := PopState(s);
            && WF(s') && s'.lvl == s.lvl - 1 && |s'.entries| == |s.entries|
            && |s'.entries[k].stack| == n && s'.entries[k].Restores() && s'.entries[k].def == d
            && d.p in s'.vars && s'.vars[d.p] == v
  {
    PopKeepsWF(s);
    hide WF, PopVars, DistinctOwners, Unwind;
    HoldsParts(s, k, d, n, v);
    var es := s.entries;
    PopVarsAt(es, |es|, s.lvl, s.vars, k);
    UnwindKeepsLow(es[k].stack, s.lvl, n - 1);
    var kept := Unwind(es[k].stack, s.lvl);
    assert |kept| <= n;
  }

  lemma HoldsParts(s: State, k: nat, d: OptDef, n: nat, v: Value)
    requires Holds(s, k, d, s.lvl, n, v)
    ensures DistinctOwners(s.entries) && d.p in s.vars
    ensures forall i, j :: 0 <= i < j < |s.entries[k].stack| ==> s.entries[k].stack[i].lvl < s.entries[k].stack[j].lvl
    ensures s.entries[k].stack[|s.entries[k].stack| - 1].lvl == s.lvl
  {
    assert EntryOk(s.entries[k], s.lvl, s.vars);
    assert LevelsOk(s.entries[k].stack, s.lvl);
  }

  // The variable of a saved entry after push, a balanced run, pop: its value at the push, unless the push
  // was made when the slot on top was the one its aliases point to; then it is whatever an alias wrote last.
  lemma PopRestores(s: State, evs: seq<Event>, k: nat)
    requires WF(s) && k < |s.entries| && s.entries[k].Saves()
    requires Balanced(PushState(s), evs, s.lvl + 1)
    ensures var p := s.entries[k].def.p;
            var s' := PopState(Run(PushState(s), evs));
            && WF(s') && s'.lvl == s.lvl
            && |s'.entries| == |Run(PushState(s), evs).entries| > k
            && |s'.entries[k].stack| == |s.entries[k].stack|
            && s'.entries[k].Restores() && s'.entries[k].def == s.entries[k].def && p in s.vars && p in s'.vars
            && s'.vars[p] == if |s.entries[k].stack| == 2 then LastAliasWrite(PushState(s), evs, p, s.vars[p])
                             else s.vars[p]
  {
    assert s.lvl >= 1;
    hide WF, Run, PushState, PopState, LastAliasWrite, Balanced;
    var e := s.entries[k];
    PushHolds(s, k);
    var p, n, s1 := e.def.p, |e.stack|, PushState(s);
    RunHolds(s1, evs, k, e.def, s.lvl + 1, n, s.vars[p]);
    PopAt(Run(s1, evs), k, e.def, n, if n == 2 then LastAliasWrite(s1, evs, p, s.vars[p]) else s.vars[p]);
  }

  // ----- Exactly when a push protects a variable

  ghost predicate Restored(s: State, k: nat, evs: seq<Event>)
    requires k < |s.entries|
  {
    var p := s.entries[k].def.p;
    var s' := PopState(Run(PushState(s), evs));
    p in s.vars && p in s'.vars && s'.vars[p] == s.vars[p]
  }

  // Some option name sets an alias of p.
  ghost predicate Aliased(s: State, p: Var) {
    exists arg :: Target(s, arg).Some? && s.entries[Target(s, arg).value].alias
                  && s.entries[Target(s, arg).value].def.p == p
  }

  // The later store t has the options of s, and an alias once set stays set.
  ghost predicate Later(s: State, t: State) {
    && t.mode == s.mode
    && |t.entries| == |s.entries|
    && forall i :: 0 <= i < |s.entries| ==>
                     && t.entries[i].def == s.entries[i].def
                     && t.entries[i].alias == s.entries[i].alias
                     && (s.entries[i].alias && s.entries[i].isSet ==> t.entries[i].isSet)
  }

  lemma {:induction false} SameFind(es: seq<Entry>, fs: seq<Entry>, arg: string, k: nat)
    requires |es| == |fs| && forall i :: 0 <= i < |es| ==> es[i].def == fs[i].def
    ensures Find(es, arg, k) == Find(fs, arg, k)
    decreases |es| - k
  {
    if k < |es| {
      SameFind(es, fs, arg, k + 1);
    }
  }

  lemma StepLater(s: State, t: State, e: Event)
    requires Later(s, t)
    ensures Later(s, Step(t, e))
  {
  }

  lemma NoAliasWrite(s: State, t: State, e: Event, p: Var)
    requires Later(s, t) && !Aliased(s, p)
    ensures AliasWrite(t, e, p) == None
  {
    if e.Set? {
      SameFind(s.entries, t.entries, e.arg, 0);
      assert Target(t, e.arg).None? || !t.entries[Target(t, e.arg).value].alias
             || Target(s, e.arg) == Target(t, e.arg);
    }
  }

  lemma {:induction false} NoAliasWrites(s: State, t: State, evs: seq<Event>, p: Var, v: Value)
    requires Later(s, t) && !Aliased(s, p)
    ensures LastAliasWrite(t, evs, p, v) == v
    decreases |evs|
  {
    if evs != [] {
      NoAliasWrite(s, t, evs[0], p);
      StepLater(s, t, evs[0]);
      NoAliasWrites(s, Step(t, evs[0]), evs[1..], p, v);
    }
  }

  // An alias that can be set undoes the protection of a push made on a stack of two slots.
  lemma AliasBreaks(s: State, k: nat) returns (evs: seq<Event>)
    requires WF(s) && k < |s.entries| && s.entries[k].Saves()
    requires |s.entries[k].stack| == 2 && Aliased(s, s.entries[k].def.p)
    ensures Balanced(PushState(s), evs, s.lvl + 1) && !Restored(s, k, evs)
  {
    var e, s1 := s.entries[k], PushState(s);
    assert EntryOk(e, s.lvl, s.vars);
    var arg :| Target(s, arg).Some? && s.entries[Target(s, arg).value].alias
               && s.entries[Target(s, arg).value].def.p == e.def.p;
    SameFind(s.entries, s1.entries, arg, 0);
    var w := s.vars[e.def.p] + "x";
    evs := [Set(arg, Some(w))];
    assert AliasWrite(s1, evs[0], e.def.p) == Some(w);
    hide WF, EntryOk, PushState, PopState, Run, Balanced, AliasWrite, LastAliasWrite, Target;
    OneStep(s1, evs[0], e.def.p, s.vars[e.def.p]);
    PopRestores(s, evs, k);
  }

  lemma OneStep(s: State, e: Event, p: Var, v: Value)
    requires e.Set?
    ensures Balanced(s, [e], s.lvl)
    ensures LastAliasWrite(s, [e], p, v) == if AliasWrite(s, e, p).Some? then AliasWrite(s, e, p).value else v
  {
    assert [e][1..] == [];
  }

  lemma NoAliasProtects(s: State, k: nat, evs: seq<Event>)
    requires WF(s) && k < |s.entries| && s.entries[k].Saves()
    requires |s.entries[k].stack| > 2 || !Aliased(s, s.entries[k].def.p)
    requires Balanced(PushState(s), evs, s.lvl + 1)
    ensures Restored(s, k, evs)
  {
    StepLater(s, s, Push);
    hide WF, PushState, PopState, Run, Balanced, LastAliasWrite, Aliased, Later;
    PopRestores(s, evs, k);
    if |s.entries[k].stack| == 2 {
      NoAliasWrites(s, PushState(s), evs, s.entries[k].def.p, s.vars[s.entries[k].def.p]);
    }
  }

  // A push protects the variable of a saved option over every run if and only if the slot on top is not the
  // one its aliases share, or no alias of it can be set.
  lemma PushProtects(s: State, k: nat)
    requires WF(s) && k < |s.entries| && s.entries[k].Saves()
    ensures (forall evs :: Balanced(PushState(s), evs, s.lvl + 1) ==> Restored(s, k, evs))
            <==> (|s.entries[k].stack| > 2 || !Aliased(s, s.entries[k].def.p))
  {
    assert EntryOk(s.entries[k], s.lvl, s.vars);
    if |s.entries[k].stack| > 2 || !Aliased(s, s.entries[k].def.p) {
      forall evs | Balanced(PushState(s), evs, s.lvl + 1) ensures Restored(s, k, evs) {
        NoAliasProtects(s, k, evs);
      }
    } else {
      var evs := AliasBreaks(s, k);
    }
  }

  // ----- Why mencoder pushes twice before the first file

  // One file: push, set the file's options, play, pop.
  function PlayFiles(s: State, files: seq<seq<Event>>): State
    decreases |files|
  {
    if files == [] then s else PlayFiles(PopState(Run(PushState(s), files[0])), files[1..])
  }

  ghost predicate FilesBalanced(s: State, files: seq<seq<Event>>)
    decreases |files|
  {
    files != [] ==>
      && Balanced(PushState(s), files[0], s.lvl + 1)
      && FilesBalanced(PopState(Run(PushState(s), files[0])), files[1..])
  }

  // A stack of three slots or more protects an option from file to file, aliases or not.
  lemma {:induction false} PlayFilesRestores(s: State, files: seq<seq<Event>>, k: nat)
    requires WF(s) && k < |s.entries| && s.entries[k].Saves() && !s.entries[k].def.saveIfSet
    requires |s.entries[k].stack| > 2 && FilesBalanced(s, files)
    ensures var p := s.entries[k].def.p; var s' := PlayFiles(s, files);
            WF(s') && s'.lvl == s.lvl && p in s.vars && p in s'.vars && s'.vars[p] == s.vars[p]
    decreases |files|
  {
    assert EntryOk(s.entries[k], s.lvl, s.vars);
    if files != [] {
      PopRestores(s, files[0], k);
      var s' := PopState(Run(PushState(s), files[0]));
      PlayFilesRestores(s', files[1..], k);
    }
  }

  lemma {:induction false} RunLater(s: State, t: State, evs: seq<Event>)
    requires Later(s, t)
    ensures Later(s, Run(t, evs))
    decreases |evs|
  {
    if evs != [] {
      StepLater(s, t, evs[0]);
      RunLater(s, Step(t, evs[0]), evs[1..]);
    }
  }

  // The extra push makes every later push protect every saved option, whatever the level of the store and
  // whatever aliases the files set.
  lemma DoublePush(s: State, files: seq<seq<Event>>, k: nat)
    requires WF(s) && k < |s.entries| && s.entries[k].Saves() && !s.entries[k].def.saveIfSet
    requires FilesBalanced(PushState(s), files)
    ensures var p := s.entries[k].def.p; var s' := PlayFiles(PushState(s), files);
            p in s.vars && p in s'.vars && s'.vars[p] == s.vars[p]
  {
    assert EntryOk(s.entries[k], s.lvl, s.vars);
    PushKeepsWF(s);
    PlayFilesRestores(PushState(s), files, k);
  }

  // With a single push the hack is needed: a fresh store, one variable, one alias of it, one file.
  lemma SinglePushFails()
    ensures exists d: OptDef, a: OptDef, vars: map<Var, Value>, evs: seq<Event> ::
              var s := RegisterState(RegisterState(State(1, CommandLine, [], vars), d), a);
              WF(s) && |s.entries| == 2 && s.entries[1].Saves()
              && Balanced(PushState(s), evs, 2) && !Restored(s, 1, evs)
  {
    var d := OptDef("a", 0, false, false, false, false, false, false, false, false);
    var s0 := State(1, CommandLine, [], map[0 := "old"]);
    var s1 := RegisterState(s0, d);
    var s := RegisterState(s1, d.(name := "b"));
    assert s1.entries == [Entry(d, false, false, [Slot(0, "old"), Slot(1, "old")])];
    assert s.entries == [Entry(d.(name := "b"), true, false, []), s1.entries[0]] by {
      assert s1.entries[0].def.p == 0;
    }
    assert EntryOk(s.entries[0], 1, s.vars) && EntryOk(s.entries[1], 1, s.vars);
    assert Find(s.entries, "b", 0) == Some(0);
    assert Target(s, "b") == Some(0);
    assert Aliased(s, 0);
    var evs := AliasBreaks(s, 1);
  }

  // ----- Levels over every run

  // In every reachable store the levels of each stack rise strictly from a bottom slot of level 0, which no
  // pop removes; runs start at level 1 or above and never pop below it.
  lemma {:induction false} RunKeepsWF(s: State, evs: seq<Event>, floor: nat)
    requires WF(s) && floor >= 1 && Balanced(s, evs, floor)
    ensures WF(Run(s, evs)) && Later(s, Run(s, evs))
    decreases |evs|
  {
    if evs != [] {
      var e := evs[0];
      match e {
        case Set(arg, parsed) =>
          if Target(s, arg).Some? && parsed.Some? {
            SetKeepsWF(s, Target(s, arg).value, parsed.value);
          }
        case Push => PushKeepsWF(s);
        case Pop => PopKeepsWF(s);
      }
      RunKeepsWF(Step(s, e), evs[1..], floor);
      RunLater(s, s, evs);
    }
  }

  lemma RegisterKeepsWF(s: State, d: OptDef)
    requires WF(s) && s.lvl == 1 && (!d.child ==> d.p in s.vars)
    requires forall k :: 0 <= k < |s.entries| && s.entries[k].def.p == d.p ==> s.entries[k].def.child == d.child
    ensures WF(RegisterState(s, d))
  {
    var s' := RegisterState(s, d);
    assert forall k :: 0 < k < |s'.entries| ==> s'.entries[k] == s.entries[k - 1];
    forall k | 0 <= k < |s'.entries| ensures EntryOk(s'.entries[k], s'.lvl, s'.vars) {
      if k > 0 {
        assert EntryOk(s.entries[k - 1], s.lvl, s.vars);
      }
    }
  }
}
