/**
 The configuration object of m_config.c: option records and save slots on the
 heap, an alias sharing a slot object with the option that owns the variable.
 Each operation is proved against its counterpart in ConfigSpec.
 */
module Config {
  import opened Wrappers
  import opened ConfigSpec
  import opened ConfigRestore

  class SaveSlot {
    const lvl: nat
    ghost const owner: Var
    var data: Value

    constructor (lvl: nat, data: Value, ghost owner: Var)
      ensures this.lvl == lvl && this.data == data && this.owner == owner
    {
      this.lvl := lvl;
      this.data := data;
      this.owner := owner;
    }
  }

  class ConfigOption {
    const def: OptDef
    const alias: bool
    var slots: seq<SaveSlot>  // bottom first; the last one is on top
    var isSet: bool

    constructor (def: OptDef, alias: bool, slots: seq<SaveSlot>)
      ensures this.def == def && this.alias == alias && this.slots == slots && !this.isSet
    {
      this.def := def;
      this.alias := alias;
      this.slots := slots;
      this.isSet := false;
    }

    predicate Owns() {
      !def.child && !alias
    }

    // The slots hold this stack.
    ghost predicate Holds(stack: seq<Slot>)
      reads this, slots
    {
      && |slots| == |stack|
      && forall t :: 0 <= t < |slots| ==> slots[t].lvl == stack[t].lvl && slots[t].data == stack[t].data
    }

    // Refresh the slot on top and stack a new one over it.
    method Save(lvl: nat, v: Value, ghost stack: seq<Slot>) returns (slot: SaveSlot)
      requires slots != [] && Holds(stack)
      requires forall t :: 0 <= t < |stack| - 1 ==> stack[t].lvl < stack[|stack| - 1].lvl
      modifies this, slots[|slots| - 1]
      ensures fresh(slot) && slot.owner == def.p && slots == old(slots) + [slot] && !isSet
      ensures Holds(WriteSlot(stack, |stack| - 1, v) + [Slot(lvl, v)])
    {
      var top := slots[|slots| - 1];
      top.data := v;
      slot := new SaveSlot(lvl, top.data, def.p);
      slots := slots + [slot];
      isSet := false;
    }

    static lemma UnwindStep(stack: seq<Slot>, n: nat, lvl: nat)
      requires 0 < n <= |stack|
      ensures Unwind(stack[..n], lvl) == if stack[n - 1].lvl >= lvl then Unwind(stack[..n - 1], lvl) else stack[..n]
    {
      assert stack[..n][..n - 1] == stack[..n - 1];
    }

    // Drop the slots of level lvl and above.
    method Drop(lvl: nat, ghost stack: seq<Slot>) returns (dropped: nat)
      requires slots != [] && Holds(stack) && stack[0].lvl < lvl
      modifies this`slots
      ensures slots != [] && |slots| <= |old(slots)| && slots == old(slots)[..|slots|]
      ensures Holds(Unwind(stack, lvl))
      ensures dropped == |old(slots)| - |slots|
    {
      hide Unwind;
      ghost var before := slots;
      assert stack[..|slots|] == stack;
      dropped := 0;
      while slots[|slots| - 1].lvl >= lvl
        invariant 0 < |slots| <= |before| && slots == before[..|slots|]
        invariant Unwind(stack[..|slots|], lvl) == Unwind(stack, lvl)
        invariant dropped == |before| - |slots|
        decreases |slots|
      {
        UnwindStep(stack, |slots|, lvl);
        slots := slots[..|slots| - 1];
        dropped := dropped + 1;
      }
      UnwindStep(stack, |slots|, lvl);
    }
  }

  class Config {
    var opts: seq<ConfigOption>
    var lvl: nat
    var mode: Mode
    var vars: map<Var, Value>  // the program's variables, by address

    ghost var model: State               // what the records stand for
    ghost var shared: map<Var, SaveSlot>  // slot number 1 of each variable
    ghost var Repr: set<object>

    // The record o stands for e.  Every slot knows its variable, and all options of a variable have its slot
    // number 1.
    static ghost predicate Stands(o: ConfigOption, e: Entry, shared: map<Var, SaveSlot>)
      reads o, o.slots
    {
      && e.def == o.def
      && e.alias == o.alias
      && e.isSet == o.isSet
      && (if o.Owns() then o.Holds(e.stack) else e.stack == [])
      && if o.def.child then o.slots == [] && !o.alias
         else
           && |o.slots| >= 2
           && (o.alias ==> |o.slots| == 2)
           && (forall t :: 0 <= t < |o.slots| ==> o.slots[t].owner == o.def.p)
           && o.def.p in shared
           && o.slots[1] == shared[o.def.p]
    }

    // No record occurs twice, and no two records own the same variable.
    static ghost predicate Distinct(opts: seq<ConfigOption>) {
      forall j, k :: 0 <= j < k < |opts| ==>
        opts[j] != opts[k] && (opts[j].Owns() && opts[k].Owns() ==> opts[j].def.p != opts[k].def.p)
    }

    ghost predicate InRepr(o: ConfigOption)
      reads this, Repr
    {
      o in Repr && forall t :: 0 <= t < |o.slots| ==> o.slots[t] in Repr
    }

    ghost predicate Tied(es: seq<Entry>)
      reads this, Repr
    {
      |es| == |opts| && forall k :: 0 <= k < |opts| ==> InRepr(opts[k]) && Stands(opts[k], es[k], shared)
    }

    ghost predicate Valid()
      reads this, Repr
      ensures Valid() ==> this in Repr
    {
      && this in Repr
      && Distinct(opts)
      && model == State(lvl, mode, model.entries, vars)
      && Tied(model.entries)
      && WF(model)
    }

    constructor (mode: Mode, vars: map<Var, Value>)
      ensures Valid() && fresh(Repr)
      ensures model == State(1, mode, [], vars)
    {
      opts, lvl, this.mode, this.vars := [], 1, mode, vars;
      model, shared := State(1, mode, [], vars), map[];
      Repr := {this};
    }

    method SaveOption(co: ConfigOption, ghost e: Entry)
      requires lvl > 0 && Stands(co, e, shared) && co.Owns() && InRepr(co) && co.def.p in vars
      requires LevelsOk(e.stack, lvl - 1)
      modifies this`Repr, co, co.slots[|co.slots| - 1]
      ensures old(Repr) <= Repr && fresh(Repr - old(Repr)) && InRepr(co)
      ensures Stands(co, e.(isSet := false,
                            stack := WriteSlot(e.stack, |e.stack| - 1, vars[co.def.p]) + [Slot(lvl, vars[co.def.p])]),
                     shared)
    {
      var slot := co.Save(lvl, vars[co.def.p], e.stack);
      Repr := Repr + {slot};
    }

    // The body of the loop of m_config_push.
    method PushOption(k: nat, ghost es: seq<Entry>)
      requires this in Repr && Distinct(opts) && Tied(es) && k < |opts| && lvl > 0 && EntryOk(es[k], lvl - 1, vars)
      modifies Repr
      ensures opts == old(opts) && lvl == old(lvl) && mode == old(mode) && vars == old(vars) && model == old(model)
      ensures this in Repr && old(Repr) <= Repr && fresh(Repr - old(Repr))
      ensures Tied(es[k := PushEntry(es[k], lvl, vars)])
    {
      var co := opts[k];
      assert InRepr(co) && Stands(co, es[k], shared);
      assert es[k].isSet == co.isSet && es[k].alias == co.alias && es[k].def == co.def;
      if co.def.child || co.def.global || co.def.nosave || (co.def.saveIfSet && !co.isSet) || co.alias {
        assert es[k := es[k]] == es;
        return;
      }
      SaveOption(co, es[k]);
      forall j | 0 <= j < |opts| && j != k ensures InRepr(opts[j]) && Stands(opts[j], es[j], shared) {
        assert old(InRepr(opts[j])) && old(Stands(opts[j], es[j], shared));
      }
    }

    // The loop of m_config_push.
    method PushAll(ghost s: State)
      requires this in Repr && Distinct(opts) && Tied(s.entries) && WF(s) && lvl == s.lvl + 1 && vars == s.vars
      modifies Repr
      ensures opts == old(opts) && lvl == old(lvl) && mode == old(mode) && vars == old(vars) && model == old(model)
      ensures old(Repr) <= Repr && fresh(Repr - old(Repr))
      ensures Tied(PushState(s).entries)
    {
      hide PushEntry, EntryOk, InRepr, Stands;
      ghost var es := s.entries;
      for k := 0 to |opts|
        invariant opts == old(opts) && lvl == old(lvl) && mode == old(mode) && vars == s.vars && model == old(model)
        invariant old(Repr) <= Repr && fresh(Repr - old(Repr))
        invariant Tied(es)
        invariant forall j :: 0 <= j < k ==> es[j] == PushEntry(s.entries[j], lvl, vars)
        invariant forall j :: k <= j < |es| ==> es[j] == s.entries[j]
      {
        assert EntryOk(s.entries[k], s.lvl, s.vars);
        PushOption(k, es);
        es := es[k := PushEntry(es[k], lvl, vars)];
      }
      assert es == PushState(s).entries;
    }

    method Push()
      requires Valid()
      modifies Repr
      ensures Valid() && fresh(Repr - old(Repr)) && opts == old(opts)
      ensures model == PushState(old(model))
    {
      hide PushEntry, EntryOk, LevelsOk, Stands;
      ghost var s := model;
      lvl := lvl + 1;
      model := PushState(s);
      PushAll(s);
      PushKeepsWF(s);
    }

    method DropFrom(co: ConfigOption, ghost e: Entry) returns (dropped: nat)
      requires Stands(co, e, shared) && co.Owns() && InRepr(co) && lvl > 1 && LevelsOk(e.stack, lvl)
      modifies co`slots
      ensures Stands(co, e.(stack := Unwind(e.stack, lvl)), shared) && InRepr(co) && co.slots != []
      ensures var kept := Unwind(e.stack, lvl);
              && dropped == |e.stack| - |kept|
              && kept != []
              && kept[|kept| - 1].data == co.slots[|co.slots| - 1].data
    {
      UnwindKeepsLow(e.stack, lvl, 1);
      dropped := co.Drop(lvl, e.stack);
    }

    // The body of the loop of m_config_pop.
    method PopOption(k: nat, ghost e: Entry, ghost vs: map<Var, Value>)
      requires Distinct(opts) && k < |opts| && lvl > 1 && EntryOk(e, lvl, vs)
      requires e.def == opts[k].def && e.alias == opts[k].alias
      requires (forall j :: 0 <= j < |opts| ==> InRepr(opts[j])) && Stands(opts[k], e, shared)
      modifies this`vars, opts[k]
      ensures forall j :: 0 <= j < |opts| ==> InRepr(opts[j])
      ensures Stands(opts[k], PopEntry(e, lvl), shared)
      ensures forall j, x :: 0 <= j < |opts| && j != k && old(Stands(opts[j], x, shared)) ==> Stands(opts[j], x, shared)
      ensures vars == PopVar(e, lvl, old(vars))
    {
      hide Unwind, LevelsOk, Stands;
      var co := opts[k];
      if co.def.child || co.def.global || co.def.nosave || co.alias {
        return;
      }
      var dropped := DropFrom(co, e);
      if dropped > 0 {
        vars := vars[co.def.p := co.slots[|co.slots| - 1].data];
      }
    }

    lemma SameNames(es: seq<Entry>)
      requires Tied(es)
      ensures forall k :: 0 <= k < |opts| ==> es[k].def == opts[k].def && es[k].alias == opts[k].alias
    {
    }

    // The loop of m_config_pop.
    method PopAll(ghost s: State)
      requires this in Repr && Distinct(opts) && Tied(s.entries) && WF(s) && lvl == s.lvl > 1 && vars == s.vars
      modifies Repr
      ensures opts == old(opts) && lvl == old(lvl) && mode == old(mode) && model == old(model) && Repr == old(Repr)
      ensures Tied(PopState(s).entries) && vars == PopState(s).vars
    {
      hide Unwind, PopEntry, PopVar, EntryOk, LevelsOk, Stands;
      SameNames(s.entries);
      for k := 0 to |opts|
        invariant opts == old(opts) && lvl == old(lvl) && mode == old(mode) && model == old(model) && Repr == old(Repr)
        invariant vars == PopVars(s.entries, k, s.lvl, s.vars)
        invariant forall j :: 0 <= j < |opts| ==> InRepr(opts[j])
        invariant forall j :: 0 <= j < k ==> Stands(opts[j], PopEntry(s.entries[j], s.lvl), shared)
        invariant forall j :: k <= j < |opts| ==> Stands(opts[j], s.entries[j], shared)
      {
        assert EntryOk(s.entries[k], s.lvl, s.vars);
        PopOption(k, s.entries[k], s.vars);
      }
    }

    method Pop()
      requires Valid() && lvl > 1
      modifies Repr
      ensures Valid() && Repr == old(Repr) && opts == old(opts)
      ensures model == PopState(old(model))
    {
      hide Unwind, PopEntry, PopVars, EntryOk, LevelsOk, Stands;
      ghost var s := model;
      model := PopState(s);
      PopAll(s);
      lvl := lvl - 1;
      PopKeepsWF(s);
    }

    // m_config_get_co
    method GetOption(arg: string) returns (r: Option<nat>)
      requires Valid()
      ensures r == Find(model.entries, arg)
    {
      for k := 0 to |opts|
        invariant Find(model.entries, arg) == Find(model.entries, arg, k)
      {
        assert Stands(opts[k], model.entries[k], shared);
        if NameMatches(opts[k].def, arg) {
          return Some(k);
        }
      }
      return None;
    }

    // The levels of a stack tell its slots apart.
    lemma SlotsDiffer(o: ConfigOption, stack: seq<Slot>, i: nat)
      requires o.Holds(stack) && LevelsOk(stack, lvl) && i < |stack|
      ensures forall t :: 0 <= t < |stack| && t != i ==> o.slots[t] != o.slots[i]
    {
      assert forall t :: 0 <= t < |stack| ==> o.slots[t].lvl == stack[t].lvl;
    }

    // Parse into the top slot, then copy the slot into the variable.
    method WriteTop(i: nat, v: Value)
      requires Valid() && i < |opts| && !opts[i].def.child
      modifies Repr
      ensures Valid() && Repr == old(Repr) && opts == old(opts)
      ensures model == SetState(old(model), i, v)
    {
      ghost var s := model;
      ghost var ce := s.entries[i];
      assert InRepr(opts[i]) && Stands(opts[i], ce, shared);
      SetKeepsWF(s, i, v);
      WriteSlotOf(opts[i], s, i, v);
      model := SetState(s, i, v);
      assert Tied(model.entries);
    }

    method WriteSlotOf(co: ConfigOption, ghost s: State, ghost i: nat, v: Value)
      requires this in Repr && Distinct(opts) && Tied(s.entries) && WF(s) && lvl == s.lvl && vars == s.vars
      requires i < |opts| && co == opts[i] && !co.def.child
      modifies Repr
      ensures opts == old(opts) && lvl == old(lvl) && mode == old(mode) && model == old(model) && Repr == old(Repr)
      ensures vars == SetState(s, i, v).vars && Tied(SetState(s, i, v).entries)
    {
      assert InRepr(co) && Stands(co, s.entries[i], shared);
      var top := co.slots[|co.slots| - 1];
      forall k | 0 <= k < |opts| ensures InRepr(opts[k]) && Stands(opts[k], s.entries[k], shared)
                                         && Fits(opts[k], s.entries[k], co, top) {
        Fitting(k, s, co, i);
      }
      hide WF, EntryOk, LevelsOk, Distinct;
      top.data := v;
      vars := vars[co.def.p := top.data];
      co.isSet := true;
      forall k | 0 <= k < |opts| ensures InRepr(opts[k]) && Stands(opts[k], SetState(s, i, v).entries[k], shared) {
        assert old(InRepr(opts[k])) && old(Stands(opts[k], s.entries[k], shared));
        assert old(Fits(opts[k], s.entries[k], co, top));
      }
    }

    // Where the slot top of option co is found in the record o: nowhere but in the stack of the variable of co.
    ghost predicate Fits(o: ConfigOption, x: Entry, co: ConfigOption, top: SaveSlot)
      reads o
    {
      o.Owns() ==>
        if o.def.p == co.def.p then
          var at := if co.alias then 1 else |x.stack| - 1;
          |o.slots| == |x.stack| > at >= 0 && o.slots[at] == top
          && forall t :: 0 <= t < |o.slots| && t != at ==> o.slots[t] != top
        else forall t :: 0 <= t < |o.slots| ==> o.slots[t] != top
    }

    lemma Fitting(k: nat, s: State, co: ConfigOption, i: nat)
      requires Distinct(opts) && Tied(s.entries) && WF(s) && lvl == s.lvl && k < |opts|
      requires i < |opts| && co == opts[i] && !co.def.child && co.slots != []
      ensures Fits(opts[k], s.entries[k], co, co.slots[|co.slots| - 1])
    {
      var o, x := opts[k], s.entries[k];
      assert Stands(o, x, shared) && Stands(co, s.entries[i], shared) && EntryOk(x, s.lvl, s.vars);
      if o.Owns() && o.def.p == co.def.p {
        SlotsDiffer(o, x.stack, if co.alias then 1 else |x.stack| - 1);
      }
    }

    lemma Matches(i: nat)
      requires Valid() && i < |opts|
      ensures |model.entries| == |opts| && model.mode == mode
      ensures model.entries[i].def == opts[i].def && model.entries[i].isSet == opts[i].isSet
    {
      assert Stands(opts[i], model.entries[i], shared);
    }

    // Mark an option with children as set.
    method MarkSetAt(i: nat)
      requires Valid() && i < |opts|
      modifies Repr
      ensures Valid() && Repr == old(Repr) && opts == old(opts)
      ensures i < |old(model).entries| && model == MarkSet(old(model), i)
    {
      ghost var s := model;
      assert InRepr(opts[i]);
      opts[i].isSet := true;
      model := MarkSet(s, i);
      forall k | 0 <= k < |opts| ensures InRepr(opts[k]) && Stands(opts[k], model.entries[k], shared) {
        assert old(InRepr(opts[k])) && old(Stands(opts[k], s.entries[k], shared));
      }
      MarkKeepsWF(s, i);
    }

    lemma MarkKeepsWF(s: State, i: nat)
      requires WF(s) && i < |s.entries|
      ensures WF(MarkSet(s, i))
    {
      assert forall k :: 0 <= k < |s.entries| ==> EntryOk(s.entries[k], s.lvl, s.vars);
    }

    // The tests of the mode: whether option i is not allowed in it, and whether it may be written.
    method Check(i: nat, apply: bool) returns (forbidden: bool, write: bool)
      requires Valid() && i < |opts|
      ensures i < |model.entries|
      ensures forbidden == Forbidden(model.entries[i].def, model.mode)
      ensures write == (apply && !Gated(model.entries[i], model.mode))
    {
      Matches(i);
      var co := opts[i];
      forbidden := (mode.ConfigFile? && co.def.nocfg) || (mode.CommandLine? && co.def.nocmd);
      write := apply;
      if (mode.PreParse? && !co.def.preParse) || (!mode.PreParse? && co.def.preParse && co.isSet) {
        write := false;
      }
    }

    // m_config_set_option (apply) and m_config_check_option (!apply); parsed is what the type's parser makes
    // of the parameter.
    method ParseOption(arg: string, parsed: Option<Value>, apply: bool) returns (r: Status)
      requires Valid()
      modifies Repr
      ensures Valid() && Repr == old(Repr) && opts == old(opts)
      ensures r == ParseStatus(old(model), arg, parsed)
      ensures model == if apply then SetOption(old(model), arg, parsed) else old(model)
    {
      var found := GetOption(arg);
      if found.None? {
        return Unknown;
      }
      assert |model.entries| == |opts|;
      hide Valid, SetState, Find, Forbidden, Gated;
      var i := found.value;
      var co := opts[i];
      Matches(i);
      var forbidden, write := Check(i, apply);
      if forbidden {
        return Invalid;
      }
      if co.def.child {
        return ParentOption;
      }
      if parsed.None? {
        return ParseError;
      }
      if write {
        WriteTop(i, parsed.value);
      }
      return Ok;
    }

    // The new record of m_config_add_option: an alias when some option has the same address.
    method NewOption(d: OptDef, ghost s: State) returns (co: ConfigOption)
      requires this in Repr && Tied(s.entries) && WF(s) && s.lvl == lvl == 1 && s.vars == vars
      requires !d.child ==> d.p in vars
      requires forall k :: 0 <= k < |opts| && opts[k].def.p == d.p ==> opts[k].def.child == d.child
      modifies this`Repr, this`shared
      ensures fresh(co) && fresh(Repr - old(Repr)) && old(Repr) <= Repr
      ensures InRepr(co) && Stands(co, RegisterState(s, d).entries[0], shared)
      ensures Tied(s.entries)
    {
      if d.child {
        co := new ConfigOption(d, false, []);
        Repr := Repr + {co};
        return;
      }
      var i := 0;
      while i < |opts| && opts[i].def.p != d.p
        invariant 0 <= i <= |opts|
        invariant forall k :: 0 <= k < i ==> opts[k].def.p != d.p
      {
        i := i + 1;
      }
      if i < |opts| {
        assert InRepr(opts[i]) && Stands(opts[i], s.entries[i], shared) && EntryOk(s.entries[i], 1, vars);
        co := new ConfigOption(d, true, opts[i].slots);
        Repr := Repr + {co};
      } else {
        hide EntryOk, LevelsOk, Stands;
        assert forall k :: 0 <= k < |opts| ==> s.entries[k].def == opts[k].def;
        co := NewOwner(d, s.entries);
      }
    }

    // The first option of a variable: a slot for the defaults and one for the current level.
    method NewOwner(d: OptDef, ghost es: seq<Entry>) returns (co: ConfigOption)
      requires this in Repr && Tied(es) && d.p in vars && !d.child && lvl == 1
      requires forall k :: 0 <= k < |opts| ==> opts[k].def.p != d.p
      modifies this`Repr, this`shared
      ensures fresh(co) && fresh(Repr - old(Repr)) && old(Repr) <= Repr && InRepr(co)
      ensures Stands(co, ConfigSpec.Entry(d, false, false, [Slot(0, vars[d.p]), Slot(1, vars[d.p])]), shared)
      ensures Tied(es)
    {
      var sl := new SaveSlot(0, vars[d.p], d.p);
      var top := new SaveSlot(lvl, sl.data, d.p);
      co := new ConfigOption(d, false, [sl, top]);
      Repr := Repr + {co, sl, top};
      shared := shared[d.p := top];
      forall k | 0 <= k < |opts| ensures InRepr(opts[k]) && Stands(opts[k], es[k], shared) {
        assert old(InRepr(opts[k])) && old(Stands(opts[k], es[k], shared));
      }
    }

    // m_config_add_option for one option, before any push.
    method AddOption(d: OptDef)
      requires Valid() && lvl == 1 && (!d.child ==> d.p in vars)
      requires forall k :: 0 <= k < |opts| && opts[k].def.p == d.p ==> opts[k].def.child == d.child
      modifies Repr
      ensures Valid() && fresh(Repr - old(Repr))
      ensures model == RegisterState(old(model), d)
    {
      ghost var s := model;
      assert forall k :: 0 <= k < |opts| ==> s.entries[k].def == opts[k].def;
      model := RegisterState(s, d);
      var co := NewOption(d, s);
      RegisterKeepsWF(s, d);
      Prepend(co, s);
    }

    method Prepend(co: ConfigOption, ghost s: State)
      requires this in Repr && Distinct(opts) && Tied(s.entries) && DistinctOwners(model.entries)
      requires co !in opts && InRepr(co)
      requires |model.entries| == |opts| + 1 && model.entries[1..] == s.entries
      requires Stands(co, model.entries[0], shared)
      modifies this`opts
      ensures opts == [co] + old(opts) && Distinct(opts) && Tied(model.entries)
    {
      ghost var before := opts;
      opts := [co] + opts;
      forall k | 0 <= k < |opts| ensures InRepr(opts[k]) && Stands(opts[k], model.entries[k], shared) {
        if k > 0 {
          assert InRepr(before[k - 1]) && Stands(before[k - 1], s.entries[k - 1], shared);
          assert model.entries[1..][k - 1] == model.entries[k];
        }
      }
    }
  }
}
