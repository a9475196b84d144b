/**
 The configuration store of m_config.c as a transition system over values.

 Every leaf option that is the first to name a variable owns a stack of save
 slots.  A later option on the same variable is an alias: it owns no stack, and
 keeps for ever the pointer to the slot that was on top when it was registered.
 Registration happens at level 1, so that slot is number 1, counted from the
 bottom slot of level 0.
 */
module ConfigSpec {
  import opened Wrappers

  type Var = nat
  type Value = string

  datatype Mode = ConfigFile | CommandLine | PreParse

  datatype OptDef = OptDef(name: string, p: Var, child: bool, wildcard: bool, global: bool, nosave: bool,
                           saveIfSet: bool, nocfg: bool, nocmd: bool, preParse: bool)

  datatype Slot = Slot(lvl: nat, data: Value)

  // The stack of an alias, or of an option with children, is empty.
  datatype Entry = Entry(def: OptDef, alias: bool, isSet: bool, stack: seq<Slot>) {
    predicate Primary() {
      !def.child && !alias
    }

    // The options m_config_push gives a new slot.
    predicate Saves() {
      Primary() && !def.global && !def.nosave && (!def.saveIfSet || isSet)
    }

    // The options m_config_pop looks at.
    predicate Restores() {
      Primary() && !def.global && !def.nosave
    }
  }

  datatype State = State(lvl: nat, mode: Mode, entries: seq<Entry>, vars: map<Var, Value>)

  datatype Status = Ok | Unknown | Invalid | ParseError | ParentOption

  // ----- Well-formed stores

  // Bottom first: level 0, level 1, then strictly rising levels.
  ghost predicate LevelsOk(stack: seq<Slot>, lvl: nat) {
    && |stack| >= 2
    && stack[0].lvl == 0
    && stack[1].lvl == 1
    && stack[|stack| - 1].lvl <= lvl
    && forall i, j :: 0 <= i < j < |stack| ==> stack[i].lvl < stack[j].lvl
  }

  ghost predicate EntryOk(e: Entry, lvl: nat, vars: map<Var, Value>) {
    if e.Primary() then e.def.p in vars && LevelsOk(e.stack, lvl) && (!e.Restores() ==> |e.stack| == 2)
    else e.stack == [] && (e.alias ==> !e.def.child && e.def.p in vars)
  }

  ghost predicate DistinctOwners(es: seq<Entry>) {
    forall i, j :: 0 <= i < j < |es| && es[i].Primary() && es[j].Primary() ==> es[i].def.p != es[j].def.p
  }

  ghost predicate WF(s: State) {
    && s.lvl >= 1
    && (forall k :: 0 <= k < |s.entries| ==> EntryOk(s.entries[k], s.lvl, s.vars))
    && DistinctOwners(s.entries)
  }

  // ----- Looking an option up

  function LowerChar(c: char): char {
    if 'A' <= c <= 'Z' then (c as int + 32) as char else c
  }

  function Lower(t: string): string {
    seq(|t|, i requires 0 <= i < |t| => LowerChar(t[i]))
  }

  predicate NameMatches(d: OptDef, arg: string) {
    var l := |d.name| - 1;
    if d.wildcard && l >= 0 && d.name[l] == '*' then |arg| >= l && Lower(d.name[..l]) == Lower(arg[..l])
    else Lower(d.name) == Lower(arg)
  }

  // The first entry of the list from position k that matches.
  function Find(es: seq<Entry>, arg: string, k: nat := 0): (r: Option<nat>)
    ensures r.Some? ==> k <= r.value < |es| && NameMatches(es[r.value].def, arg)
    ensures forall j :: k <= j < (if r.Some? then r.value else |es|) ==> !NameMatches(es[j].def, arg)
    decreases |es| - k
  {
    if k >= |es| then None
    else if NameMatches(es[k].def, arg) then Some(k)
    else Find(es, arg, k + 1)
  }

  // ----- The operations

  function WriteSlot(stack: seq<Slot>, k: int, v: Value): seq<Slot> {
    if 0 <= k < |stack| then stack[k := stack[k].(data := v)] else stack
  }

  // What setting e to v does to entry x of the list, self telling whether x is e.
  function SetEntry(x: Entry, self: bool, e: Entry, v: Value): Entry {
    var x' := if x.Primary() && x.def.p == e.def.p
              then x.(stack := WriteSlot(x.stack, if e.alias then 1 else |x.stack| - 1, v)) else x;
    if self then x'.(isSet := true) else x'
  }

  function SetState(s: State, i: nat, v: Value): State
    requires i < |s.entries|
  {
    s.(vars := s.vars[s.entries[i].def.p := v],
       entries := seq(|s.entries|, k requires 0 <= k < |s.entries| =>
                                     SetEntry(s.entries[k], k == i, s.entries[i], v)))
  }

  // The set flag alone.
  function MarkSet(s: State, i: nat): State
    requires i < |s.entries|
  {
    s.(entries := s.entries[i := s.entries[i].(isSet := true)])
  }

  predicate Forbidden(d: OptDef, mode: Mode) {
    (mode.ConfigFile? && d.nocfg) || (mode.CommandLine? && d.nocmd)
  }

  // The gate that turns a set into a mere check.
  predicate Gated(e: Entry, mode: Mode) {
    (mode.PreParse? && !e.def.preParse) || (!mode.PreParse? && e.def.preParse && e.isSet)
  }

  // The entry that a set of arg really writes to, if any.
  function Target(s: State, arg: string): (r: Option<nat>)
    ensures r.Some? ==> r.value < |s.entries|
  {
    match Find(s.entries, arg)
    case None => None
    case Some(i) =>
      var e := s.entries[i];
      if Forbidden(e.def, s.mode) || Gated(e, s.mode) || e.def.child then None else Some(i)
  }

  function ParseStatus(s: State, arg: string, parsed: Option<Value>): Status {
    match Find(s.entries, arg)
    case None => Unknown
    case Some(i) =>
      if Forbidden(s.entries[i].def, s.mode) then Invalid
      else if s.entries[i].def.child then ParentOption
      else if parsed.None? then ParseError else Ok
  }

  // parsed is the outcome of the option type's own parser.
  function SetOption(s: State, arg: string, parsed: Option<Value>): State {
    if Target(s, arg).Some? && parsed.Some? then SetState(s, Target(s, arg).value, parsed.value) else s
  }

  function PushEntry(e: Entry, lvl: nat, vars: map<Var, Value>): Entry {
    if e.Saves() && e.def.p in vars then
      e.(isSet := false,
         stack := WriteSlot(e.stack, |e.stack| - 1, vars[e.def.p]) + [Slot(lvl, vars[e.def.p])])
    else e
  }

  function PushState(s: State): State {
    s.(lvl := s.lvl + 1,
       entries := seq(|s.entries|, k requires 0 <= k < |s.entries| => PushEntry(s.entries[k], s.lvl + 1, s.vars)))
  }

  function Unwind(stack: seq<Slot>, lvl: nat): (r: seq<Slot>)
    ensures |r| <= |stack| && r == stack[..|r|]
    ensures r != [] ==> r[|r| - 1].lvl < lvl
    ensures |r| < |stack| ==> stack[|r|].lvl >= lvl
  {
    if stack != [] && stack[|stack| - 1].lvl >= lvl then Unwind(stack[..|stack| - 1], lvl) else stack
  }

  function PopEntry(e: Entry, lvl: nat): Entry {
    if e.Restores() then e.(stack := Unwind(e.stack, lvl)) else e
  }

  // The slot on top of what is kept goes back into the variable, when something was dropped.
  function PopVar(e: Entry, lvl: nat, vars: map<Var, Value>): map<Var, Value> {
    var kept := Unwind(e.stack, lvl);
    if e.Restores() && |kept| < |e.stack| && kept != [] then vars[e.def.p := kept[|kept| - 1].data] else vars
  }

  // The variables once the first n entries have been popped, in list order.
  function PopVars(es: seq<Entry>, n: nat, lvl: nat, vars: map<Var, Value>): map<Var, Value>
    requires n <= |es|
  {
    if n == 0 then vars else PopVar(es[n - 1], lvl, PopVars(es, n - 1, lvl, vars))
  }

  function PopState(s: State): State {
    State(if s.lvl > 0 then s.lvl - 1 else 0, s.mode,
          seq(|s.entries|, k requires 0 <= k < |s.entries| => PopEntry(s.entries[k], s.lvl)),
          PopVars(s.entries, |s.entries|, s.lvl, s.vars))
  }

  function RegisterState(s: State, d: OptDef): State {
    var shared := exists k :: 0 <= k < |s.entries| && s.entries[k].def.p == d.p;
    var stack := if d.child || shared || d.p !in s.vars then []
                 else [Slot(0, s.vars[d.p]), Slot(s.lvl, s.vars[d.p])];
    s.(entries := [Entry(d, !d.child && shared, false, stack)] + s.entries)
  }
}
