/**
 Profiles of m_config.c: named lists of settings, among which the "profile"
 option includes other profiles, to a depth of MAX_PROFILE_DEPTH.
 */
module Profiles {
  import opened Wrappers
  import opened ConfigSpec
  import opened ConfigRestore
  import opened Config

  const MAX_PROFILE_DEPTH := 20

  // parsed is the outcome of the option type's own parser.
  datatype Setting = Plain(name: string, parsed: Option<Value>) | Include(names: seq<string>)

  type Profiles = map<string, seq<Setting>>

  predicate AllKnown(ps: Profiles, names: seq<string>) {
    forall i :: 0 <= i < |names| ==> names[i] in ps
  }

  // ----- What the code does: the sets it performs, in order, from depth d

  function ExpandProfile(ps: Profiles, d: nat, name: string): seq<Event>
    requires d <= MAX_PROFILE_DEPTH + 1
    decreases MAX_PROFILE_DEPTH + 1 - d, 0, 0
  {
    if d > MAX_PROFILE_DEPTH || name !in ps then [] else ExpandSettings(ps, d + 1, ps[name])
  }

  function ExpandSettings(ps: Profiles, d: nat, settings: seq<Setting>): seq<Event>
    requires d <= MAX_PROFILE_DEPTH + 1
    decreases MAX_PROFILE_DEPTH + 1 - d, 2, |settings|
  {
    if settings == [] then [] else ExpandSetting(ps, d, settings[0]) + ExpandSettings(ps, d, settings[1..])
  }

  function ExpandSetting(ps: Profiles, d: nat, s: Setting): seq<Event>
    requires d <= MAX_PROFILE_DEPTH + 1
    decreases MAX_PROFILE_DEPTH + 1 - d, 2, 0
  {
    match s
    case Plain(name, parsed) => [Set(name, parsed)]
    case Include(names) => if AllKnown(ps, names) then ExpandNames(ps, d, names) else []
  }

  function ExpandNames(ps: Profiles, d: nat, names: seq<string>): seq<Event>
    requires d <= MAX_PROFILE_DEPTH + 1
    decreases MAX_PROFILE_DEPTH + 1 - d, 1, |names|
  {
    if names == [] then [] else ExpandProfile(ps, d, names[0]) + ExpandNames(ps, d, names[1..])
  }

  // ----- What a profile means when nothing it reaches includes itself: everything inlined, no depth limit

  // ranks gives a rank to the profiles that a named one reaches, and it falls along every include that takes effect.
  // Profiles out of reach may include each other as they like.
  ghost predicate Ranked(ps: Profiles, ranks: map<string, nat>) {
    forall name, i :: name in ranks && name in ps && 0 <= i < |ps[name]| ==> Below(ps, ranks, ranks[name], ps[name][i])
  }

  ghost predicate Below(ps: Profiles, ranks: map<string, nat>, bound: nat, s: Setting) {
    s.Include? && AllKnown(ps, s.names) ==> NamesBelow(ranks, bound, s.names)
  }

  ghost predicate NamesBelow(ranks: map<string, nat>, bound: nat, names: seq<string>) {
    forall j :: 0 <= j < |names| ==> names[j] in ranks && ranks[names[j]] < bound
  }

  ghost function Flatten(ps: Profiles, ranks: map<string, nat>, name: string): seq<Event>
    requires Ranked(ps, ranks) && name in ranks
    decreases ranks[name], 2, 0
  {
    if name !in ps then [] else FlattenSettings(ps, ranks, ranks[name], ps[name])
  }

  ghost function FlattenSettings(ps: Profiles, ranks: map<string, nat>, bound: nat, settings: seq<Setting>): seq<Event>
    requires Ranked(ps, ranks)
    requires forall i :: 0 <= i < |settings| ==> Below(ps, ranks, bound, settings[i])
    decreases bound, 1, |settings|
  {
    if settings == [] then []
    else
      var s := settings[0];
      assert Below(ps, ranks, bound, s);
      (match s
       case Plain(name, parsed) => [Set(name, parsed)]
       case Include(names) => if AllKnown(ps, names) then FlattenNames(ps, ranks, bound, names) else [])
      + FlattenSettings(ps, ranks, bound, settings[1..])
  }

  ghost function FlattenNames(ps: Profiles, ranks: map<string, nat>, bound: nat, names: seq<string>): seq<Event>
    requires Ranked(ps, ranks) && NamesBelow(ranks, bound, names)
    decreases bound, 0, |names|
  {
    if names == [] then [] else Flatten(ps, ranks, names[0]) + FlattenNames(ps, ranks, bound, names[1..])
  }

  // An acyclic profile that fits the depth limit has exactly the effect of its inlined settings.
  lemma {:induction false} ExpandIsFlatten(ps: Profiles, ranks: map<string, nat>, d: nat, name: string)
    requires Ranked(ps, ranks) && name in ranks && ranks[name] + d <= MAX_PROFILE_DEPTH
    ensures ExpandProfile(ps, d, name) == Flatten(ps, ranks, name)
    decreases ranks[name], 2, 0
  {
    if name in ps {
      ExpandIsFlattenSettings(ps, ranks, d + 1, ranks[name], ps[name]);
    }
  }

  lemma {:induction false} ExpandIsFlattenSettings(ps: Profiles, ranks: map<string, nat>, d: nat, bound: nat,
                                                   settings: seq<Setting>)
    requires Ranked(ps, ranks) && bound + d <= MAX_PROFILE_DEPTH + 1
    requires forall i :: 0 <= i < |settings| ==> Below(ps, ranks, bound, settings[i])
    ensures ExpandSettings(ps, d, settings) == FlattenSettings(ps, ranks, bound, settings)
    decreases bound, 1, |settings|
  {
    if settings != [] {
      var s := settings[0];
      if s.Include? && AllKnown(ps, s.names) {
        ExpandIsFlattenNames(ps, ranks, d, bound, s.names);
      }
      ExpandIsFlattenSettings(ps, ranks, d, bound, settings[1..]);
    }
  }

  lemma {:induction false} ExpandIsFlattenNames(ps: Profiles, ranks: map<string, nat>, d: nat, bound: nat,
                                                names: seq<string>)
    requires Ranked(ps, ranks) && bound + d <= MAX_PROFILE_DEPTH + 1 && NamesBelow(ranks, bound, names)
    ensures ExpandNames(ps, d, names) == FlattenNames(ps, ranks, bound, names)
    decreases bound, 0, |names|
  {
    if names != [] {
      ExpandIsFlatten(ps, ranks, d, names[0]);
      ExpandIsFlattenNames(ps, ranks, d, bound, names[1..]);
    }
  }

  // ----- Order

  lemma {:induction false} SettingsInOrder(ps: Profiles, d: nat, a: seq<Setting>, b: seq<Setting>)
    requires d <= MAX_PROFILE_DEPTH + 1
    ensures ExpandSettings(ps, d, a + b) == ExpandSettings(ps, d, a) + ExpandSettings(ps, d, b)
    decreases |a|
  {
    if a == [] {
      assert a + b == b;
    } else {
      assert (a + b)[0] == a[0] && (a + b)[1..] == a[1..] + b;
      SettingsInOrder(ps, d, a[1..], b);
    }
  }

  lemma {:induction false} NamesInOrder(ps: Profiles, d: nat, a: seq<string>, b: seq<string>)
    requires d <= MAX_PROFILE_DEPTH + 1
    ensures ExpandNames(ps, d, a + b) == ExpandNames(ps, d, a) + ExpandNames(ps, d, b)
    decreases |a|
  {
    if a == [] {
      assert a + b == b;
    } else {
      assert (a + b)[0] == a[0] && (a + b)[1..] == a[1..] + b;
      NamesInOrder(ps, d, a[1..], b);
    }
  }

  // A profile without includes sets its options to its values, in order.
  lemma {:induction false} PlainInOrder(ps: Profiles, d: nat, settings: seq<Setting>)
    requires d <= MAX_PROFILE_DEPTH + 1 && forall i :: 0 <= i < |settings| ==> settings[i].Plain?
    ensures |ExpandSettings(ps, d, settings)| == |settings|
    ensures forall i :: 0 <= i < |settings| ==>
              ExpandSettings(ps, d, settings)[i] == Set(settings[i].name, settings[i].parsed)
    decreases |settings|
  {
    if settings != [] {
      PlainInOrder(ps, d, settings[1..]);
    }
  }

  // A list with a name that is not known applies nothing.
  lemma UnknownAppliesNothing(ps: Profiles, d: nat, names: seq<string>, unknown: string)
    requires d <= MAX_PROFILE_DEPTH + 1 && unknown in names && unknown !in ps
    ensures ExpandSettings(ps, d, [Include(names)]) == []
  {
    assert [Include(names)][1..] == [];
    var i :| 0 <= i < |names| && names[i] == unknown;
    assert !AllKnown(ps, names);
  }

  // A known profile has its settings applied one level deeper, down to level 21.
  lemma IncludeMeans(ps: Profiles, d: nat, name: string)
    requires d <= 21 && name in ps
    ensures ExpandSettings(ps, d, [Include([name])]) == if d <= 20 then ExpandSettings(ps, d + 1, ps[name]) else []
  {
    var s := Include([name]);
    assert [s][1..] == [] && [name][1..] == [];
    assert AllKnown(ps, [name]);
    assert ExpandSettings(ps, d, [s]) == ExpandSetting(ps, d, s) + ExpandSettings(ps, d, [s][1..]);
    assert ExpandNames(ps, d, [name]) == ExpandProfile(ps, d, name) + ExpandNames(ps, d, [name][1..]);
  }

  // A profile that includes itself is applied once for each depth that is left.
  function Repeat(e: Event, n: nat): seq<Event> {
    if n == 0 then [] else [e] + Repeat(e, n - 1)
  }

  lemma {:induction false} SelfIncludeRepeats(ps: Profiles, d: nat, name: string, x: string, v: Option<Value>)
    requires d <= MAX_PROFILE_DEPTH + 1
    requires name in ps && ps[name] == [Plain(x, v), Include([name])]
    ensures ExpandProfile(ps, d, name) == Repeat(Set(x, v), MAX_PROFILE_DEPTH + 1 - d)
    decreases MAX_PROFILE_DEPTH + 1 - d
  {
    if d <= MAX_PROFILE_DEPTH {
      var ss := ps[name];
      SelfIncludeRepeats(ps, d + 1, name, x, v);
      assert ss[1..] == [Include([name])] && ss[1..][1..] == [];
      assert ExpandSettings(ps, d + 1, ss[1..][1..]) == [];
      assert ExpandNames(ps, d + 1, [name][1..]) == [] by {
        assert [name][1..] == [];
      }
      assert AllKnown(ps, [name]);
      assert ExpandNames(ps, d + 1, [name]) == ExpandProfile(ps, d + 1, name) + [];
      assert ss[1..][0] == Include([name]);
      assert ExpandSettings(ps, d + 1, ss[1..])
          == ExpandNames(ps, d + 1, [name]) + ExpandSettings(ps, d + 1, ss[1..][1..])
          == ExpandProfile(ps, d + 1, name);
      assert ExpandSetting(ps, d + 1, ss[0]) == [Set(x, v)];
    }
  }

  // ----- Profiles between a push and its pop

  lemma {:induction false} ProfileSets(ps: Profiles, d: nat, name: string)
    requires d <= MAX_PROFILE_DEPTH + 1
    ensures OnlySets(ExpandProfile(ps, d, name))
    decreases MAX_PROFILE_DEPTH + 1 - d, 0, 0
  {
    if d <= MAX_PROFILE_DEPTH && name in ps {
      SettingsSet(ps, d + 1, ps[name]);
    }
  }

  lemma {:induction false} SettingsSet(ps: Profiles, d: nat, settings: seq<Setting>)
    requires d <= MAX_PROFILE_DEPTH + 1
    ensures OnlySets(ExpandSettings(ps, d, settings))
    decreases MAX_PROFILE_DEPTH + 1 - d, 2, |settings|
  {
    if settings != [] {
      if settings[0].Include? {
        NamesSet(ps, d, settings[0].names);
      }
      SettingsSet(ps, d, settings[1..]);
    }
  }

  lemma {:induction false} NamesSet(ps: Profiles, d: nat, names: seq<string>)
    requires d <= MAX_PROFILE_DEPTH + 1
    ensures OnlySets(ExpandNames(ps, d, names))
    decreases MAX_PROFILE_DEPTH + 1 - d, 1, |names|
  {
    if names != [] {
      ProfileSets(ps, d, names[0]);
      NamesSet(ps, d, names[1..]);
    }
  }

  // A pop undoes a whole profile: every variable that the push saved on a stack of more than two slots is back,
  // whatever profiles the profile includes and whatever aliases they set.
  lemma PopUndoesProfile(s: State, ps: Profiles, name: string, k: nat)
    requires WF(s) && k < |s.entries| && s.entries[k].Saves() && |s.entries[k].stack| > 2
    ensures Restored(s, k, ExpandProfile(ps, 0, name))
  {
    ProfileSets(ps, 0, name);
    SetsBalanced(PushState(s), ExpandProfile(ps, 0, name));
    NoAliasProtects(s, k, ExpandProfile(ps, 0, name));
  }

  // ----- The code

  class Loader {
    const config: Config
    const profiles: Profiles
    var depth: nat
    var slot: seq<string>  // the save slot of the profile option

    constructor (config: Config, profiles: Profiles)
      ensures this.config == config && this.profiles == profiles && depth == 0
    {
      this.config, this.profiles, depth, slot := config, profiles, 0, [];
    }

    ghost predicate Valid()
      reads this, config, config.Repr
    {
      config.Valid() && this !in config.Repr && depth <= MAX_PROFILE_DEPTH + 1
    }

    // m_config_set_profile
    method SetProfile(name: string)
      requires Valid() && name in profiles
      modifies this, config.Repr
      ensures Valid() && depth == old(depth) && config.Repr == old(config.Repr)
      ensures config.model == Run(old(config.model), ExpandProfile(profiles, depth, name))
      decreases MAX_PROFILE_DEPTH + 1 - depth, 0
    {
      if depth > MAX_PROFILE_DEPTH {
        return;
      }
      hide Config.Valid, Run, ExpandSettings, ExpandSetting;
      depth := depth + 1;
      var opts := profiles[name];
      ghost var m := config.model;
      for i := 0 to |opts|
        invariant Valid() && depth == old(depth) + 1 && config.Repr == old(config.Repr)
        invariant Run(config.model, ExpandSettings(profiles, depth, opts[i..]))
               == Run(m, ExpandSettings(profiles, depth, opts))
      {
        FirstSetting(config.model, opts[i..]);
        SetOne(opts[i]);
        assert opts[i..][1..] == opts[i + 1..];
      }
      NoSetting(config.model, opts[|opts|..]);
      depth := depth - 1;
    }

    lemma FirstSetting(m: State, opts: seq<Setting>)
      requires opts != [] && depth <= MAX_PROFILE_DEPTH + 1
      ensures Run(m, ExpandSettings(profiles, depth, opts))
           == Run(Run(m, ExpandSetting(profiles, depth, opts[0])), ExpandSettings(profiles, depth, opts[1..]))
    {
      RunConcat(m, ExpandSetting(profiles, depth, opts[0]), ExpandSettings(profiles, depth, opts[1..]));
    }

    lemma NoSetting(m: State, opts: seq<Setting>)
      requires opts == [] && depth <= MAX_PROFILE_DEPTH + 1
      ensures Run(m, ExpandSettings(profiles, depth, opts)) == m
    {
    }

    // m_config_set_option for one setting of a profile; its return value is ignored.
    method SetOne(s: Setting)
      requires Valid()
      modifies this, config.Repr
      ensures Valid() && depth == old(depth) && config.Repr == old(config.Repr)
      ensures config.model == Run(old(config.model), ExpandSetting(profiles, depth, s))
      decreases MAX_PROFILE_DEPTH + 1 - depth, 2
    {
      hide Config.Valid, Run;
      match s {
        case Plain(x, parsed) =>
          var status := config.ParseOption(x, parsed, true);
          OneEvent(old(config.model), s);
        case Include(names) => SetProfileOption(names);
      }
    }

    lemma OneEvent(m: State, s: Setting)
      requires s.Plain? && depth <= MAX_PROFILE_DEPTH + 1
      ensures Run(m, ExpandSetting(profiles, depth, s)) == SetOption(m, s.name, s.parsed)
    {
      var es := ExpandSetting(profiles, depth, s);
      assert es[1..] == [];
      assert Run(m, es) == Run(Step(m, es[0]), es[1..]);
    }

    // Setting the profile option: parse_profile, then set_profile on a copy of the slot.
    method SetProfileOption(names: seq<string>)
      requires Valid()
      modifies this, config.Repr
      ensures Valid() && depth == old(depth) && config.Repr == old(config.Repr)
      ensures config.model == Run(old(config.model), ExpandSetting(profiles, depth, Include(names)))
      decreases MAX_PROFILE_DEPTH + 1 - depth, 1
    {
      if names == [] {
        return;
      }
      var known := true;
      for i := 0 to |names|
        invariant known == AllKnown(profiles, names[..i])
      {
        if names[i] !in profiles {
          known := false;
        }
        assert names[..i + 1][i] == names[i] && names[..i + 1][..i] == names[..i];
      }
      assert names[..|names|] == names;
      slot := names;
      if !known {
        return;
      }
      hide Config.Valid, Run, ExpandProfile, ExpandNames;
      var list := slot;
      ghost var m := config.model;
      for i := 0 to |list|
        invariant Valid() && depth == old(depth) && config.Repr == old(config.Repr)
        invariant Run(config.model, ExpandNames(profiles, depth, list[i..]))
               == Run(m, ExpandNames(profiles, depth, list))
      {
        FirstName(config.model, list[i..]);
        SetProfile(list[i]);
        assert list[i..][1..] == list[i + 1..];
      }
      NoName(config.model, list[|list|..]);
    }

    lemma FirstName(m: State, names: seq<string>)
      requires names != [] && depth <= MAX_PROFILE_DEPTH + 1
      ensures Run(m, ExpandNames(profiles, depth, names))
           == Run(Run(m, ExpandProfile(profiles, depth, names[0])), ExpandNames(profiles, depth, names[1..]))
    {
      RunConcat(m, ExpandProfile(profiles, depth, names[0]), ExpandNames(profiles, depth, names[1..]));
    }

    lemma NoName(m: State, names: seq<string>)
      requires names == [] && depth <= MAX_PROFILE_DEPTH + 1
      ensures Run(m, ExpandNames(profiles, depth, names)) == m
    {
    }
  }
}
