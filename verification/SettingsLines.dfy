/**
 The lines of `settings.env` after a save: a Python dictionary, in insertion
 order, that three loops change, against its closed form.
 */
module SettingsLines {
  import opened Results
  import opened SettingsFile

  /** A Deployment Setting: the variable that holds it, and whether the page changes it. */
  datatype Setting = Setting(variable: Option<string>, changes: bool)

  /** The settings and the variables that this version knows, and the key variables of each vendor. */
  datatype Catalog = Catalog(
    settings: map<string, Setting>,
    known: set<string>,
    secrets: set<string>,
    vendors: map<string, set<string>>)
  {
    /** Each setting has its own variable, and a variable of a setting is known. */
    ghost predicate Valid() {
      && (forall k, l | k in settings && l in settings && settings[k].variable.Some? && k != l ::
            settings[k].variable != settings[l].variable)
      && (forall k | k in settings && settings[k].variable.Some? :: settings[k].variable.value in known)
      && secrets <= known
    }
  }

  datatype Change = Change(key: string, value: Option<string>)

  datatype Save = Save(revision: string, changes: seq<Change>, remove: seq<string>)
  {
    /** The changes come from a JSON object, so no key comes twice. */
    ghost predicate Valid() {
      forall i, j | 0 <= i < j < |changes| :: changes[i].key != changes[j].key
    }

    function Removed(): set<string> { set v | v in remove }
  }

  /** What one change does to its variable: a reset, or the new value of its line. */
  datatype Effect = Effect(variable: string, value: Option<string>)

  datatype LineError = NoSetting(key: string) | NoVariable(key: string) | NoKeyFile(variable: string)

  // ---- The dictionary ----

  ghost predicate Unique(s: seq<string>) {
    forall i, j | 0 <= i < j < |s| :: s[i] != s[j]
  }

  function Elements(s: seq<string>): set<string> {
    set v | v in s
  }

  /** `s` without the elements of `drop`, in order. */
  function Minus(s: seq<string>, drop: set<string>): seq<string> {
    if s == [] then []
    else (if s[0] in drop then [] else [s[0]]) + Minus(s[1..], drop)
  }

  /** A Python dictionary: its keys in insertion order, and their values. */
  datatype Dict = Dict(keys: seq<string>, values: map<string, string>) {
    ghost predicate Valid() {
      Unique(keys) && Elements(keys) == values.Keys
    }

    /** `d[key] = value`: a key keeps its place, and a new one goes last. */
    function Put(key: string, value: string): Dict {
      Dict(if key in values then keys else keys + [key], values[key := value])
    }

    /** `d.pop(key, None)` */
    function Pop(key: string): Dict {
      Dict(Minus(keys, {key}), values - {key})
    }

    function Lines(): (lines: seq<SettingsLine>)
      requires Valid()
      ensures |lines| == |keys|
      ensures forall i | 0 <= i < |lines| :: lines[i] == SettingsLine(i + 1, keys[i], values[keys[i]])
    {
      seq(|keys|, i requires 0 <= i < |keys| => SettingsLine(i + 1, keys[i], values[keys[i]]))
    }
  }

  lemma {:induction false} MinusElements(s: seq<string>, drop: set<string>)
    ensures Elements(Minus(s, drop)) == Elements(s) - drop
    ensures Unique(s) ==> Unique(Minus(s, drop))
  {
    if s != [] {
      var rest := Minus(s[1..], drop);
      MinusElements(s[1..], drop);
      assert Elements(s) == {s[0]} + Elements(s[1..]);
      if s[0] !in drop {
        assert Elements([s[0]] + rest) == {s[0]} + Elements(rest);
        if Unique(s) {
          assert Unique(s[1..]) && s[0] !in s[1..];
          assert s[0] !in Elements(rest);
          assert forall i | 0 <= i < |rest| :: rest[i] in Elements(rest);
        }
      } else {
        assert Elements(rest) == Elements(s) - drop;
        assert Unique(s) ==> Unique(s[1..]);
      }
    }
  }

  lemma {:induction false} MinusConcat(s: seq<string>, t: seq<string>, drop: set<string>)
    ensures Minus(s + t, drop) == Minus(s, drop) + Minus(t, drop)
  {
    if s == [] {
      assert s + t == t;
    } else {
      assert (s + t)[1..] == s[1..] + t;
      MinusConcat(s[1..], t, drop);
    }
  }

  lemma {:induction false} MinusTwice(s: seq<string>, a: set<string>, b: set<string>)
    ensures Minus(Minus(s, a), b) == Minus(s, a + b)
  {
    if s != [] {
      MinusTwice(s[1..], a, b);
      MinusConcat(if s[0] in a then [] else [s[0]], Minus(s[1..], a), b);
    }
  }

  lemma {:induction false} MinusNothing(s: seq<string>, drop: set<string>)
    requires Elements(s) !! drop
    ensures Minus(s, drop) == s
  {
    if s != [] {
      assert s[0] in Elements(s) && Elements(s[1..]) <= Elements(s);
      MinusNothing(s[1..], drop);
    }
  }

  // ---- The closed form ----

  /** What one change does. The value of a key setting is the path of its new key file. */
  function EffectOf(cat: Catalog, written: map<string, string>, change: Change): Result<Effect, LineError> {
    if change.key !in cat.settings then Err(NoSetting(change.key))
    else match cat.settings[change.key].variable
      case None => Err(NoVariable(change.key))
      case Some(v) =>
        if change.value.None? then Ok(Effect(v, None))
        else if v !in cat.secrets then Ok(Effect(v, change.value))
        else if v !in written then Err(NoKeyFile(v))
        else Ok(Effect(v, Some(written[v])))
  }

  /** The effects of the changes, in order, or the first error. */
  ghost function Effects(cat: Catalog, written: map<string, string>, changes: seq<Change>): Result<seq<Effect>, LineError> {
    if changes == [] then Ok([])
    else
      match Effects(cat, written, changes[..|changes| - 1])
      case Err(e) => Err(e)
      case Ok(before) =>
        match EffectOf(cat, written, changes[|changes| - 1])
        case Err(e) => Err(e)
        case Ok(last) => Ok(before + [last])
  }

  lemma {:induction false} EffectsAre(cat: Catalog, written: map<string, string>, changes: seq<Change>)
    ensures Effects(cat, written, changes).Ok? ==>
              var effects := Effects(cat, written, changes).value;
              |effects| == |changes|
              && forall i | 0 <= i < |changes| :: EffectOf(cat, written, changes[i]) == Ok(effects[i])
    ensures (forall i | 0 <= i < |changes| :: EffectOf(cat, written, changes[i]).Ok?) ==>
              Effects(cat, written, changes).Ok?
  {
    if changes != [] {
      var before := changes[..|changes| - 1];
      assert forall i | 0 <= i < |before| :: before[i] == changes[i];
      EffectsAre(cat, written, before);
    }
  }

  lemma {:induction false} FirstError(cat: Catalog, written: map<string, string>, changes: seq<Change>, n: nat)
    requires n <= |changes| && Effects(cat, written, changes[..n]).Err?
    ensures Effects(cat, written, changes) == Effects(cat, written, changes[..n])
    decreases |changes| - n
  {
    if n == |changes| {
      assert changes[..n] == changes;
    } else {
      assert changes[..n + 1][..n] == changes[..n];
      FirstError(cat, written, changes, n + 1);
    }
  }

  /** The variables that the effects set, in order. */
  function SetKeys(effects: seq<Effect>): seq<string> {
    if effects == [] then []
    else
      var last := effects[|effects| - 1];
      SetKeys(effects[..|effects| - 1]) + (if last.value.Some? then [last.variable] else [])
  }

  function Resets(effects: seq<Effect>): set<string> {
    set i | 0 <= i < |effects| && effects[i].value.None? :: effects[i].variable
  }

  ghost predicate DistinctEffects(effects: seq<Effect>) {
    forall i, j | 0 <= i < j < |effects| :: effects[i].variable != effects[j].variable
  }

  ghost function Sets(effects: seq<Effect>): map<string, string> {
    if effects == [] then map[]
    else
      var last := effects[|effects| - 1];
      var m := Sets(effects[..|effects| - 1]);
      if last.value.Some? then m[last.variable := last.value.value] else m
  }

  lemma {:induction false} SetKeysAre(effects: seq<Effect>)
    requires DistinctEffects(effects)
    ensures Sets(effects).Keys == Elements(SetKeys(effects)) && Unique(SetKeys(effects))
    ensures forall v | v in Sets(effects) :: exists i :: 0 <= i < |effects| && effects[i].variable == v && effects[i].value.Some?
  {
    if effects != [] {
      var before, last := effects[..|effects| - 1], effects[|effects| - 1];
      assert forall i | 0 <= i < |before| :: before[i] == effects[i];
      SetKeysAre(before);
      var keys := SetKeys(before);
      assert last.variable !in Sets(before);
      assert Elements(keys + [last.variable]) == Elements(keys) + {last.variable};
      forall v | v in Sets(effects)
        ensures exists i :: 0 <= i < |effects| && effects[i].variable == v && effects[i].value.Some?
      {
        if v in Sets(before) {
          var i :| 0 <= i < |before| && before[i].variable == v && before[i].value.Some?;
          assert effects[i].variable == v;
        } else {
          assert effects[|before|].variable == v;
        }
      }
    }
  }

  lemma {:induction false} SetValuesAre(effects: seq<Effect>)
    requires DistinctEffects(effects)
    ensures forall i | 0 <= i < |effects| && effects[i].value.Some? ::
              effects[i].variable in Sets(effects) && Sets(effects)[effects[i].variable] == effects[i].value.value
  {
    if effects != [] {
      var before := effects[..|effects| - 1];
      assert forall i | 0 <= i < |before| :: before[i] == effects[i];
      SetValuesAre(before);
    }
  }

  /** The variables that the effects set, and the value of each. */
  lemma {:induction false} SetsAre(effects: seq<Effect>)
    requires DistinctEffects(effects)
    ensures Sets(effects).Keys == Elements(SetKeys(effects)) && Unique(SetKeys(effects))
    ensures forall v :: v in Sets(effects) <==> exists i :: 0 <= i < |effects| && effects[i].variable == v && effects[i].value.Some?
    ensures forall i | 0 <= i < |effects| && effects[i].value.Some? ::
              effects[i].variable in Sets(effects) && Sets(effects)[effects[i].variable] == effects[i].value.value
  {
    SetKeysAre(effects);
    SetValuesAre(effects);
  }

  ghost function LineVariables(lines: seq<SettingsLine>): (vars: seq<string>)
    ensures |vars| == |lines| && forall i | 0 <= i < |lines| :: vars[i] == lines[i].variable
  {
    seq(|lines|, i requires 0 <= i < |lines| => lines[i].variable)
  }

  function LineValues(lines: seq<SettingsLine>): map<string, string> {
    if lines == [] then map[]
    else
      var last := lines[|lines| - 1];
      LineValues(lines[..|lines| - 1])[last.variable := last.value]
  }

  lemma {:induction false} LineKeysAre(lines: seq<SettingsLine>)
    requires Distinct(lines)
    ensures LineValues(lines).Keys == Elements(LineVariables(lines)) && Unique(LineVariables(lines))
  {
    if lines != [] {
      var before, last := lines[..|lines| - 1], lines[|lines| - 1];
      LineKeysAre(before);
      assert LineVariables(lines) == LineVariables(before) + [last.variable];
      assert Elements(LineVariables(lines)) == Elements(LineVariables(before)) + {last.variable};
    }
  }

  lemma {:induction false} LineValuesAre(lines: seq<SettingsLine>)
    requires Distinct(lines)
    ensures LineValues(lines).Keys == Elements(LineVariables(lines)) && Unique(LineVariables(lines))
    ensures forall i | 0 <= i < |lines| ::
              lines[i].variable in LineValues(lines) && LineValues(lines)[lines[i].variable] == lines[i].value
  {
    LineKeysAre(lines);
    if lines != [] {
      var before := lines[..|lines| - 1];
      LineValuesAre(before);
      assert forall i | 0 <= i < |before| :: before[i] == lines[i];
    }
  }

  /**
   The closed form: the lines minus removals, resets and drops, in their own
   order, then the new variables in the order of the changes. A change gives
   its variable its value, and every other line keeps its own.
   */
  ghost function SavedDict(
    lines: seq<SettingsLine>, remove: set<string>, effects: seq<Effect>, drop: set<string>
  ): Dict
  {
    var stay := Minus(LineVariables(lines), remove);
    Dict(
      Minus(stay, Resets(effects) + drop) + Minus(SetKeys(effects), Elements(stay) + drop),
      (LineValues(lines) - remove - Resets(effects) + Sets(effects)) - drop)
  }

  ghost function SavedForm(
    cat: Catalog, lines: seq<SettingsLine>, save: Save, written: map<string, string>, drop: set<string>
  ): (r: Result<seq<SettingsLine>, LineError>)
    requires cat.Valid() && save.Valid() && Distinct(lines)
  {
    match Effects(cat, written, save.changes)
    case Err(e) => Err(e)
    case Ok(effects) =>
      EffectsDistinct(cat, written, save.changes);
      SavedDictValid(lines, save.Removed(), effects, drop);
      Ok(SavedDict(lines, save.Removed(), effects, drop).Lines())
  }

  lemma EffectsDistinct(cat: Catalog, written: map<string, string>, changes: seq<Change>)
    requires cat.Valid() && Effects(cat, written, changes).Ok?
    requires forall i, j | 0 <= i < j < |changes| :: changes[i].key != changes[j].key
    ensures DistinctEffects(Effects(cat, written, changes).value)
  {
    EffectsAre(cat, written, changes);
    var effects := Effects(cat, written, changes).value;
    forall i, j | 0 <= i < j < |effects| ensures effects[i].variable != effects[j].variable {
      assert EffectOf(cat, written, changes[i]) == Ok(effects[i]);
      assert EffectOf(cat, written, changes[j]) == Ok(effects[j]);
    }
  }

  lemma UniqueConcat(s: seq<string>, t: seq<string>)
    requires Unique(s) && Unique(t) && Elements(s) !! Elements(t)
    ensures Unique(s + t)
  {
    forall i, j | 0 <= i < j < |s + t| ensures (s + t)[i] != (s + t)[j] {
      if i < |s| <= j { assert s[i] in Elements(s) && t[j - |s|] in Elements(t); }
    }
  }

  lemma SavedDictValid(lines: seq<SettingsLine>, remove: set<string>, effects: seq<Effect>, drop: set<string>)
    requires Distinct(lines) && DistinctEffects(effects)
    ensures SavedDict(lines, remove, effects, drop).Valid()
  {
    SetsAre(effects);
    LineValuesAre(lines);
    var stay := Minus(LineVariables(lines), remove);
    MinusElements(LineVariables(lines), remove);
    MinusElements(stay, Resets(effects) + drop);
    MinusElements(SetKeys(effects), Elements(stay) + drop);
    var head, tail := Minus(stay, Resets(effects) + drop), Minus(SetKeys(effects), Elements(stay) + drop);
    UniqueConcat(head, tail);
    assert Elements(head + tail) == Elements(head) + Elements(tail);
    SetNotReset(effects);
  }

  lemma SetNotReset(effects: seq<Effect>)
    requires DistinctEffects(effects)
    ensures Elements(SetKeys(effects)) !! Resets(effects)
  {
    SetsAre(effects);
  }

  // ---- The loops ----

  lemma SetKeysSnoc(effects: seq<Effect>, last: Effect)
    ensures SetKeys(effects + [last]) == SetKeys(effects) + (if last.value.Some? then [last.variable] else [])
    ensures Resets(effects + [last]) == Resets(effects) + (if last.value.None? then {last.variable} else {})
    ensures Sets(effects + [last])
         == if last.value.Some? then Sets(effects)[last.variable := last.value.value] else Sets(effects)
  {
    var all := effects + [last];
    assert all[..|all| - 1] == effects && all[|all| - 1] == last;
    assert forall i | 0 <= i < |effects| :: all[i] == effects[i];
  }

  lemma ChangeValues(base: map<string, string>, resets: set<string>, sets: map<string, string>, last: Effect)
    requires last.variable !in sets && last.variable !in resets
    ensures last.value.None? ==> base - (resets + {last.variable}) + sets == (base - resets + sets) - {last.variable}
    ensures last.value.Some? ==>
              (base - resets + sets[last.variable := last.value.value] ==
               (base - resets + sets)[last.variable := last.value.value])
  {
  }

  lemma TailLacks(stay: seq<string>, sets: seq<string>, v: string)
    requires v !in sets
    ensures v !in Elements(Minus(sets, Elements(stay)))
  {
    MinusElements(sets, Elements(stay));
  }

  lemma KeyPopped(stay: seq<string>, resets: set<string>, sets: seq<string>, v: string)
    requires v !in sets && v !in resets
    ensures Minus(Minus(stay, resets) + Minus(sets, Elements(stay)), {v})
         == Minus(stay, resets + {v}) + Minus(sets, Elements(stay))
  {
    var head, tail := Minus(stay, resets), Minus(sets, Elements(stay));
    MinusConcat(head, tail, {v});
    MinusTwice(stay, resets, {v});
    TailLacks(stay, sets, v);
    MinusNothing(tail, {v});
  }

  lemma KeyFound(stay: seq<string>, resets: set<string>, sets: seq<string>, v: string)
    requires v !in sets && v !in resets
    ensures v in Minus(stay, resets) + Minus(sets, Elements(stay)) <==> v in stay
  {
    var head, tail := Minus(stay, resets), Minus(sets, Elements(stay));
    MinusElements(stay, resets);
    TailLacks(stay, sets, v);
    assert v in head <==> v in Elements(head);
    assert v in tail <==> v in Elements(tail);
  }

  lemma ChangeKeys(stay: seq<string>, resets: set<string>, sets: seq<string>, v: string)
    requires v !in sets && v !in resets
    ensures Minus(Minus(stay, resets) + Minus(sets, Elements(stay)), {v})
         == Minus(stay, resets + {v}) + Minus(sets, Elements(stay))
    ensures v in Minus(stay, resets) + Minus(sets, Elements(stay)) <==> v in stay
    ensures Minus(sets + [v], Elements(stay))
         == Minus(sets, Elements(stay)) + if v in stay then [] else [v]
  {
    KeyPopped(stay, resets, sets, v);
    KeyFound(stay, resets, sets, v);
    MinusConcat(sets, [v], Elements(stay));
  }

  lemma LastIsNew(effects: seq<Effect>, last: Effect)
    requires DistinctEffects(effects + [last])
    ensures DistinctEffects(effects)
    ensures last.variable !in Sets(effects) && last.variable !in Resets(effects) && last.variable !in SetKeys(effects)
  {
    var all := effects + [last];
    assert forall i | 0 <= i < |effects| :: all[i] == effects[i] && all[i].variable != all[|effects|].variable;
    SetsAre(effects);
    assert last.variable !in Elements(SetKeys(effects));
  }

  /** One change turns the closed form of the changes before it into its own. */
  lemma ChangeStep(lines: seq<SettingsLine>, remove: set<string>, effects: seq<Effect>, last: Effect)
    requires Distinct(lines) && DistinctEffects(effects + [last])
    ensures SavedDict(lines, remove, effects + [last], {})
         == if last.value.Some? then SavedDict(lines, remove, effects, {}).Put(last.variable, last.value.value)
            else SavedDict(lines, remove, effects, {}).Pop(last.variable)
  {
    var v := last.variable;
    LastIsNew(effects, last);
    SetKeysSnoc(effects, last);
    var stay := Minus(LineVariables(lines), remove);
    var base, resets, sets, keys := LineValues(lines) - remove, Resets(effects), Sets(effects), SetKeys(effects);
    var d := SavedDict(lines, remove, effects, {});
    assert v in d.values <==> v in d.keys by { SavedDictValid(lines, remove, effects, {}); assert v in Elements(d.keys) <==> v in d.values; }
    SavedDictNoDrop(lines, remove, effects);
    SavedDictNoDrop(lines, remove, effects + [last]);
    ChangeKeys(stay, resets, keys, v);
    ChangeValues(base, resets, sets, last);
    PutOrPop(stay, resets, sets, keys, base, last);
    var after := SavedDict(lines, remove, effects + [last], {});
    if last.value.None? {
      assert Sets(effects + [last]) == sets && SetKeys(effects + [last]) == keys;
      assert Resets(effects + [last]) == resets + {v};
      assert after.values == d.Pop(v).values;
    } else {
      assert Resets(effects + [last]) == resets + {} == resets;
      assert after.values == d.Put(v, last.value.value).values;
      assert after.keys == d.Put(v, last.value.value).keys;
    }
  }

  lemma PutOrPop(
    stay: seq<string>, resets: set<string>, sets: map<string, string>, keys: seq<string>,
    base: map<string, string>, last: Effect)
    requires last.variable !in sets && last.variable !in resets && last.variable !in keys
    requires var d := Dict(Minus(stay, resets) + Minus(keys, Elements(stay)), base - resets + sets);
             last.variable in d.values <==> last.variable in d.keys
    ensures var d := Dict(Minus(stay, resets) + Minus(keys, Elements(stay)), base - resets + sets);
            var v := last.variable;
      && d.Pop(v) == Dict(Minus(stay, resets + {v}) + Minus(keys, Elements(stay)),
                          (base - resets + sets) - {v})
      && (last.value.Some? ==>
            d.Put(v, last.value.value) == Dict(Minus(stay, resets) + Minus(keys + [v], Elements(stay)),
                                               (base - resets + sets)[v := last.value.value]))
  {
    ChangeKeys(stay, resets, keys, last.variable);
  }

  lemma SavedDictNoDrop(lines: seq<SettingsLine>, remove: set<string>, effects: seq<Effect>)
    ensures var stay := Minus(LineVariables(lines), remove);
      SavedDict(lines, remove, effects, {})
      == Dict(Minus(stay, Resets(effects)) + Minus(SetKeys(effects), Elements(stay)),
              LineValues(lines) - remove - Resets(effects) + Sets(effects))
  {
    var stay := Minus(LineVariables(lines), remove);
    assert Resets(effects) + {} == Resets(effects) && Elements(stay) + {} == Elements(stay);
    var values := LineValues(lines) - remove - Resets(effects) + Sets(effects);
    assert values - {} == values;
  }

  lemma LinesSnoc(lines: seq<SettingsLine>, i: nat)
    requires i < |lines|
    ensures LineVariables(lines[..i + 1]) == LineVariables(lines[..i]) + [lines[i].variable]
    ensures LineValues(lines[..i + 1]) == LineValues(lines[..i])[lines[i].variable := lines[i].value]
  {
    assert lines[..i + 1][..i] == lines[..i];
  }

  lemma LineStep(lines: seq<SettingsLine>, i: nat, removed: set<string>)
    requires i < |lines| && Distinct(lines)
    ensures var keys, values := Minus(LineVariables(lines[..i]), removed), LineValues(lines[..i]) - removed;
      var v := lines[i].variable;
      && v !in values
      && Minus(LineVariables(lines[..i + 1]), removed) == keys + (if v in removed then [] else [v])
      && LineValues(lines[..i + 1]) - removed == if v in removed then values else values[v := lines[i].value]
  {
    var v := lines[i].variable;
    LinesSnoc(lines, i);
    MinusConcat(LineVariables(lines[..i]), [v], removed);
    assert v !in LineValues(lines[..i]) by {
      LineValuesAre(lines[..i]);
      assert forall j | 0 <= j < i :: LineVariables(lines[..i])[j] == lines[j].variable;
    }
    LinePut(LineValues(lines[..i]), v, lines[i].value, removed);
  }

  lemma LinePut(m: map<string, string>, v: string, value: string, removed: set<string>)
    ensures m[v := value] - removed == if v in removed then m - removed else (m - removed)[v := value]
  {
  }

  /** The first loop: the lines that no removal names. */
  method LinesKept(lines: seq<SettingsLine>, remove: seq<string>, ghost removed: set<string>) returns (values: Dict)
    requires Distinct(lines) && removed == set v | v in remove
    ensures values == SavedDict(lines, removed, [], {})
  {
    values := Dict([], map[]);
    assert LineValues([]) - removed == map[];
    for i := 0 to |lines|
      invariant values.keys == Minus(LineVariables(lines[..i]), removed)
      invariant values.values == LineValues(lines[..i]) - removed
    {
      LineStep(lines, i, removed);
      if lines[i].variable !in remove {
        values := values.Put(lines[i].variable, lines[i].value);
      }
    }
    assert lines[..|lines|] == lines;
    SavedDictNoDrop(lines, removed, []);
    var stay := Minus(LineVariables(lines), removed);
    MinusNothing(stay, {});
    assert Resets([]) == {} && Sets([]) == map[] && SetKeys([]) == [];
    assert values.values - {} + map[] == values.values;
  }

  /** The second loop: each change over the lines kept. */
  method ChangesApplied(
    cat: Catalog, kept: Dict, changes: seq<Change>, written: map<string, string>,
    ghost lines: seq<SettingsLine>, ghost removed: set<string>
  ) returns (r: Result<Dict, LineError>)
    requires cat.Valid() && Distinct(lines) && kept == SavedDict(lines, removed, [], {})
    requires forall i, j | 0 <= i < j < |changes| :: changes[i].key != changes[j].key
    ensures match Effects(cat, written, changes)
            case Err(e) => r == Err(e)
            case Ok(effects) => r == Ok(SavedDict(lines, removed, effects, {}))
  {
    var values := kept;
    ghost var effects: seq<Effect> := [];
    for i := 0 to |changes|
      invariant Effects(cat, written, changes[..i]) == Ok(effects)
      invariant values == SavedDict(lines, removed, effects, {})
    {
      assert changes[..i + 1][..i] == changes[..i];
      match EffectOf(cat, written, changes[i]) {
        case Err(e) =>
          FirstError(cat, written, changes, i + 1);
          return Err(e);
        case Ok(effect) =>
          EffectsDistinct(cat, written, changes[..i + 1]);
          ChangeStep(lines, removed, effects, effect);
          values := if effect.value.None? then values.Pop(effect.variable)
                    else values.Put(effect.variable, effect.value.value);
          effects := effects + [effect];
      }
    }
    assert changes[..|changes|] == changes;
    return Ok(values);
  }

  /** The third loop: each dropped variable, in any order. */
  method DropsApplied(all: Dict, drop: set<string>) returns (values: Dict)
    ensures values == Dict(Minus(all.keys, drop), all.values - drop)
  {
    MinusNothing(all.keys, {});
    assert drop - drop == {} && all.values - {} == all.values;
    values := all;
    var left := drop;
    while left != {}
      invariant left <= drop
      invariant values.keys == Minus(all.keys, drop - left) && values.values == all.values - (drop - left)
      decreases left
    {
      var v :| v in left;
      MinusTwice(all.keys, drop - left, {v});
      assert (drop - left) + {v} == drop - (left - {v});
      values := values.Pop(v);
      left := left - {v};
    }
    assert drop - {} == drop;
  }

  /** The lines of the file after a save, by its own loops. */
  method SavedLines(
    cat: Catalog, lines: seq<SettingsLine>, save: Save, written: map<string, string>, drop: set<string>
  ) returns (r: Result<seq<SettingsLine>, LineError>)
    requires cat.Valid() && save.Valid() && Distinct(lines)
    ensures r == SavedForm(cat, lines, save, written, drop)
  {
    ghost var removed := save.Removed();
    var kept := LinesKept(lines, save.remove, removed);
    var changed := ChangesApplied(cat, kept, save.changes, written, lines, removed);
    if changed.Err? {
      return Err(changed.error);
    }
    var values := DropsApplied(changed.value, drop);
    ghost var effects := Effects(cat, written, save.changes).value;
    EffectsDistinct(cat, written, save.changes);
    DropAtTheEnd(lines, removed, effects, drop);
    SavedDictValid(lines, removed, effects, drop);
    var numbered: seq<SettingsLine> := [];
    for i := 0 to |values.keys|
      invariant |numbered| == i
      invariant forall j | 0 <= j < i :: numbered[j] == SettingsLine(j + 1, values.keys[j], values.values[values.keys[j]])
    {
      assert values.keys[i] in Elements(values.keys);
      numbered := numbered + [SettingsLine(i + 1, values.keys[i], values.values[values.keys[i]])];
    }
    assert numbered == values.Lines();
    return Ok(numbered);
  }

  lemma DropAtTheEnd(lines: seq<SettingsLine>, remove: set<string>, effects: seq<Effect>, drop: set<string>)
    ensures SavedDict(lines, remove, effects, drop)
         == Dict(Minus(SavedDict(lines, remove, effects, {}).keys, drop), SavedDict(lines, remove, effects, {}).values - drop)
  {
    SavedDictNoDrop(lines, remove, effects);
    var stay := Minus(LineVariables(lines), remove);
    MinusConcat(Minus(stay, Resets(effects)), Minus(SetKeys(effects), Elements(stay)), drop);
    MinusTwice(stay, Resets(effects), drop);
    MinusTwice(SetKeys(effects), Elements(stay), drop);
  }

  // ---- What the closed form means ----

  /** A variable has a line after the save exactly where a change sets it, or it had
      a line that no removal and no reset takes; the drops win over both. */
  lemma SavedLookup(lines: seq<SettingsLine>, remove: set<string>, effects: seq<Effect>, drop: set<string>, v: string)
    requires Distinct(lines) && DistinctEffects(effects)
    ensures var d := SavedDict(lines, remove, effects, drop);
            v in d.values <==>
              && v !in drop
              && ((exists i :: 0 <= i < |effects| && effects[i].variable == v && effects[i].value.Some?)
                  || (v in LineValues(lines) && v !in remove && v !in Resets(effects)))
    ensures var d := SavedDict(lines, remove, effects, drop);
            v in d.values ==>
              if exists i :: 0 <= i < |effects| && effects[i].variable == v && effects[i].value.Some?
              then exists i :: 0 <= i < |effects| && effects[i] == Effect(v, Some(d.values[v]))
              else d.values[v] == LineValues(lines)[v]
  {
    var d := SavedDict(lines, remove, effects, drop);
    SetsAre(effects);
    if i :| 0 <= i < |effects| && effects[i].variable == v && effects[i].value.Some? {
      assert v in Sets(effects) && Sets(effects)[v] == effects[i].value.value;
    }
  }

  lemma {:induction false} MinusKeepsOrder(s: seq<string>, drop: set<string>, u: string, v: string)
    requires u !in drop && v !in drop && Before(s, u, v)
    ensures Before(Minus(s, drop), u, v)
  {
    var i, j :| 0 <= i < j < |s| && s[i] == u && s[j] == v;
    var rest, r := Minus(s[1..], drop), Minus(s, drop);
    MinusElements(s[1..], drop);
    if i == 0 {
      assert s[1..][j - 1] == v && v in Elements(s[1..]);
      assert v in Elements(rest);
      var k :| 0 <= k < |rest| && rest[k] == v;
      assert r[0] == u && r[k + 1] == v;
    } else {
      assert s[1..][i - 1] == u && s[1..][j - 1] == v;
      MinusKeepsOrder(s[1..], drop, u, v);
      var k, l :| 0 <= k < l < |rest| && rest[k] == u && rest[l] == v;
      var n := |r| - |rest|;
      assert r[n + k] == u && r[n + l] == v;
    }
  }

  ghost predicate Before(s: seq<string>, u: string, v: string) {
    exists i, j :: 0 <= i < j < |s| && s[i] == u && s[j] == v
  }

  /** Two lines that survive keep their order, and each new variable comes after every old one. */
  lemma SavedOrder(lines: seq<SettingsLine>, remove: set<string>, effects: seq<Effect>, drop: set<string>, u: string, v: string)
    requires Distinct(lines) && DistinctEffects(effects)
    requires u in SavedDict(lines, remove, effects, drop).keys && v in SavedDict(lines, remove, effects, drop).keys
    requires u in LineVariables(lines) && u !in remove
    requires (v in LineVariables(lines) && v !in remove && Before(LineVariables(lines), u, v))
          || v !in LineVariables(lines)
    ensures Before(SavedDict(lines, remove, effects, drop).keys, u, v)
  {
    var stay := Minus(LineVariables(lines), remove);
    var head, tail := Minus(stay, Resets(effects) + drop), Minus(SetKeys(effects), Elements(stay) + drop);
    MinusElements(LineVariables(lines), remove);
    MinusElements(stay, Resets(effects) + drop);
    MinusElements(SetKeys(effects), Elements(stay) + drop);
    assert u in Elements(stay) && u in Elements(head);
    if v in LineVariables(lines) {
      assert v in Elements(stay) && v in Elements(head);
      MinusKeepsOrder(LineVariables(lines), remove, u, v);
      MinusKeepsOrder(stay, Resets(effects) + drop, u, v);
      BeforeHead(head, tail, u, v);
    } else {
      assert v !in Elements(stay) && v !in Elements(head);
      HeadBeforeTail(head, tail, u, v);
    }
  }

  lemma BeforeHead(head: seq<string>, tail: seq<string>, u: string, v: string)
    requires Before(head, u, v)
    ensures Before(head + tail, u, v)
  {
    var i, j :| 0 <= i < j < |head| && head[i] == u && head[j] == v;
    assert (head + tail)[i] == u && (head + tail)[j] == v;
  }

  lemma HeadBeforeTail(head: seq<string>, tail: seq<string>, u: string, v: string)
    requires u in head && v in tail
    ensures Before(head + tail, u, v)
  {
    var i :| 0 <= i < |head| && head[i] == u;
    var j :| 0 <= j < |tail| && tail[j] == v;
    assert (head + tail)[i] == u && (head + tail)[|head| + j] == v;
  }

  /** The order of the changes moves no value and no surviving line. */
  lemma SavedAnyOrder(lines: seq<SettingsLine>, remove: set<string>, effects: seq<Effect>, others: seq<Effect>, drop: set<string>)
    requires Distinct(lines) && DistinctEffects(effects) && DistinctEffects(others)
    requires forall e :: e in effects <==> e in others
    ensures SavedDict(lines, remove, effects, drop).values == SavedDict(lines, remove, others, drop).values
    ensures Resets(effects) == Resets(others)
  {
    SameSets(effects, others);
  }

  lemma SameSets(effects: seq<Effect>, others: seq<Effect>)
    requires DistinctEffects(effects) && DistinctEffects(others)
    requires forall e :: e in effects <==> e in others
    ensures Resets(effects) == Resets(others) && Sets(effects) == Sets(others)
  {
    InSets(effects, others);
    InSets(others, effects);
  }

  lemma InSets(effects: seq<Effect>, others: seq<Effect>)
    requires DistinctEffects(effects) && DistinctEffects(others)
    requires forall e :: e in effects ==> e in others
    ensures Resets(effects) <= Resets(others)
    ensures forall v | v in Sets(effects) :: v in Sets(others) && Sets(others)[v] == Sets(effects)[v]
  {
    SetsAre(effects);
    SetsAre(others);
    forall v | v in Resets(effects) ensures v in Resets(others) {
      var i :| 0 <= i < |effects| && effects[i].value.None? && effects[i].variable == v;
      assert effects[i] in others;
    }
    forall v | v in Sets(effects) ensures v in Sets(others) && Sets(others)[v] == Sets(effects)[v] {
      var i :| 0 <= i < |effects| && effects[i].variable == v && effects[i].value.Some?;
      assert effects[i] in others;
    }
  }
}
