/**
 The rules of a save: what it refuses, the mapping it gives, the key lines it
 drops, and why the mapping that was checked is the one that is committed.
 */
module SaveRules {
  import opened Results
  import opened SettingsFile
  import opened SettingsLines

  type Env = map<string, string>

  /** A refusal names a key that the page made, or the position of one that a caller made up. */
  datatype Refusal =
    | NotASetting(at: nat)
    | NotChanged(key: string)
    | SetByProcess(key: string)
    | BadValue(key: string)
    | KnownLine(variable: string)
    | NoSuchLine(at: nat)

  /** The one secret rule. A `\` or a `$` inside a secret passes. */
  predicate IsSecret(value: string) {
    && 0 < |value| <= MAX_VALUE_CHARS
    && (forall i | 0 <= i < |value| :: IsPrintable(value[i]))
    && value[0] != ' ' && value[|value| - 1] != ' '
  }

  function ChangeRefusal(cat: Catalog, process: Env, at: nat, change: Change): Option<Refusal> {
    if change.key !in cat.settings then Some(NotASetting(at))
    else
      var setting := cat.settings[change.key];
      if !setting.changes || setting.variable.None? then Some(NotChanged(change.key))
      else if setting.variable.value in process then Some(SetByProcess(change.key))
      else if change.value.Some?
              && !(if setting.variable.value in cat.secrets then IsSecret(change.value.value) else IsValue(change.value.value))
      then Some(BadValue(change.key))
      else None
  }

  function RemoveRefusal(cat: Catalog, lines: seq<SettingsLine>, at: nat, variable: string): Option<Refusal> {
    if variable in cat.known then Some(KnownLine(variable))
    else if variable !in Variables(lines) then Some(NoSuchLine(at))
    else None
  }

  ghost function Somes(found: seq<Option<Refusal>>): seq<Refusal> {
    if found == [] then []
    else
      var last := found[|found| - 1];
      Somes(found[..|found| - 1]) + (if last.Some? then [last.value] else [])
  }

  ghost function ChangeRefusals(cat: Catalog, process: Env, changes: seq<Change>): seq<Option<Refusal>> {
    seq(|changes|, i requires 0 <= i < |changes| => ChangeRefusal(cat, process, i, changes[i]))
  }

  ghost function RemoveRefusals(cat: Catalog, lines: seq<SettingsLine>, remove: seq<string>): seq<Option<Refusal>> {
    seq(|remove|, i requires 0 <= i < |remove| => RemoveRefusal(cat, lines, i, remove[i]))
  }

  lemma {:induction false} SomesNone(found: seq<Option<Refusal>>)
    ensures Somes(found) == [] <==> forall i | 0 <= i < |found| :: found[i].None?
  {
    if found != [] {
      var n := |found| - 1;
      SomesNone(found[..n]);
      assert forall i | 0 <= i < n :: found[..n][i] == found[i];
      assert Somes(found) == [] <==> Somes(found[..n]) == [] && found[n].None?;
    }
  }

  /** Each refusal of the body: of its changes, then of its removals, in order. */
  method Refusals(cat: Catalog, process: Env, save: Save, lines: seq<SettingsLine>) returns (found: seq<Refusal>)
    ensures found == Somes(ChangeRefusals(cat, process, save.changes)) + Somes(RemoveRefusals(cat, lines, save.remove))
    ensures found == [] <==> Accepted(cat, process, save, lines)
  {
    found := [];
    ghost var changed, removed := ChangeRefusals(cat, process, save.changes), RemoveRefusals(cat, lines, save.remove);
    for i := 0 to |save.changes|
      invariant found == Somes(changed[..i])
    {
      assert changed[..i + 1][..i] == changed[..i];
      var refusal := ChangeRefusal(cat, process, i, save.changes[i]);
      if refusal.Some? {
        found := found + [refusal.value];
      }
    }
    assert changed[..|changed|] == changed;
    for i := 0 to |save.remove|
      invariant found == Somes(changed) + Somes(removed[..i])
    {
      assert removed[..i + 1][..i] == removed[..i];
      var refusal := RemoveRefusal(cat, lines, i, save.remove[i]);
      if refusal.Some? {
        found := found + [refusal.value];
      }
    }
    assert removed[..|removed|] == removed;
    NoRefusals(cat, process, save, lines);
  }

  lemma NoRefusals(cat: Catalog, process: Env, save: Save, lines: seq<SettingsLine>)
    ensures Somes(ChangeRefusals(cat, process, save.changes)) + Somes(RemoveRefusals(cat, lines, save.remove)) == []
       <==> Accepted(cat, process, save, lines)
  {
    var changed, removed := ChangeRefusals(cat, process, save.changes), RemoveRefusals(cat, lines, save.remove);
    SomesNone(changed);
    SomesNone(removed);
    assert forall i | 0 <= i < |changed| :: changed[i] == ChangeRefusal(cat, process, i, save.changes[i]);
    assert forall i | 0 <= i < |removed| :: removed[i] == RemoveRefusal(cat, lines, i, save.remove[i]);
  }

  /** No rule refuses the body. */
  predicate Accepted(cat: Catalog, process: Env, save: Save, lines: seq<SettingsLine>) {
    && (forall i | 0 <= i < |save.changes| :: ChangeRefusal(cat, process, i, save.changes[i]).None?)
    && (forall i | 0 <= i < |save.remove| :: RemoveRefusal(cat, lines, i, save.remove[i]).None?)
  }

  /** Printable text of at most 4096 characters with no space at either end. */
  predicate IsPlain(x: string) {
    |x| <= 4096 && (forall c | c in x :: IsPrintable(c)) && (x != "" ==> ' ' !in [x[0], x[|x| - 1]])
  }

  /** A secret is such a text that is not empty; another value holds no `\` and no `$` and starts with no quote. */
  predicate CanHold(secret: bool, x: string) {
    IsPlain(x) && if secret then x != "" else '\\' !in x && '$' !in x && (x != "" ==> x[0] !in {'\'', '"'})
  }

  /** The rules take a change of a setting that the page changes, whose variable the process leaves free, to a value that it can hold. */
  predicate Takes(cat: Catalog, process: Env, c: Change) {
    && c.key in cat.settings && cat.settings[c.key].changes && cat.settings[c.key].variable.Some?
    && cat.settings[c.key].variable.value !in process
    && (c.value.Some? ==> CanHold(cat.settings[c.key].variable.value in cat.secrets, c.value.value))
  }

  lemma ValueWhen(x: string)
    ensures IsSecret(x) <==> CanHold(true, x)
    ensures IsValue(x) <==> CanHold(false, x)
  {
    assert forall i | 0 <= i < |x| :: x[i] in x;
    assert forall c | c in x :: exists i :: 0 <= i < |x| && x[i] == c;
    hide IsPrintable;
  }

  /** Which changes are refused, and what for. */
  lemma RefusedWhen(cat: Catalog, process: Env, at: nat, c: Change)
    ensures match ChangeRefusal(cat, process, at, c)
            case None => Takes(cat, process, c)
            case Some(NotASetting(k)) => k == at && c.key !in cat.settings
            case Some(NotChanged(key)) =>
              key == c.key && c.key in cat.settings && !(cat.settings[c.key].changes && cat.settings[c.key].variable.Some?)
            case Some(SetByProcess(key)) =>
              && key == c.key && c.key in cat.settings && cat.settings[c.key].variable.Some?
              && cat.settings[c.key].variable.value in process
            case Some(BadValue(key)) =>
              && key == c.key && c.key in cat.settings && cat.settings[c.key].variable.Some? && c.value.Some?
              && !CanHold(cat.settings[c.key].variable.value in cat.secrets, c.value.value)
            case Some(_) => false
  {
    if c.value.Some? { ValueWhen(c.value.value); }
    hide IsSecret, IsValue, CanHold;
  }

  /** The rules take a body exactly where they take each change, and each removal names a line that this version does not read. */
  lemma AcceptedWhen(cat: Catalog, process: Env, save: Save, lines: seq<SettingsLine>)
    ensures Accepted(cat, process, save, lines) <==>
              && (forall c | c in save.changes :: Takes(cat, process, c))
              && forall v | v in save.remove :: v !in cat.known && exists i :: 0 <= i < |lines| && lines[i].variable == v
  {
    forall i | 0 <= i < |save.changes|
      ensures ChangeRefusal(cat, process, i, save.changes[i]).None? <==> Takes(cat, process, save.changes[i])
    {
      RefusedWhen(cat, process, i, save.changes[i]);
    }
    hide ChangeRefusal, Takes;
    forall c | c in save.changes ensures exists i :: 0 <= i < |save.changes| && save.changes[i] == c {}
    forall i | 0 <= i < |save.remove|
      ensures RemoveRefusal(cat, lines, i, save.remove[i]).None? <==>
                save.remove[i] !in cat.known && exists k :: 0 <= k < |lines| && lines[k].variable == save.remove[i]
    {
    }
    forall v | v in save.remove ensures exists i :: 0 <= i < |save.remove| && save.remove[i] == v {}
  }

  // ---- The keys of a save ----

  datatype KeyText = KeyText(variable: string, text: string)

  predicate SetsKey(cat: Catalog, change: Change) {
    && change.key in cat.settings && cat.settings[change.key].variable.Some?
    && cat.settings[change.key].variable.value in cat.secrets && change.value.Some?
  }

  /** The key text of each key setting that the changes set, in order. */
  function SavedKeys(cat: Catalog, changes: seq<Change>): seq<KeyText> {
    if changes == [] then []
    else
      var first := changes[0];
      (if SetsKey(cat, first) then [KeyText(cat.settings[first.key].variable.value, first.value.value)] else [])
      + SavedKeys(cat, changes[1..])
  }

  function KeyVariables(keys: seq<KeyText>): set<string> {
    set i | 0 <= i < |keys| :: keys[i].variable
  }

  lemma {:induction false} SavedKeysAre(cat: Catalog, changes: seq<Change>)
    ensures forall i | 0 <= i < |changes| && SetsKey(cat, changes[i]) ::
              cat.settings[changes[i].key].variable.value in KeyVariables(SavedKeys(cat, changes))
    ensures forall k | k in SavedKeys(cat, changes) ::
              exists i :: 0 <= i < |changes| && SetsKey(cat, changes[i]) && cat.settings[changes[i].key].variable == Some(k.variable)
  {
    if changes != [] {
      var keys, rest := SavedKeys(cat, changes), SavedKeys(cat, changes[1..]);
      SavedKeysAre(cat, changes[1..]);
      forall i | 0 <= i < |changes| && SetsKey(cat, changes[i])
        ensures cat.settings[changes[i].key].variable.value in KeyVariables(keys)
      {
        if i == 0 {
          assert keys[0].variable == cat.settings[changes[0].key].variable.value;
        } else {
          assert changes[1..][i - 1] == changes[i];
          var j :| 0 <= j < |rest| && rest[j].variable == cat.settings[changes[i].key].variable.value;
          assert keys[j + |keys| - |rest|] == rest[j];
        }
      }
      forall k | k in keys
        ensures exists i :: 0 <= i < |changes| && SetsKey(cat, changes[i]) && cat.settings[changes[i].key].variable == Some(k.variable)
      {
        if k in rest {
          var i :| 0 <= i < |changes[1..]| && SetsKey(cat, changes[1..][i])
                   && cat.settings[changes[1..][i].key].variable == Some(k.variable);
          assert changes[i + 1] == changes[1..][i];
        } else {
          assert keys[0] == k && SetsKey(cat, changes[0]);
        }
      }
    }
  }

  /**
   The key texts of a save: for each change that sets a key setting, in order, the
   setting's variable with the value that the change gives, and nothing else.
   */
  lemma {:induction false} KeyTextsAre(cat: Catalog, changes: seq<Change>) returns (at: seq<nat>)
    ensures |at| == |SavedKeys(cat, changes)| && forall j, k | 0 <= j < k < |at| :: at[j] < at[k]
    ensures forall i: nat :: i in at <==>
              && i < |changes| && changes[i].key in cat.settings && changes[i].value.Some?
              && cat.settings[changes[i].key].variable.Some? && cat.settings[changes[i].key].variable.value in cat.secrets
    ensures forall k | 0 <= k < |at| ::
              && at[k] in at && cat.settings[changes[at[k]].key].variable == Some(SavedKeys(cat, changes)[k].variable)
              && changes[at[k]].value == Some(SavedKeys(cat, changes)[k].text)
  {
    at := [];
    if changes != [] {
      var n := |changes| - 1;
      assert changes == changes[..n] + [changes[n]];
      KeysSnoc(cat, changes[..n], changes[n]);
      at := KeyTextsAre(cat, changes[..n]);
      assert forall k | 0 <= k < |at| :: at[k] in at && at[k] < n;
      var keys := SavedKeys(cat, changes[..n]);
      assert forall i | i in at :: changes[..n][i] == changes[i];
      if SetsKey(cat, changes[n]) {
        at := at + [n];
      }
    }
  }

  lemma {:induction false} KeysSnoc(cat: Catalog, changes: seq<Change>, last: Change)
    ensures SavedKeys(cat, changes + [last]) ==
            SavedKeys(cat, changes)
            + (if SetsKey(cat, last) then [KeyText(cat.settings[last.key].variable.value, last.value.value)] else [])
  {
    if changes != [] {
      assert (changes + [last])[1..] == changes[1..] + [last];
      KeysSnoc(cat, changes[1..], last);
    } else {
      assert (changes + [last])[1..] == [];
    }
  }

  /** A body that no rule refuses gives lines, once each key that it sets has its file. */
  lemma AcceptedHasLines(cat: Catalog, process: Env, save: Save, lines: seq<SettingsLine>, written: Env)
    requires Accepted(cat, process, save, lines)
    requires written.Keys == KeyVariables(SavedKeys(cat, save.changes))
    ensures Effects(cat, written, save.changes).Ok?
  {
    SavedKeysAre(cat, save.changes);
    forall i | 0 <= i < |save.changes| ensures EffectOf(cat, written, save.changes[i]).Ok? {
      assert ChangeRefusal(cat, process, i, save.changes[i]).None?;
      assert SetsKey(cat, save.changes[i]) ==>
          cat.settings[save.changes[i].key].variable.value in KeyVariables(SavedKeys(cat, save.changes));
    }
    EffectsAre(cat, written, save.changes);
  }

  // ---- The mapping ----

  /** The mapping of the process environment and the lines, or nothing where the loader refuses it. */
  function MergedEnv(cat: Catalog, process: Env, lines: seq<SettingsLine>): Option<Env> {
    if || (exists v :: v in cat.known && v in process && !IsValue(process[v]))
       || (exists i :: 0 <= i < |lines| &&
             (lines[i].variable !in cat.known || lines[i].variable in process || !IsValue(lines[i].value)))
    then None
    else Some(process + LineValues(lines))
  }

  /** The settings that a loader reads whatever the file holds: the process environment wins over a line. */
  function LooseEnv(process: Env, lines: seq<SettingsLine>): Env {
    LineValues(lines) + process
  }

  lemma {:induction false} LinesHold(lines: seq<SettingsLine>)
    requires Distinct(lines)
    ensures forall v :: v in LineValues(lines) <==> exists i :: 0 <= i < |lines| && lines[i].variable == v
    ensures forall i | 0 <= i < |lines| :: lines[i].variable in LineValues(lines) && LineValues(lines)[lines[i].variable] == lines[i].value
  {
    if lines != [] {
      var before := lines[..|lines| - 1];
      assert forall i | 0 <= i < |before| :: before[i] == lines[i];
      LinesHold(before);
      forall v | v in LineValues(lines) ensures exists i :: 0 <= i < |lines| && lines[i].variable == v {
        if v in LineValues(before) {
          var i :| 0 <= i < |before| && before[i].variable == v;
          assert lines[i].variable == v;
        } else {
          assert lines[|before|].variable == v;
        }
      }
    }
  }

  /** Where the loader accepts the lines, both readings of them are one mapping. */
  lemma MergedIsLoose(cat: Catalog, process: Env, lines: seq<SettingsLine>)
    requires Distinct(lines) && MergedEnv(cat, process, lines).Some?
    ensures MergedEnv(cat, process, lines).value == LooseEnv(process, lines)
    ensures LineValues(lines).Keys !! process.Keys && LineValues(lines).Keys <= cat.known
  {
    LinesHold(lines);
  }

  // ---- The drop of unused keys ----

  /** The key variables of each vendor that no tier uses. A build that gave no tiers uses none. */
  function UnusedKeys(cat: Catalog, tiers: Option<set<string>>): set<string> {
    var used := if tiers.None? then {} else tiers.value;
    set name, v | name in cat.vendors && name !in used && v in cat.vendors[name] :: v
  }

  lemma DictLines(d: Dict)
    requires d.Valid()
    ensures Distinct(d.Lines()) && LineValues(d.Lines()) == d.values
  {
    var lines := d.Lines();
    LinesHold(lines);
    forall v | v in LineValues(lines) ensures v in d.values && LineValues(lines)[v] == d.values[v] {
      var i :| 0 <= i < |lines| && lines[i].variable == v;
      assert d.keys[i] in Elements(d.keys);
    }
    forall v | v in d.values ensures v in LineValues(lines) {
      assert v in Elements(d.keys);
      var i :| 0 <= i < |d.keys| && d.keys[i] == v;
      assert lines[i].variable == v;
    }
  }

  lemma SavedLinesAre(cat: Catalog, save: Save, lines: seq<SettingsLine>, written: Env, drop: set<string>)
    requires cat.Valid() && save.Valid() && Distinct(lines)
    requires SavedForm(cat, lines, save, written, drop).Ok?
    ensures var saved := SavedForm(cat, lines, save, written, drop).value;
            && Distinct(saved)
            && LineValues(saved) == SavedDict(lines, save.Removed(), Effects(cat, written, save.changes).value, drop).values
            && forall i | 0 <= i < |saved| :: saved[i].number == i + 1
  {
    var effects := Effects(cat, written, save.changes).value;
    EffectsDistinct(cat, written, save.changes);
    SavedDictValid(lines, save.Removed(), effects, drop);
    DictLines(SavedDict(lines, save.Removed(), effects, drop));
  }

  /**
   What was checked is what is committed. The mapping that a save commits is
   the one its check built from, without the dropped key variables, and
   dropping them makes the loader refuse nothing that it accepted.
   */
  lemma CheckedIsCommitted(
    cat: Catalog, process: Env, save: Save, lines: seq<SettingsLine>, written: Env, tiers: Option<set<string>>)
    requires cat.Valid() && save.Valid() && Distinct(lines) && Effects(cat, written, save.changes).Ok?
    requires MergedEnv(cat, process, SavedForm(cat, lines, save, written, {}).value).Some?
    ensures MergedEnv(cat, process, SavedForm(cat, lines, save, written, UnusedKeys(cat, tiers)).value).Some?
    ensures var checked := MergedEnv(cat, process, SavedForm(cat, lines, save, written, {}).value).value;
            var committed := MergedEnv(cat, process, SavedForm(cat, lines, save, written, UnusedKeys(cat, tiers)).value).value;
            && committed.Keys == checked.Keys - (UnusedKeys(cat, tiers) - process.Keys)
            && forall v | v in committed :: committed[v] == checked[v]
  {
    var drop := UnusedKeys(cat, tiers);
    var all, some := SavedForm(cat, lines, save, written, {}).value, SavedForm(cat, lines, save, written, drop).value;
    SavedLinesAre(cat, save, lines, written, {});
    SavedLinesAre(cat, save, lines, written, drop);
    DropAtTheEnd(lines, save.Removed(), Effects(cat, written, save.changes).value, drop);
    DroppedEnv(cat, process, all, some, drop);
  }

  lemma DroppedEnv(cat: Catalog, process: Env, all: seq<SettingsLine>, some: seq<SettingsLine>, drop: set<string>)
    requires Distinct(all) && Distinct(some) && LineValues(some) == LineValues(all) - drop
    requires MergedEnv(cat, process, all).Some?
    ensures MergedEnv(cat, process, some).Some?
    ensures var checked, committed := MergedEnv(cat, process, all).value, MergedEnv(cat, process, some).value;
            && committed.Keys == checked.Keys - (drop - process.Keys)
            && forall v | v in committed :: committed[v] == checked[v]
  {
    assert MergedEnv(cat, process, some).Some? by {
      LinesHold(all);
      LinesHold(some);
      forall i | 0 <= i < |some|
        ensures some[i].variable in cat.known && some[i].variable !in process && IsValue(some[i].value)
      {
        assert some[i].variable in LineValues(all);
        var j :| 0 <= j < |all| && all[j].variable == some[i].variable;
      }
    }
    MergedIsLoose(cat, process, all);
    var lined := LineValues(all);
    assert (process + (lined - drop)).Keys == (process + lined).Keys - (drop - process.Keys);
  }

  /**
   Of what a save checks, a key variable of a vendor that a tier uses is committed
   exactly where the process environment sets it or no vendor without a tier lists
   it too.
   */
  lemma UsedKeyStays(
    cat: Catalog, process: Env, save: Save, lines: seq<SettingsLine>, written: Env, tiers: set<string>, name: string, v: string)
    requires cat.Valid() && save.Valid() && Distinct(lines) && Effects(cat, written, save.changes).Ok?
    requires MergedEnv(cat, process, SavedForm(cat, lines, save, written, {}).value).Some?
    requires name in cat.vendors && name in tiers && v in cat.vendors[name]
    requires v in MergedEnv(cat, process, SavedForm(cat, lines, save, written, {}).value).value
    ensures MergedEnv(cat, process, SavedForm(cat, lines, save, written, UnusedKeys(cat, Some(tiers))).value).Some?
    ensures v in MergedEnv(cat, process, SavedForm(cat, lines, save, written, UnusedKeys(cat, Some(tiers))).value).value <==>
              v in process || forall other | other in cat.vendors && other !in tiers :: v !in cat.vendors[other]
  {
    hide MergedEnv, SavedForm;
    CheckedIsCommitted(cat, process, save, lines, written, Some(tiers));
  }

  /** `_refusals` keeps a removal apart from a change, so no line is both removed and set. */
  lemma RemovalsApart(cat: Catalog, process: Env, save: Save, lines: seq<SettingsLine>, i: nat, j: nat)
    requires cat.Valid() && Accepted(cat, process, save, lines)
    requires i < |save.changes| && j < |save.remove|
    ensures cat.settings[save.changes[i].key].variable != Some(save.remove[j])
    ensures save.remove[j] in Variables(lines) && save.remove[j] !in cat.known
  {
    assert ChangeRefusal(cat, process, i, save.changes[i]).None?;
    assert RemoveRefusal(cat, lines, j, save.remove[j]).None?;
  }
}
