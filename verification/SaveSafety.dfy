/** Key safety over every run of the save protocol. */
module SaveSafety {
  import opened Results
  import opened SettingsFile
  import opened SettingsLines
  import opened SaveRules
  import opened KeyFiles
  import opened SaveProtocol

  /** A start: no save runs yet, and each key variable names a file that exists. */
  ghost predicate Start(cfg: Config, s: State) {
    && |s.phases| == |cfg.saves| && s.lock.None?
    && (forall i | 0 <= i < |s.phases| :: s.phases[i].Waiting?)
    && NamedNow(cfg, s) <= s.files.Keys
  }

  lemma OnlyPhase(s: State, t: State, i: nat)
    requires i < |s.phases| == |t.phases|
    requires forall j | 0 <= j < |s.phases| && j != i :: t.phases[j] == s.phases[j]
    requires forall j | 0 <= j < |s.phases| :: Active(s.phases[j]) <==> s.lock == Some(j)
    requires s.lock == Some(i) || s.lock.None?
    requires t.lock == if Active(t.phases[i]) then Some(i) else None
    ensures forall j | 0 <= j < |t.phases| :: Active(t.phases[j]) <==> t.lock == Some(j)
  {
  }

  lemma WritePhaseIs(cfg: Config, s: State, i: nat, token: string)
    requires cfg.Valid() && |s.phases| == |cfg.saves| && i < |s.phases| && PhaseIs(cfg, s, i) && DoWriteKey(s, i, token).Some?
    requires NamedNow(cfg, s) <= s.files.Keys
    ensures PhaseIs(cfg, DoWriteKey(s, i, token).value, i)
  {
    hide ReadSettings, Accepted, KeyFileName, HasKeyForm, StemOf, Named, LooseOf, IsKeyPath;
    var p := s.phases[i];
    var t := DoWriteKey(s, i, token).value;
    var key, path := p.todo[0], KeyPath(p.todo[0], token);
    assert key in p.todo;
    NewPath(cfg, key.variable, token);
    TodoTail(cfg, i, p.todo, p.written, path);
    ValuesPut(p.written, key.variable, path);
    OwnedPut(cfg, s, t, p.written.Values, path);
    WrittenPut(cfg, s, t, i, p.written, key, path);
  }

  lemma WriteKeeps(cfg: Config, s: State, i: nat, token: string)
    requires cfg.Valid() && Inv(cfg, s) && s.lock == Some(i) && DoWriteKey(s, i, token).Some?
    ensures Inv(cfg, DoWriteKey(s, i, token).value)
  {
    hide PhaseIs, KeyPath, LooseOf, Named;
    WritePhaseIs(cfg, s, i, token);
    OnlyPhase(s, DoWriteKey(s, i, token).value, i);
  }

  lemma NewPath(cfg: Config, variable: string, token: string)
    requires cfg.Valid() && variable in cfg.cat.secrets && IsToken(token)
    ensures IsKeyPath(cfg.cat, InDir(KeyFileName(variable, token))) && '/' !in KeyFileName(variable, token)
  {
    assert IsKey(variable) && KeyStem(variable) != "";
    NameHasForm(variable, token);
  }

  lemma TodoTail(cfg: Config, i: nat, todo: seq<KeyText>, written: map<string, Path>, path: Path)
    requires i < |cfg.saves| && TodoIs(cfg, i, todo, written) && todo != []
    ensures todo[0].variable !in written
    ensures TodoIs(cfg, i, todo[1..], written[todo[0].variable := path])
  {
    VariablesCons(todo);
    var v := todo[0].variable;
    assert v !in KeyVariables(todo[1..]);
    assert written[v := path].Keys + KeyVariables(todo[1..]) == written.Keys + KeyVariables(todo);
    assert forall k | k in todo[1..] :: k in todo;
  }

  lemma OwnedPut(cfg: Config, s: State, t: State, owned: set<Path>, path: Path)
    requires Uncommitted(cfg, s, owned) && path !in s.files && IsKeyPath(cfg.cat, path)
    requires NamedNow(cfg, s) <= s.files.Keys
    requires t.settings == s.settings && t.found == s.found && t.files.Keys == s.files.Keys + {path}
    requires forall p | p in s.files :: t.files[p] == s.files[p]
    ensures Uncommitted(cfg, t, owned + {path})
  {
    assert t.files - (owned + {path}) == s.files - owned;
  }

  lemma ValuesPut(written: map<string, Path>, variable: string, path: Path)
    requires variable !in written
    ensures written[variable := path].Values == written.Values + {path}
  {
    var after := written[variable := path];
    forall q | q in written.Values ensures q in after.Values {
      var v :| v in written && written[v] == q;
      assert after[v] == q;
    }
    assert after[variable] == path;
  }

  lemma WrittenPut(cfg: Config, s: State, t: State, i: nat, written: map<string, Path>, key: KeyText, path: Path)
    requires i < |cfg.saves| && WrittenIs(cfg, s, i, written)
    requires key.variable !in written && path !in s.files && IsKeyPath(cfg.cat, path) && '/' !in path.name
    requires key in SavedKeys(cfg.cat, cfg.saves[i].changes)
    requires t.files == s.files[path := key.text]
    ensures WrittenIs(cfg, t, i, written[key.variable := path])
  {
    var after := written[key.variable := path];
    forall v | v in after
      ensures after[v] in t.files && IsKeyPath(cfg.cat, after[v]) && '/' !in after[v].name
      ensures KeyText(v, t.files[after[v]]) in SavedKeys(cfg.cat, cfg.saves[i].changes)
    {
      if v == key.variable { assert KeyText(v, t.files[path]) == key; }
    }
  }

  lemma VariablesCons(keys: seq<KeyText>)
    requires keys != []
    ensures KeyVariables(keys) == {keys[0].variable} + KeyVariables(keys[1..])
  {
    forall v | v in KeyVariables(keys) ensures v in {keys[0].variable} + KeyVariables(keys[1..]) {
      var j :| 0 <= j < |keys| && keys[j].variable == v;
      if j > 0 { assert keys[1..][j - 1].variable == v; }
    }
    forall v | v in KeyVariables(keys[1..]) ensures v in KeyVariables(keys) {
      var j :| 0 <= j < |keys[1..]| && keys[1..][j].variable == v;
      assert keys[j + 1].variable == v;
    }
  }

  /** The keys of a save are key variables, once each. */
  lemma {:induction false} SavedKeysOnce(cat: Catalog, changes: seq<Change>)
    requires cat.Valid() && forall i, j | 0 <= i < j < |changes| :: changes[i].key != changes[j].key
    ensures var keys := SavedKeys(cat, changes);
            OnceEach(keys) && forall k | k in keys :: k.variable in cat.secrets
  {
    if changes != [] {
      var rest := changes[1..];
      SavedKeysOnce(cat, rest);
      SavedKeysAre(cat, rest);
      if SetsKey(cat, changes[0]) {
        var keys, tail := SavedKeys(cat, changes), SavedKeys(cat, rest);
        assert keys == [keys[0]] + tail && keys[0].variable == cat.settings[changes[0].key].variable.value;
        forall k | k in tail ensures k.variable != keys[0].variable {
          var i :| 0 <= i < |rest| && SetsKey(cat, rest[i]) && cat.settings[rest[i].key].variable == Some(k.variable);
          assert changes[i + 1] == rest[i];
        }
        OnceMore(keys[0], tail);
      }
    }
  }

  ghost predicate OnceEach(keys: seq<KeyText>) {
    forall j, k | 0 <= j < k < |keys| :: keys[j].variable != keys[k].variable
  }

  lemma OnceMore(key: KeyText, tail: seq<KeyText>)
    requires OnceEach(tail) && forall k | k in tail :: k.variable != key.variable
    ensures OnceEach([key] + tail)
  {
    assert forall j | 0 <= j < |tail| :: tail[j] in tail;
  }

  lemma ReadPhaseIs(cfg: Config, s: State, i: nat)
    requires cfg.Valid() && |s.phases| == |cfg.saves| && i < |s.phases| && s.phases[i].Reading? && s.files == s.found
    ensures PhaseIs(cfg, AfterRead(cfg, s, i), i)
    ensures var t := AfterRead(cfg, s, i);
            || (t == To(s, i, t.phases[i]) && Active(t.phases[i]))
            || (t.phases[i].Done? && t == End(s, i, t.phases[i].outcome))
  {
    hide ReadSettings, SavedKeys, Accepted, LinesAfter, MergedEnv, Named, LooseOf, IsKeyPath, KeyVariables;
    var t := AfterRead(cfg, s, i);
    var none: map<string, Path> := map[];
    assert none.Values == {};
    assert s.files - {} == s.found;
    SavedKeysOnce(cfg.cat, cfg.saves[i].changes);
  }

  lemma ReadKeeps(cfg: Config, s: State, i: nat)
    requires cfg.Valid() && Inv(cfg, s) && s.lock == Some(i) && s.phases[i].Reading?
    ensures Inv(cfg, AfterRead(cfg, s, i))
  {
    hide ReadSettings, AfterRead, LooseOf, Named;
    ReadPhaseIs(cfg, s, i);
    OnlyPhase(s, AfterRead(cfg, s, i), i);
  }

  lemma UndoForKeeps(cfg: Config, s: State, i: nat, outcome: Outcome)
    requires cfg.Valid() && Inv(cfg, s) && s.lock == Some(i) && !outcome.Saved?
    requires Uncommitted(cfg, s, Owned(s.phases[i]))
    ensures Inv(cfg, UndoFor(s, i, outcome))
  {
    OnlyPhase(s, UndoFor(s, i, outcome), i);
  }

  lemma MergeKeeps(cfg: Config, s: State, i: nat)
    requires cfg.Valid() && Inv(cfg, s) && s.lock == Some(i) && s.phases[i].Writing? && s.phases[i].todo == []
    ensures ReadSettings(s.phases[i].read).Ok? && Inv(cfg, AfterMerge(cfg, s, i))
  {
    var p := s.phases[i];
    assert KeyVariables([]) == {};
    assert AllWritten(cfg, i, p.written);
    UndoForKeeps(cfg, s, i, Refused);
    UndoForKeeps(cfg, s, i, Raised);
    OnlyPhase(s, AfterMerge(cfg, s, i), i);
  }

  lemma RecheckPhaseIs(cfg: Config, s: State, i: nat)
    requires cfg.Valid() && |s.phases| == |cfg.saves| && i < |s.phases| && s.phases[i].Rechecking? && PhaseIs(cfg, s, i)
    ensures ReadSettings(s.phases[i].read).Ok? && PhaseIs(cfg, AfterRecheck(cfg, s, i), i)
    ensures AfterRecheck(cfg, s, i) == To(s, i, AfterRecheck(cfg, s, i).phases[i]) && Active(AfterRecheck(cfg, s, i).phases[i])
  {
    hide ReadSettings, Accepted, LinesAfter, MergedEnv, UnusedKeys, Writable, AllWritten, Named, LooseOf, IsKeyPath;
    var t := AfterRecheck(cfg, s, i);
    assert t == To(s, i, t.phases[i]) && Owned(t.phases[i]) == s.phases[i].written.Values;
    assert Uncommitted(cfg, t, s.phases[i].written.Values);
  }

  lemma RecheckKeeps(cfg: Config, s: State, i: nat)
    requires cfg.Valid() && Inv(cfg, s) && s.lock == Some(i) && s.phases[i].Rechecking?
    ensures ReadSettings(s.phases[i].read).Ok? && Inv(cfg, AfterRecheck(cfg, s, i))
  {
    hide PhaseIs, ReadSettings, AfterRecheck, LooseOf, Named;
    RecheckPhaseIs(cfg, s, i);
    OnlyPhase(s, AfterRecheck(cfg, s, i), i);
  }

  /** The value of a variable in the new mapping: its old one, or the path of its new key file. */
  lemma CommitValue(
    cfg: Config, i: nat, settings: Option<string>, written: map<string, Path>, tiers: Option<set<string>>,
    lines: seq<SettingsLine>, env: Env, v: string)
    requires cfg.Valid() && i < |cfg.saves| && ReadIs(cfg, i, Text(settings))
    requires IsCommit(cfg, i, Text(settings), written, tiers, lines, env)
    requires v in cfg.cat.secrets && v in env
    ensures || (v in LooseOf(cfg, settings) && LooseOf(cfg, settings)[v] == env[v])
            || (v in written && env[v] == PathText(cfg.dir, written[v]))
  {
    var was, save := ReadSettings(Text(settings)).value, cfg.saves[i];
    var texts, drop := Texts(cfg.dir, written), UnusedKeys(cfg.cat, tiers);
    ReadsDistinct(Text(settings), 1, []);
    SavedLinesAre(cfg.cat, save, was, texts, drop);
    MergedIsLoose(cfg.cat, cfg.process, lines);
    LinesHold(was);
    if v !in cfg.process {
      LineValue(cfg.cat, was, save, texts, drop, v);
    }
  }

  lemma KeyEffect(cat: Catalog, texts: Env, change: Change, v: string, value: string)
    requires EffectOf(cat, texts, change) == Ok(Effect(v, Some(value))) && v in cat.secrets
    ensures v in texts && texts[v] == value
  {
  }

  /** A key variable of the saved lines holds the path of its new key file, or its old value. */
  lemma LineValue(cat: Catalog, was: seq<SettingsLine>, save: Save, texts: Env, drop: set<string>, v: string)
    requires cat.Valid() && save.Valid() && Distinct(was) && Effects(cat, texts, save.changes).Ok? && v in cat.secrets
    requires v in SavedDict(was, save.Removed(), Effects(cat, texts, save.changes).value, drop).values
    ensures var value := SavedDict(was, save.Removed(), Effects(cat, texts, save.changes).value, drop).values[v];
            || (v in LineValues(was) && value == LineValues(was)[v])
            || (v in texts && value == texts[v])
  {
    var effects := Effects(cat, texts, save.changes).value;
    EffectsDistinct(cat, texts, save.changes);
    var value := SavedDict(was, save.Removed(), effects, drop).values[v];
    SavedLookup(was, save.Removed(), effects, drop, v);
    if exists j :: 0 <= j < |effects| && effects[j].variable == v && effects[j].value.Some? {
      var k :| 0 <= k < |effects| && effects[k] == Effect(v, Some(value));
      assert EffectOf(cat, texts, save.changes[k]) == Ok(effects[k]) by { EffectsAre(cat, texts, save.changes); }
      KeyEffect(cat, texts, save.changes[k], v, value);
    }
  }

  /** The new mapping names files that the old one named, and the new key files; nothing else. */
  lemma CommitNames(
    cfg: Config, i: nat, settings: Option<string>, written: map<string, Path>, tiers: Option<set<string>>,
    lines: seq<SettingsLine>, env: Env)
    requires cfg.Valid() && i < |cfg.saves| && ReadIs(cfg, i, Text(settings))
    requires IsCommit(cfg, i, Text(settings), written, tiers, lines, env)
    requires forall v | v in written :: written[v].InDir? && written[v].name != "" && '/' !in written[v].name
    ensures Named(cfg.cat, cfg.dir, env) <= Named(cfg.cat, cfg.dir, LooseOf(cfg, settings)) + written.Values
  {
    forall p | p in Named(cfg.cat, cfg.dir, env)
      ensures p in Named(cfg.cat, cfg.dir, LooseOf(cfg, settings)) + written.Values
    {
      var v :| v in cfg.cat.secrets && v in env && env[v] != "" && Resolve(cfg.dir, env[v]) == p;
      CommitValue(cfg, i, settings, written, tiers, lines, env, v);
      if v in written {
        ResolveName(cfg.dir, written[v].name);
      }
    }
  }

  lemma CommitReads(cfg: Config, i: nat, read: string, written: map<string, Path>, tiers: Option<set<string>>,
    lines: seq<SettingsLine>, env: Env)
    requires cfg.Valid() && i < |cfg.saves| && ReadSettings(read).Ok?
    requires IsCommit(cfg, i, read, written, tiers, lines, env)
    ensures LooseOf(cfg, Some(Print(lines))) == env
  {
    MergedIsLoose(cfg.cat, cfg.process, lines);
    ReadsBack(lines);
  }

  lemma ReplaceKeeps(cfg: Config, s: State, i: nat)
    requires cfg.Valid() && Inv(cfg, s) && s.lock == Some(i) && s.phases[i].Replacing?
    ensures Inv(cfg, DoReplace(s, i).value)
  {
    var p := s.phases[i];
    var t := DoReplace(s, i).value;
    assert PhaseIs(cfg, s, i);
    CommitNames(cfg, i, s.settings, p.written, p.tiers, p.lines, p.env);
    CommitReads(cfg, i, p.read, p.written, p.tiers, p.lines, p.env);
    EqualAfterDrop(cfg, i, p.read, p.written, p.checked, p.tiers, p.lines, p.env);
    assert IsCurrent(cfg, t, p.env) && EqualBut(cfg, p.checked, p.env, p.tiers);
    assert NamedNow(cfg, t) <= NamedNow(cfg, s) + p.written.Values <= s.files.Keys;
    OnlyPhase(s, t, i);
  }

  lemma EqualAfterDrop(
    cfg: Config, i: nat, read: string, written: map<string, Path>, checked: Env, tiers: Option<set<string>>,
    lines: seq<SettingsLine>, env: Env)
    requires cfg.Valid() && i < |cfg.saves| && ReadSettings(read).Ok?
    requires IsChecked(cfg, i, read, written, checked) && IsCommit(cfg, i, read, written, tiers, lines, env)
    ensures EqualBut(cfg, checked, env, tiers)
  {
    ReadsDistinct(read, 1, []);
    CheckedIsCommitted(cfg.cat, cfg.process, cfg.saves[i], ReadSettings(read).value, Texts(cfg.dir, written), tiers);
  }

  lemma UndoKeeps(cfg: Config, s: State, i: nat, path: Path)
    requires cfg.Valid() && Inv(cfg, s) && s.lock == Some(i) && DoUndo(s, i, path).Some?
    ensures Inv(cfg, DoUndo(s, i, path).value)
  {
    var t := DoUndo(s, i, path).value;
    assert t.files - t.phases[i].left == s.files - s.phases[i].left;
    OnlyPhase(s, t, i);
  }

  lemma DeleteKeeps(cfg: Config, s: State, i: nat, path: Path)
    requires cfg.Valid() && Inv(cfg, s) && s.lock == Some(i) && DoDelete(s, i, path).Some?
    ensures Inv(cfg, DoDelete(s, i, path).value)
  {
    OnlyPhase(s, DoDelete(s, i, path).value, i);
  }

  lemma EndKeeps(cfg: Config, s: State, i: nat, a: Action)
    requires cfg.Valid() && Inv(cfg, s) && s.lock == Some(i) && DoEnd(s, i, a).Some?
    ensures Inv(cfg, DoEnd(s, i, a).value)
  {
    OnlyPhase(s, DoEnd(s, i, a).value, i);
  }

  lemma SwapKeeps(cfg: Config, s: State, i: nat)
    requires cfg.Valid() && Inv(cfg, s) && s.lock == Some(i) && DoSwap(cfg, s, i).Some?
    ensures Inv(cfg, DoSwap(cfg, s, i).value)
  {
    OnlyPhase(s, DoSwap(cfg, s, i).value, i);
  }

  lemma FailKeeps(cfg: Config, s: State, i: nat, outcome: Outcome, allowed: bool)
    requires cfg.Valid() && Inv(cfg, s) && s.lock == Some(i) && DoFail(s, i, outcome, allowed).Some?
    requires s.phases[i].Writing? || s.phases[i].Checking? || s.phases[i].Replacing?
    ensures Inv(cfg, DoFail(s, i, outcome, allowed).value)
  {
    UndoForKeeps(cfg, s, i, outcome);
  }

  lemma AcquireKeeps(cfg: Config, s: State, i: nat)
    requires cfg.Valid() && Inv(cfg, s) && i < |s.phases| && DoAcquire(s, i).Some?
    ensures Inv(cfg, DoAcquire(s, i).value)
  {
    OnlyPhase(s, DoAcquire(s, i).value, i);
  }

  lemma PassKeeps(cfg: Config, s: State, i: nat, tiers: Option<set<string>>)
    requires cfg.Valid() && Inv(cfg, s) && s.lock == Some(i) && s.phases[i].Checking?
    ensures var p := s.phases[i]; Inv(cfg, To(s, i, Rechecking(p.read, p.written, p.checked, tiers)))
  {
    var p := s.phases[i];
    OnlyPhase(s, To(s, i, Rechecking(p.read, p.written, p.checked, tiers)), i);
  }

  lemma EditKeeps(cfg: Config, s: State, text: Option<string>)
    requires cfg.Valid() && Inv(cfg, s) && Polite(cfg, s, HandEdit(text))
    ensures Inv(cfg, s.(settings := text))
  {
  }

  /** Only the save that holds the lock takes a step of its own. */
  lemma OnlyHolderSteps(cfg: Config, s: State, a: Action)
    requires cfg.Valid() && Inv(cfg, s) && Next(cfg, s, a).Some? && !a.HandEdit? && !a.Acquire?
    ensures a.i < |s.phases| && s.lock == Some(a.i)
  {
    assert Active(s.phases[a.i]);
  }

  /** One step keeps the invariant. */
  lemma StepKeeps(cfg: Config, s: State, a: Action)
    requires cfg.Valid() && Inv(cfg, s) && Polite(cfg, s, a) && Next(cfg, s, a).Some?
    ensures Inv(cfg, Next(cfg, s, a).value)
  {
    if !a.HandEdit? && !a.Acquire? {
      OnlyHolderSteps(cfg, s, a);
    }
    match a {
      case HandEdit(text) => EditKeeps(cfg, s, text);
      case Acquire(i) => AcquireKeeps(cfg, s, i);
      case Read(i) => ReadKeeps(cfg, s, i);
      case WriteKey(i, token) => WriteKeeps(cfg, s, i, token);
      case WriteFails(i, outcome) => FailKeeps(cfg, s, i, outcome, s.phases[i].Writing? && s.phases[i].todo != []);
      case Merge(i) => MergeKeeps(cfg, s, i);
      case CheckFails(i, outcome) => FailKeeps(cfg, s, i, outcome, s.phases[i].Checking?);
      case CheckPasses(i, tiers) => PassKeeps(cfg, s, i, tiers);
      case Recheck(i) => RecheckKeeps(cfg, s, i);
      case Replace(i) => ReplaceKeeps(cfg, s, i);
      case ReplaceFails(i, outcome) => FailKeeps(cfg, s, i, outcome, s.phases[i].Replacing?);
      case Undo(i, path) => UndoKeeps(cfg, s, i, path);
      case Swap(i) => SwapKeeps(cfg, s, i);
      case Delete(i, path) => DeleteKeeps(cfg, s, i, path);
      case _ => EndKeeps(cfg, s, a.i, a);
    }
  }

  // ---- Runs ----

  /** A run: each step is allowed, and each hand edit is polite. */
  ghost predicate Run(cfg: Config, s: State, acts: seq<Action>, t: State)
    requires cfg.Valid()
    decreases |acts|
  {
    if acts == [] then s == t
    else
      && Polite(cfg, s, acts[0]) && Next(cfg, s, acts[0]).Some?
      && Run(cfg, Next(cfg, s, acts[0]).value, acts[1..], t)
  }

  lemma {:induction false} RunKeeps(cfg: Config, s: State, acts: seq<Action>, t: State)
    requires cfg.Valid() && Inv(cfg, s) && Run(cfg, s, acts, t)
    ensures Inv(cfg, t)
    decreases |acts|
  {
    if acts != [] {
      StepKeeps(cfg, s, acts[0]);
      RunKeeps(cfg, Next(cfg, s, acts[0]).value, acts[1..], t);
    }
  }

  /**
   Key safety. After any interleaving of saves, failures and hand edits, each
   key variable of the merged mapping names a file that exists, and at most
   one save runs.
   */
  lemma KeySafety(cfg: Config, s: State, acts: seq<Action>, t: State)
    requires cfg.Valid() && Start(cfg, s) && Run(cfg, s, acts, t)
    ensures NamedNow(cfg, t) <= t.files.Keys
    ensures forall i, j | 0 <= i < |t.phases| && 0 <= j < |t.phases| && Active(t.phases[i]) && Active(t.phases[j]) :: i == j
  {
    assert Inv(cfg, s);
    RunKeeps(cfg, s, acts, t);
  }

  /**
   Each delete of any run takes a file that the mapping does not name and that
   no other save has written and not yet committed.
   */
  lemma DeleteSafety(cfg: Config, s: State, acts: seq<Action>, t: State, a: Action, path: Path)
    requires cfg.Valid() && Start(cfg, s) && Run(cfg, s, acts, t)
    requires Polite(cfg, t, a) && Next(cfg, t, a).Some?
    requires path in t.files && path !in Next(cfg, t, a).value.files
    ensures path !in NamedNow(cfg, t) && IsKeyPath(cfg.cat, path)
    ensures !a.HandEdit? && a.i < |t.phases| && forall j | 0 <= j < |t.phases| && j != a.i :: path !in Owned(t.phases[j])
    ensures path in Owned(t.phases[a.i]) || path in UnusedKeyFiles(cfg.cat, cfg.dir, t.files, LooseOf(cfg, t.settings))
  {
    assert Inv(cfg, s);
    RunKeeps(cfg, s, acts, t);
    DeletesAre(cfg, t, a, path);
    OnlyHolderSteps(cfg, t, a);
    OthersOwnNothing(cfg, t, a.i);
    assert PhaseIs(cfg, t, a.i);
  }

  lemma OthersOwnNothing(cfg: Config, t: State, i: nat)
    requires cfg.Valid() && Inv(cfg, t) && t.lock == Some(i)
    ensures forall j | 0 <= j < |t.phases| && j != i :: Owned(t.phases[j]) == {}
  {
    hide PhaseIs, NamedNow;
    forall j | 0 <= j < |t.phases| && j != i ensures Owned(t.phases[j]) == {} {
      assert !Active(t.phases[j]);
    }
  }

  /** Two steps delete a file: one of an undo, and one of a cleanup. */
  lemma DeletesAre(cfg: Config, s: State, a: Action, path: Path)
    requires cfg.Valid() && Inv(cfg, s) && Next(cfg, s, a).Some?
    requires path in s.files && path !in Next(cfg, s, a).value.files
    ensures a == Undo(a.i, path) || a == Delete(a.i, path)
    ensures a.i < |s.phases|
    ensures a.Undo? ==> s.phases[a.i].Undoing? && path in s.phases[a.i].left
    ensures a.Delete? ==> s.phases[a.i].Cleaning? && path in s.phases[a.i].left
  {
    hide LinesAfter, MergedEnv, ReadSettings, UnusedKeys, Writable, Accepted, SavedKeys, Print, UnusedKeyFiles, KeyPath;
    match a {
      case Undo(i, p) =>
      case Delete(i, p) =>
      case _ =>
    }
  }

  /** A cleanup that ends leaves no file of the form of a key file that the mapping does not name. */
  lemma CleanupIsComplete(cfg: Config, s: State, acts: seq<Action>, t: State, i: nat)
    requires cfg.Valid() && Start(cfg, s) && Run(cfg, s, acts, t)
    requires Next(cfg, t, CleanEnds(i)).Some?
    ensures forall path | path in Next(cfg, t, CleanEnds(i)).value.files && IsKeyPath(cfg.cat, path) ::
              path in NamedNow(cfg, Next(cfg, t, CleanEnds(i)).value)
  {
    assert Inv(cfg, s);
    RunKeeps(cfg, s, acts, t);
    CleanEndIs(cfg, t, i);
    NoneUnused(cfg, t);
    assert NamedNow(cfg, Next(cfg, t, CleanEnds(i)).value) == NamedNow(cfg, t);
  }

  lemma CleanEndIs(cfg: Config, t: State, i: nat)
    requires cfg.Valid() && Inv(cfg, t) && Next(cfg, t, CleanEnds(i)).Some?
    ensures UnusedKeyFiles(cfg.cat, cfg.dir, t.files, LooseOf(cfg, t.settings)) == {}
    ensures i < |t.phases| && t.phases[i].Cleaning? && Next(cfg, t, CleanEnds(i)) == Some(End(t, i, Saved))
    ensures Next(cfg, t, CleanEnds(i)).value.files == t.files && Next(cfg, t, CleanEnds(i)).value.settings == t.settings
  {
    hide LooseOf, UnusedKeyFiles, AfterRead, AfterMerge, AfterRecheck, ReadSettings;
    OnlyHolderSteps(cfg, t, CleanEnds(i));
    CleaningIs(cfg, t, i);
    EndIs(t, i);
    assert Next(cfg, t, CleanEnds(i)) == DoEnd(t, i, CleanEnds(i));
  }

  lemma EndIs(t: State, i: nat)
    requires i < |t.phases| && DoEnd(t, i, CleanEnds(i)).Some?
    ensures t.phases[i].Cleaning? && t.phases[i].left == {}
    ensures DoEnd(t, i, CleanEnds(i)) == Some(End(t, i, Saved))
  {
  }

  lemma CleaningIs(cfg: Config, t: State, i: nat)
    requires cfg.Valid() && Inv(cfg, t) && t.lock == Some(i) && t.phases[i].Cleaning?
    ensures t.phases[i].left == UnusedKeyFiles(cfg.cat, cfg.dir, t.files, LooseOf(cfg, t.settings))
  {
    assert PhaseIs(cfg, t, i);
  }

  lemma NoneUnused(cfg: Config, t: State)
    requires UnusedKeyFiles(cfg.cat, cfg.dir, t.files, LooseOf(cfg, t.settings)) == {}
    ensures forall path | path in t.files && IsKeyPath(cfg.cat, path) :: path in NamedNow(cfg, t)
  {
    forall path | path in t.files && IsKeyPath(cfg.cat, path) ensures path in NamedNow(cfg, t) {
      assert path in UnusedKeyFiles(cfg.cat, cfg.dir, t.files, LooseOf(cfg, t.settings)) || path in NamedNow(cfg, t);
    }
  }
}
