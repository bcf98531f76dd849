/** When a save that no rule refuses goes on to its check and to its replace. */
module SaveProgress {
  import opened Results
  import opened SettingsFile
  import opened SettingsLines
  import opened SaveRules
  import opened KeyFiles
  import opened SaveProtocol

  // ---- The loader and the saved lines ----

  /** The loader takes a line: this version reads it, nothing shadows it, and its value keeps the rule. */
  predicate Loads(cat: Catalog, process: Env, variable: string, value: string) {
    variable in cat.known && variable !in process && IsValue(value)
  }

  /** No change names the variable, and neither a removal nor a drop takes its line. */
  ghost predicate Survives(cat: Catalog, save: Save, drop: set<string>, variable: string) {
    && variable !in drop && variable !in save.remove
    && forall c | c in save.changes && c.key in cat.settings :: cat.settings[c.key].variable != Some(variable)
  }

  ghost predicate ProcessLoads(cat: Catalog, process: Env) {
    forall v | v in process && v in cat.known :: IsValue(process[v])
  }

  ghost predicate LinesLoad(cat: Catalog, process: Env, lines: seq<SettingsLine>) {
    forall i | 0 <= i < |lines| :: Loads(cat, process, lines[i].variable, lines[i].value)
  }

  lemma MergedIs(cat: Catalog, process: Env, lines: seq<SettingsLine>)
    ensures MergedEnv(cat, process, lines).Some? <==> ProcessLoads(cat, process) && LinesLoad(cat, process, lines)
  {
    hide IsValue;
  }

  ghost predicate ValuesLoad(cat: Catalog, process: Env, values: Env) {
    forall v | v in values :: Loads(cat, process, v, values[v])
  }

  lemma LinesLoadWhen(cat: Catalog, process: Env, lines: seq<SettingsLine>, values: Env)
    requires forall v :: v in values <==> exists i :: 0 <= i < |lines| && lines[i].variable == v
    requires forall i | 0 <= i < |lines| :: lines[i].variable in values && values[lines[i].variable] == lines[i].value
    ensures LinesLoad(cat, process, lines) <==> ValuesLoad(cat, process, values)
  {
    if LinesLoad(cat, process, lines) {
      forall v | v in values ensures Loads(cat, process, v, values[v]) {
        var i :| 0 <= i < |lines| && lines[i].variable == v;
      }
    }
  }

  lemma MergedWhen(cat: Catalog, process: Env, lines: seq<SettingsLine>)
    requires Distinct(lines)
    ensures MergedEnv(cat, process, lines).Some? <==>
              ProcessLoads(cat, process) && ValuesLoad(cat, process, LineValues(lines))
  {
    MergedIs(cat, process, lines);
    LinesHold(lines);
    LinesLoadWhen(cat, process, lines, LineValues(lines));
  }

  /** A change that no rule refuses leaves a line that loads, or none; its variable is the one of its setting. */
  lemma ChangeLoads(cat: Catalog, process: Env, at: nat, change: Change, written: Env)
    requires cat.Valid() && ChangeRefusal(cat, process, at, change).None? && EffectOf(cat, written, change).Ok?
    requires forall v | v in written :: IsValue(written[v])
    ensures var e := EffectOf(cat, written, change).value;
            && change.key in cat.settings && cat.settings[change.key].variable == Some(e.variable)
            && (e.value.Some? ==> Loads(cat, process, e.variable, e.value.value))
  {
  }

  lemma ChangesLoad(cat: Catalog, process: Env, save: Save, written: Env, drop: set<string>, v: string)
    requires cat.Valid() && (forall i | 0 <= i < |save.changes| :: ChangeRefusal(cat, process, i, save.changes[i]).None?)
    requires Effects(cat, written, save.changes).Ok? && forall u | u in written :: IsValue(written[u])
    ensures var effects := Effects(cat, written, save.changes).value;
            && (forall i | 0 <= i < |effects| && effects[i].value.Some? :: Loads(cat, process, effects[i].variable, effects[i].value.value))
            && ((exists i :: 0 <= i < |effects| && effects[i].variable == v) <==>
                exists c :: c in save.changes && c.key in cat.settings && cat.settings[c.key].variable == Some(v))
  {
    EffectsAre(cat, written, save.changes);
    var effects := Effects(cat, written, save.changes).value;
    hide EffectOf, ChangeRefusal, Loads;
    forall i | 0 <= i < |effects|
      ensures effects[i].value.Some? ==> Loads(cat, process, effects[i].variable, effects[i].value.value)
      ensures save.changes[i].key in cat.settings && cat.settings[save.changes[i].key].variable == Some(effects[i].variable)
    {
      assert EffectOf(cat, written, save.changes[i]) == Ok(effects[i]);
      ChangeLoads(cat, process, i, save.changes[i], written);
    }
    if c :| c in save.changes && c.key in cat.settings && cat.settings[c.key].variable == Some(v) {
      var i :| 0 <= i < |save.changes| && save.changes[i] == c;
      assert effects[i].variable == v;
    }
  }

  /**
   The loader takes the lines of a save that no rule refuses exactly where it
   takes each line that survives the save, and the process environment holds no
   value against the rule.
   */
  lemma AcceptedMergesWhen(cat: Catalog, process: Env, save: Save, lines: seq<SettingsLine>, written: Env, drop: set<string>)
    requires cat.Valid() && save.Valid() && Distinct(lines) && Accepted(cat, process, save, lines)
    requires written.Keys == KeyVariables(SavedKeys(cat, save.changes)) && forall v | v in written :: IsValue(written[v])
    ensures SavedForm(cat, lines, save, written, drop).Ok?
    ensures MergedEnv(cat, process, SavedForm(cat, lines, save, written, drop).value).Some? <==>
              && (forall v | v in process && v in cat.known :: IsValue(process[v]))
              && forall i | 0 <= i < |lines| && Survives(cat, save, drop, lines[i].variable) ::
                   Loads(cat, process, lines[i].variable, lines[i].value)
  {
    AcceptedHasLines(cat, process, save, lines, written);
    SavedLinesAre(cat, save, lines, written, drop);
    var saved := SavedForm(cat, lines, save, written, drop).value;
    var effects := Effects(cat, written, save.changes).value;
    MergedWhen(cat, process, saved);
    LineValuesAre(lines);
    hide MergedEnv, Accepted, SavedForm, Effects, SavedDict, Loads, Survives;
    if forall i | 0 <= i < |lines| && Survives(cat, save, drop, lines[i].variable) :: Loads(cat, process, lines[i].variable, lines[i].value) {
      var values := LineValues(saved);
      forall v | v in values ensures Loads(cat, process, v, values[v]) {
        LineLoads(cat, process, save, lines, written, drop, v);
      }
    }
    forall i | 0 <= i < |lines| && Survives(cat, save, drop, lines[i].variable)
      ensures lines[i].variable in LineValues(saved) && LineValues(saved)[lines[i].variable] == lines[i].value
    {
      SurvivorStays(cat, process, save, lines, written, drop, i);
    }
  }

  lemma LineLoads(cat: Catalog, process: Env, save: Save, lines: seq<SettingsLine>, written: Env, drop: set<string>, v: string)
    requires cat.Valid() && save.Valid() && Distinct(lines) && Accepted(cat, process, save, lines)
    requires Effects(cat, written, save.changes).Ok? && forall u | u in written :: IsValue(written[u])
    requires forall i | 0 <= i < |lines| && Survives(cat, save, drop, lines[i].variable) ::
               Loads(cat, process, lines[i].variable, lines[i].value)
    requires v in SavedDict(lines, save.Removed(), Effects(cat, written, save.changes).value, drop).values
    ensures Loads(cat, process, v, SavedDict(lines, save.Removed(), Effects(cat, written, save.changes).value, drop).values[v])
  {
    var effects := Effects(cat, written, save.changes).value;
    EffectsDistinct(cat, written, save.changes);
    SavedLookup(lines, save.Removed(), effects, drop, v);
    ChangesLoad(cat, process, save, written, drop, v);
    LinesHold(lines);
    hide SavedDict, Effects, Loads, ChangeRefusal;
    if !exists i :: 0 <= i < |effects| && effects[i].variable == v && effects[i].value.Some? {
      assert v !in Resets(effects);
      assert Survives(cat, save, drop, v);
      var i :| 0 <= i < |lines| && lines[i].variable == v;
    }
  }

  lemma SurvivorStays(cat: Catalog, process: Env, save: Save, lines: seq<SettingsLine>, written: Env, drop: set<string>, i: nat)
    requires cat.Valid() && save.Valid() && Distinct(lines) && Accepted(cat, process, save, lines)
    requires Effects(cat, written, save.changes).Ok? && forall u | u in written :: IsValue(written[u])
    requires i < |lines| && Survives(cat, save, drop, lines[i].variable)
    ensures var values := SavedDict(lines, save.Removed(), Effects(cat, written, save.changes).value, drop).values;
            lines[i].variable in values && values[lines[i].variable] == lines[i].value
  {
    var effects := Effects(cat, written, save.changes).value;
    EffectsDistinct(cat, written, save.changes);
    SavedLookup(lines, save.Removed(), effects, drop, lines[i].variable);
    ChangesLoad(cat, process, save, written, drop, lines[i].variable);
    LineValuesAre(lines);
  }

  // ---- The steps of a save ----

  /**
   A save that has the lock goes on to write its keys exactly where the file reads,
   holds what the page showed, and the rules take the body. Otherwise it ends at once
   and lets the lock go, with a conflict where the file reads and holds something else.
   */
  lemma ReadGoesOn(cfg: Config, s: State, i: nat)
    requires i < |s.phases| == |cfg.saves|
    ensures var text, save, t := Text(s.settings), cfg.saves[i], AfterRead(cfg, s, i);
            && t.settings == s.settings && t.files == s.files && t.deployed == s.deployed && t.phases == s.phases[i := t.phases[i]]
            && (t.phases[i].Writing? <==>
                 && ReadSettings(text).Ok? && save.revision == text
                 && (forall c | c in save.changes :: Takes(cfg.cat, cfg.process, c))
                 && forall v | v in save.remove :: v !in cfg.cat.known && v in Variables(ReadSettings(text).value))
            && (if t.phases[i].Writing?
                then t.phases[i] == Writing(text, SavedKeys(cfg.cat, save.changes), map[]) && t.lock == s.lock
                else t.lock == None
                     && t.phases[i] == Done(if ReadSettings(text).Ok? && save.revision != text then Conflict else Refused))
  {
    var text := Text(s.settings);
    if ReadSettings(text).Ok? {
      AcceptedWhen(cfg.cat, cfg.process, cfg.saves[i], ReadSettings(text).value);
      hide Accepted, Takes, ReadSettings;
      var lines := ReadSettings(text).value;
      assert forall v :: v in Variables(lines) <==> exists k :: 0 <= k < |lines| && lines[k].variable == v;
    }
  }

  /** The lines of a save that has written all its keys, and when the loader takes them. */
  lemma WrittenLinesMerge(cfg: Config, i: nat, read: string, written: map<string, Path>)
    requires cfg.Valid() && i < |cfg.saves| && ReadIs(cfg, i, read) && AllWritten(cfg, i, written)
    requires forall v | v in written :: IsValue(PathText(cfg.dir, written[v]))
    ensures LinesAfter(cfg, i, read, written, {}).Ok?
    ensures MergedEnv(cfg.cat, cfg.process, LinesAfter(cfg, i, read, written, {}).value).Some? <==>
              && (forall v | v in cfg.process && v in cfg.cat.known :: IsValue(cfg.process[v]))
              && forall line | line in ReadSettings(read).value && Survives(cfg.cat, cfg.saves[i], {}, line.variable) ::
                   Loads(cfg.cat, cfg.process, line.variable, line.value)
  {
    ReadsDistinct(read, 1, []);
    var lines := ReadSettings(read).value;
    hide MergedEnv, Survives, Loads, Accepted, SavedForm;
    AcceptedMergesWhen(cfg.cat, cfg.process, cfg.saves[i], lines, Texts(cfg.dir, written), {});
    assert forall k | 0 <= k < |lines| :: lines[k] in lines;
  }

  /**
   A save that has written its keys goes on to its check exactly where the loader
   takes each surviving line; else it is refused, and never raises.
   */
  lemma MergeGoesOn(cfg: Config, s: State, i: nat)
    requires cfg.Valid() && Inv(cfg, s) && s.lock == Some(i) && s.phases[i].Writing? && s.phases[i].todo == []
    requires forall v | v in s.phases[i].written :: IsValue(PathText(cfg.dir, s.phases[i].written[v]))
    ensures ReadSettings(s.phases[i].read).Ok?
    ensures var p, t := s.phases[i], AfterMerge(cfg, s, i).phases[i];
            && (t.Checking? || t == Undoing(p.written.Values, Refused))
            && (t.Checking? <==>
                 && (forall v | v in cfg.process && v in cfg.cat.known :: IsValue(cfg.process[v]))
                 && forall line | line in ReadSettings(p.read).value && Survives(cfg.cat, cfg.saves[i], {}, line.variable) ::
                      Loads(cfg.cat, cfg.process, line.variable, line.value))
  {
    var p := s.phases[i];
    assert PhaseIs(cfg, s, i);
    assert KeyVariables([]) == {};
    assert ReadIs(cfg, i, p.read) && AllWritten(cfg, i, p.written);
    hide PhaseIs, Inv, ReadIs, AllWritten, LinesAfter, MergedEnv, Survives, Loads;
    WrittenLinesMerge(cfg, i, p.read, p.written);
  }

  /** What the check accepted gives lines that the loader takes, also without the dropped key lines. */
  lemma CheckedLinesMerge(cfg: Config, i: nat, read: string, written: map<string, Path>, checked: Env, tiers: Option<set<string>>)
    requires cfg.Valid() && i < |cfg.saves| && ReadSettings(read).Ok? && IsChecked(cfg, i, read, written, checked)
    ensures var lines := LinesAfter(cfg, i, read, written, UnusedKeys(cfg.cat, tiers));
            lines.Ok? && MergedEnv(cfg.cat, cfg.process, lines.value).Some?
  {
    ReadsDistinct(read, 1, []);
    hide MergedEnv, Effects;
    CheckedIsCommitted(cfg.cat, cfg.process, cfg.saves[i], ReadSettings(read).value, Texts(cfg.dir, written), tiers);
  }

  /**
   A save whose check passed goes on to its replace exactly where the file still
   holds what the save read and the new lines can be written. A file that changed
   and still reads is a conflict; nothing that the check accepted is refused by
   the loader now, and nothing raises.
   */
  lemma RecheckGoesOn(cfg: Config, s: State, i: nat)
    requires cfg.Valid() && Inv(cfg, s) && s.lock == Some(i) && s.phases[i].Rechecking?
    ensures ReadSettings(s.phases[i].read).Ok?
    ensures var p, t := s.phases[i], AfterRecheck(cfg, s, i).phases[i];
            var lines := LinesAfter(cfg, i, p.read, p.written, UnusedKeys(cfg.cat, p.tiers));
            && lines.Ok?
            && (t.Replacing? <==> Text(s.settings) == p.read && Writable(lines.value))
            && (t.Replacing? ==> t.lines == lines.value)
            && (t == Undoing(p.written.Values, Conflict) <==> Text(s.settings) != p.read && ReadSettings(Text(s.settings)).Ok?)
            && (t.Replacing? || t == Undoing(p.written.Values, Conflict) || t == Undoing(p.written.Values, Refused))
  {
    var p := s.phases[i];
    assert PhaseIs(cfg, s, i);
    assert ReadSettings(p.read).Ok? && IsChecked(cfg, i, p.read, p.written, p.checked);
    hide PhaseIs, Inv, IsChecked, LinesAfter, MergedEnv, UnusedKeys, Accepted, Writable, Named, LooseOf, ReadSettings;
    CheckedLinesMerge(cfg, i, p.read, p.written, p.checked, p.tiers);
  }

  // ---- No save is stuck ----

  /** The step is open to save `i`, and takes it to this phase. */
  ghost predicate Opens(cfg: Config, s: State, a: Action, i: nat, phase: Phase)
    requires cfg.Valid() && i < |s.phases|
  {
    Next(cfg, s, a).Some? && Next(cfg, s, a).value.phases == s.phases[i := phase]
  }

  /**
   The step that leads on from each phase, whatever the save is asked: the lock for a
   waiting one, a new file for each key that is left, the merge, a check that passes,
   the second revision check, the replace, the swap, and each delete up to the end.
   */
  ghost predicate GoesOn(cfg: Config, s: State, i: nat)
    requires cfg.Valid() && i < |s.phases| == |cfg.saves|
  {
    match s.phases[i]
    case Waiting => s.lock == None ==> Opens(cfg, s, Acquire(i), i, Reading)
    case Reading => Opens(cfg, s, Read(i), i, AfterRead(cfg, s, i).phases[i])
    case Writing(read, todo, written) =>
      ReadSettings(read).Ok?
      && if todo == [] then Opens(cfg, s, Merge(i), i, AfterMerge(cfg, s, i).phases[i]) else forall token :: WritesNext(cfg, s, i, token)
    case Checking(read, written, checked) =>
      forall tiers :: Opens(cfg, s, CheckPasses(i, tiers), i, Rechecking(read, written, checked, tiers))
    case Rechecking(read, _, _, _) =>
      ReadSettings(read).Ok? && Opens(cfg, s, Recheck(i), i, AfterRecheck(cfg, s, i).phases[i])
    case Replacing(_, _, checked, tiers, _, env) => Opens(cfg, s, Replace(i), i, Swapping(checked, tiers, env))
    case Swapping(_, _, env) => Opens(cfg, s, Swap(i), i, Cleaning(env, UnusedKeyFiles(cfg.cat, cfg.dir, s.files, env)))
    case Cleaning(env, left) =>
      if left == {} then Opens(cfg, s, CleanEnds(i), i, Done(Saved))
      else forall path | path in left :: Opens(cfg, s, Delete(i, path), i, Cleaning(env, left - {path}))
    case Undoing(left, outcome) =>
      if left == {} then Opens(cfg, s, UndoEnds(i), i, Done(outcome))
      else forall path | path in left :: Opens(cfg, s, Undo(i, path), i, Undoing(left - {path}, outcome))
    case Done(_) => true
  }

  /** With a token that names no file yet, the next key can be written. */
  ghost predicate WritesNext(cfg: Config, s: State, i: nat, token: string)
    requires cfg.Valid() && i < |s.phases| && s.phases[i].Writing? && s.phases[i].todo != []
  {
    var p := s.phases[i];
    var path := KeyPath(p.todo[0], token);
    IsToken(token) && path !in s.files ==>
      Opens(cfg, s, WriteKey(i, token), i, Writing(p.read, p.todo[1..], p.written[p.todo[0].variable := path]))
  }

  lemma NeverStuck(cfg: Config, s: State, i: nat)
    requires cfg.Valid() && Inv(cfg, s) && i < |s.phases|
    ensures |s.phases| == |cfg.saves| && GoesOn(cfg, s, i)
  {
    HolderReads(cfg, s, i);
    match s.phases[i]
    case Reading => ReadIsOpen(cfg, s, i);
    case Writing(_, _, _) => WriteIsOpen(cfg, s, i);
    case Checking(_, _, _) => CheckIsOpen(cfg, s, i);
    case Rechecking(_, _, _, _) => RecheckIsOpen(cfg, s, i);
    case _ => EndIsOpen(cfg, s, i);
  }

  /**
   And each failure can come: a key that cannot be written, a check or a replace that
   fails, which undo the save's own files; a delete of the undo, which raises; and the
   listing or a delete of the cleanup, which do not unmake the save.
   */
  lemma FailuresCome(cfg: Config, s: State, i: nat, outcome: Outcome)
    requires cfg.Valid() && i < |s.phases| == |cfg.saves| && outcome != Saved
    ensures match s.phases[i]
            case Writing(_, todo, written) => todo != [] ==> Opens(cfg, s, WriteFails(i, outcome), i, Undoing(written.Values, outcome))
            case Checking(_, written, _) => Opens(cfg, s, CheckFails(i, outcome), i, Undoing(written.Values, outcome))
            case Replacing(_, written, _, _, _, _) => Opens(cfg, s, ReplaceFails(i, outcome), i, Undoing(written.Values, outcome))
            case Undoing(left, _) => left != {} ==> Opens(cfg, s, UndoFails(i), i, Done(Raised))
            case Swapping(checked, _, _) =>
              Opens(cfg, s, ListFails(i), i, Done(Saved)) && Next(cfg, s, ListFails(i)).value.deployed == Some(checked)
            case Cleaning(_, left) => left != {} ==> Opens(cfg, s, DeleteFails(i), i, Done(Saved))
            case _ => true
  {
    hide LinesAfter, MergedEnv, ReadSettings, UnusedKeys, Writable, Accepted, SavedKeys, Print, UnusedKeyFiles, KeyPath, NamedNow,
         Uncommitted, WrittenIs, TodoIs, IsCurrent, EqualBut, IsToken, AfterRead, AfterMerge, AfterRecheck;
  }

  lemma HolderReads(cfg: Config, s: State, i: nat)
    requires cfg.Valid() && Inv(cfg, s) && i < |s.phases|
    ensures |s.phases| == |cfg.saves|
    ensures s.phases[i].Writing? || s.phases[i].Rechecking? ==> ReadSettings(s.phases[i].read).Ok?
  {
    assert Active(s.phases[i]) ==> PhaseIs(cfg, s, i);
  }

  lemma ReadIsOpen(cfg: Config, s: State, i: nat)
    requires cfg.Valid() && i < |s.phases| == |cfg.saves| && s.phases[i].Reading?
    ensures GoesOn(cfg, s, i)
  {
    ReadGoesOn(cfg, s, i);
    hide LinesAfter, MergedEnv, ReadSettings, UnusedKeys, Writable, Accepted, SavedKeys, Print, UnusedKeyFiles, KeyPath, NamedNow,
         Uncommitted, WrittenIs, TodoIs, IsCurrent, EqualBut, IsToken, AfterRead, AfterMerge, AfterRecheck;
  }

  lemma WriteIsOpen(cfg: Config, s: State, i: nat)
    requires cfg.Valid() && i < |s.phases| == |cfg.saves| && s.phases[i].Writing? && ReadSettings(s.phases[i].read).Ok?
    ensures GoesOn(cfg, s, i)
  {
    MergeTouches(cfg, s, i);
    hide LinesAfter, MergedEnv, ReadSettings, UnusedKeys, Writable, Accepted, SavedKeys, Print, UnusedKeyFiles, KeyPath, NamedNow,
         Uncommitted, WrittenIs, TodoIs, IsCurrent, EqualBut, IsToken, AfterRead, AfterMerge, AfterRecheck;
  }

  lemma MergeTouches(cfg: Config, s: State, i: nat)
    requires cfg.Valid() && i < |s.phases| == |cfg.saves| && s.phases[i].Writing? && ReadSettings(s.phases[i].read).Ok?
    ensures AfterMerge(cfg, s, i).phases == s.phases[i := AfterMerge(cfg, s, i).phases[i]]
  {
    hide LinesAfter, MergedEnv, ReadSettings;
  }

  lemma CheckIsOpen(cfg: Config, s: State, i: nat)
    requires cfg.Valid() && i < |s.phases| == |cfg.saves| && s.phases[i].Checking?
    ensures GoesOn(cfg, s, i)
  {
    hide LinesAfter, MergedEnv, ReadSettings, UnusedKeys, Writable, Accepted, SavedKeys, Print, UnusedKeyFiles, KeyPath, NamedNow,
         Uncommitted, WrittenIs, TodoIs, IsCurrent, EqualBut, IsToken, AfterRead, AfterMerge, AfterRecheck;
  }

  lemma RecheckIsOpen(cfg: Config, s: State, i: nat)
    requires cfg.Valid() && i < |s.phases| == |cfg.saves| && s.phases[i].Rechecking? && ReadSettings(s.phases[i].read).Ok?
    ensures GoesOn(cfg, s, i)
  {
    RecheckTouches(cfg, s, i);
    hide LinesAfter, MergedEnv, ReadSettings, UnusedKeys, Writable, Accepted, SavedKeys, Print, UnusedKeyFiles, KeyPath, NamedNow,
         Uncommitted, WrittenIs, TodoIs, IsCurrent, EqualBut, IsToken, AfterRead, AfterMerge, AfterRecheck;
  }

  lemma RecheckTouches(cfg: Config, s: State, i: nat)
    requires cfg.Valid() && i < |s.phases| == |cfg.saves| && s.phases[i].Rechecking? && ReadSettings(s.phases[i].read).Ok?
    ensures AfterRecheck(cfg, s, i).phases == s.phases[i := AfterRecheck(cfg, s, i).phases[i]]
  {
    hide LinesAfter, MergedEnv, ReadSettings, UnusedKeys, Writable;
  }

  lemma EndIsOpen(cfg: Config, s: State, i: nat)
    requires cfg.Valid() && i < |s.phases| == |cfg.saves|
    requires !s.phases[i].Reading? && !s.phases[i].Writing? && !s.phases[i].Checking? && !s.phases[i].Rechecking?
    ensures GoesOn(cfg, s, i)
  {
    hide LinesAfter, MergedEnv, ReadSettings, UnusedKeys, Writable, Accepted, SavedKeys, Print, UnusedKeyFiles, KeyPath, NamedNow,
         Uncommitted, WrittenIs, TodoIs, IsCurrent, EqualBut, IsToken, AfterRead, AfterMerge, AfterRecheck;
  }
}
