/** What a save leaves behind: each line that it was asked to set, reset, remove or keep, and the text of each key. */
module SaveOutcome {
  import opened Results
  import opened SettingsFile
  import opened SettingsLines
  import opened SaveRules
  import opened KeyFiles
  import opened SaveProtocol
  import opened SaveSafety
  import opened SaveRefinement
  import opened SaveProgress
  import opened SaveDeployment

  // ---- What is asked of the lines ----

  /** The line's value names a file that holds the text. */
  predicate NamesText(dir: string, files: Files, value: string, text: string) {
    value != "" && Resolve(dir, value) in files && files[Resolve(dir, value)] == text
  }

  /**
   A reset variable and a dropped one have no line. A setting that holds no key has
   the change's value, and a key setting the path of a file with the change's text.
   */
  ghost predicate SaysChange(cat: Catalog, dir: string, values: Env, files: Files, drop: set<string>, c: Change) {
    && c.key in cat.settings && cat.settings[c.key].variable.Some?
    && var v := cat.settings[c.key].variable.value;
       if v in drop || c.value.None? then v !in values
       else v in values
            && if v in cat.secrets then NamesText(dir, files, values[v], c.value.value) else values[v] == c.value.value
  }

  /** The lines are the ones read, with each change made, each removal and each drop gone, and every other line as it was. */
  ghost predicate AsAsked(cat: Catalog, dir: string, save: Save, was: seq<SettingsLine>, lines: seq<SettingsLine>,
                          files: Files, drop: set<string>)
  {
    && (forall c | c in save.changes :: SaysChange(cat, dir, LineValues(lines), files, drop, c))
    && (forall v | v in save.remove || v in drop :: v !in LineValues(lines))
    && forall v | Survives(cat, save, drop, v) :: SameLine(lines, was, v)
  }

  // ---- One change ----

  /** Two changes of one save never set one variable. */
  lemma OneChange(cat: Catalog, save: Save, c: Change, d: Change)
    requires cat.Valid() && save.Valid() && c in save.changes && d in save.changes
    requires c.key in cat.settings && d.key in cat.settings && cat.settings[c.key].variable.Some?
    requires cat.settings[c.key].variable == cat.settings[d.key].variable
    ensures c == d
  {
    assert c.key == d.key;
    var i :| 0 <= i < |save.changes| && save.changes[i] == c;
    var j :| 0 <= j < |save.changes| && save.changes[j] == d;
  }

  lemma KeyTextOf(cat: Catalog, save: Save, c: Change, v: string, text: string)
    requires cat.Valid() && save.Valid() && c in save.changes
    requires c.key in cat.settings && cat.settings[c.key].variable == Some(v)
    requires KeyText(v, text) in SavedKeys(cat, save.changes)
    ensures c.value == Some(text)
  {
    var at := KeyTextsAre(cat, save.changes);
    var keys := SavedKeys(cat, save.changes);
    var k :| 0 <= k < |keys| && keys[k] == KeyText(v, text);
    hide SavedKeys;
    assert at[k] in at;
    OneChange(cat, save, c, save.changes[at[k]]);
  }

  /** The value of a variable that a change names, or that it has none. */
  lemma ChangeSays(cat: Catalog, save: Save, was: seq<SettingsLine>, texts: Env, drop: set<string>, c: Change, v: string)
    requires cat.Valid() && save.Valid() && Distinct(was) && Effects(cat, texts, save.changes).Ok?
    requires c in save.changes && c.key in cat.settings && cat.settings[c.key].variable == Some(v)
    ensures var values := SavedDict(was, save.Removed(), Effects(cat, texts, save.changes).value, drop).values;
            if v in drop || c.value.None? then v !in values
            else v in values && if v in cat.secrets then v in texts && values[v] == texts[v] else values[v] == c.value.value
  {
    var effects := Effects(cat, texts, save.changes).value;
    EffectsAre(cat, texts, save.changes);
    EffectsDistinct(cat, texts, save.changes);
    SavedLookup(was, save.Removed(), effects, drop, v);
    var i :| 0 <= i < |save.changes| && save.changes[i] == c;
    assert EffectOf(cat, texts, save.changes[i]) == Ok(effects[i]);
    assert effects[i].variable == v;
    hide SavedDict, Effects;
    assert effects[i].value.None? ==> v in Resets(effects);
    assert forall j | 0 <= j < |effects| && effects[j].variable == v :: j == i;
  }

  lemma RemovedSays(cat: Catalog, process: Env, save: Save, was: seq<SettingsLine>, texts: Env, drop: set<string>, v: string)
    requires cat.Valid() && save.Valid() && Distinct(was) && Effects(cat, texts, save.changes).Ok?
    requires Accepted(cat, process, save, was) && v in save.remove
    ensures v !in SavedDict(was, save.Removed(), Effects(cat, texts, save.changes).value, drop).values
  {
    var effects := Effects(cat, texts, save.changes).value;
    EffectsAre(cat, texts, save.changes);
    EffectsDistinct(cat, texts, save.changes);
    SavedLookup(was, save.Removed(), effects, drop, v);
    var j :| 0 <= j < |save.remove| && save.remove[j] == v;
    hide SavedDict, Effects, Accepted;
    forall i | 0 <= i < |effects| ensures effects[i].variable != v {
      assert EffectOf(cat, texts, save.changes[i]) == Ok(effects[i]);
      RemovalsApart(cat, process, save, was, i, j);
    }
  }

  // ---- The commit ----

  /** The lines that a save is about to write do what was asked, over the files that it wrote. */
  lemma CommitIsAsAsked(cfg: Config, s: State, i: nat)
    requires cfg.Valid() && Inv(cfg, s) && s.lock == Some(i) && s.phases[i].Replacing?
    ensures var p := s.phases[i];
            && Text(s.settings) == p.read && ReadSettings(p.read).Ok?
            && AsAsked(cfg.cat, cfg.dir, cfg.saves[i], ReadSettings(p.read).value, p.lines, s.files, UnusedKeys(cfg.cat, p.tiers))
  {
    var p, save := s.phases[i], cfg.saves[i];
    assert PhaseIs(cfg, s, i);
    var was, texts, drop := ReadSettings(p.read).value, Texts(cfg.dir, p.written), UnusedKeys(cfg.cat, p.tiers);
    ReadsDistinct(p.read, 1, []);
    assert SavedForm(cfg.cat, was, save, texts, drop) == Ok(p.lines);
    assert Accepted(cfg.cat, cfg.process, save, was) && WrittenIs(cfg, s, i, p.written);
    hide PhaseIs, Inv, ReadIs, IsCommit, IsChecked, MergedEnv, UnusedKeys, Accepted, LinesAfter, SavedForm, ReadSettings;
    LinesAsAsked(cfg, s.files, i, was, p.written, drop, p.lines);
  }

  ghost predicate TextsWritten(cfg: Config, files: Files, i: nat, written: map<string, Path>)
    requires i < |cfg.saves|
  {
    forall v | v in written ::
      && written[v] in files && KeyText(v, files[written[v]]) in SavedKeys(cfg.cat, cfg.saves[i].changes)
      && written[v].InDir? && written[v].name != "" && '/' !in written[v].name
  }

  lemma LinesAsAsked(cfg: Config, files: Files, i: nat, was: seq<SettingsLine>, written: map<string, Path>, drop: set<string>, lines: seq<SettingsLine>)
    requires cfg.Valid() && i < |cfg.saves| && Distinct(was) && TextsWritten(cfg, files, i, written)
    requires Accepted(cfg.cat, cfg.process, cfg.saves[i], was)
    requires SavedForm(cfg.cat, was, cfg.saves[i], Texts(cfg.dir, written), drop) == Ok(lines)
    ensures AsAsked(cfg.cat, cfg.dir, cfg.saves[i], was, lines, files, drop)
  {
    var cat, save, texts := cfg.cat, cfg.saves[i], Texts(cfg.dir, written);
    SavedLinesAre(cat, save, was, texts, drop);
    hide SavedForm, Effects, SavedDict, Accepted, Survives, SameLine, SavedKeys;
    forall c | c in save.changes ensures SaysChange(cat, cfg.dir, LineValues(lines), files, drop, c) {
      var k :| 0 <= k < |save.changes| && save.changes[k] == c;
      AcceptedChange(cat, cfg.process, save, was, k);
      var v := cat.settings[c.key].variable.value;
      ChangeSays(cat, save, was, texts, drop, c, v);
      if v in written {
        KeyTextOf(cat, save, c, v, files[written[v]]);
        ResolveName(cfg.dir, written[v].name);
      }
    }
    forall v | v in save.remove || v in drop ensures v !in LineValues(lines) {
      if v in save.remove { RemovedSays(cat, cfg.process, save, was, texts, drop, v); }
      else { DroppedSays(cat, save, was, texts, drop, v); }
    }
    forall v | Survives(cat, save, drop, v) ensures SameLine(lines, was, v) {
      SurvivorIs(cat, save, was, texts, drop, v);
    }
  }

  lemma AcceptedChange(cat: Catalog, process: Env, save: Save, was: seq<SettingsLine>, k: nat)
    requires Accepted(cat, process, save, was) && k < |save.changes|
    ensures save.changes[k].key in cat.settings && cat.settings[save.changes[k].key].variable.Some?
  {
    assert ChangeRefusal(cat, process, k, save.changes[k]).None?;
  }

  lemma DroppedSays(cat: Catalog, save: Save, was: seq<SettingsLine>, texts: Env, drop: set<string>, v: string)
    requires cat.Valid() && save.Valid() && Distinct(was) && Effects(cat, texts, save.changes).Ok? && v in drop
    ensures v !in SavedDict(was, save.Removed(), Effects(cat, texts, save.changes).value, drop).values
  {
    EffectsDistinct(cat, texts, save.changes);
    SavedLookup(was, save.Removed(), Effects(cat, texts, save.changes).value, drop, v);
  }

  // ---- What stays ----

  /** No step changes the text of a file that is there before and after it. */
  lemma TextStays(cfg: Config, s: State, a: Action, path: Path)
    requires cfg.Valid() && Inv(cfg, s) && Next(cfg, s, a).Some?
    requires path in s.files && path in Next(cfg, s, a).value.files
    ensures Next(cfg, s, a).value.files[path] == s.files[path]
  {
    hide LinesAfter, MergedEnv, ReadSettings, UnusedKeys, Writable, Accepted, SavedKeys, Print, UnusedKeyFiles, KeyPath, Inv;
  }

  lemma {:induction false} NamedStays(cfg: Config, s: State, acts: seq<Action>, t: State, path: Path)
    requires cfg.Valid() && Inv(cfg, s) && Run(cfg, s, acts, t) && forall a | a in acts :: KeepsFile(a)
    requires path in NamedNow(cfg, s)
    ensures t.settings == s.settings && path in s.files && path in t.files && t.files[path] == s.files[path]
    decreases |acts|
  {
    if acts != [] {
      assert acts[0] in acts && forall a | a in acts[1..] :: a in acts;
      var next := Next(cfg, s, acts[0]).value;
      OnlyReplaceWrites(cfg, s, acts[0]);
      StepKeeps(cfg, s, acts[0]);
      assert NamedNow(cfg, next) == NamedNow(cfg, s);
      TextStays(cfg, s, acts[0], path);
      NamedStays(cfg, next, acts[1..], t, path);
    }
  }

  lemma {:induction false} SettingsStay(cfg: Config, s: State, acts: seq<Action>, t: State)
    requires cfg.Valid() && Run(cfg, s, acts, t) && forall a | a in acts :: KeepsFile(a)
    ensures t.settings == s.settings
    decreases |acts|
  {
    if acts != [] {
      assert acts[0] in acts && forall a | a in acts[1..] :: a in acts;
      OnlyReplaceWrites(cfg, s, acts[0]);
      SettingsStay(cfg, Next(cfg, s, acts[0]).value, acts[1..], t);
    }
  }

  lemma NamesNow(cfg: Config, s: State, lines: seq<SettingsLine>, v: string)
    requires ReadSettings(Text(s.settings)) == Ok(lines) && v in cfg.cat.secrets && v in LineValues(lines) && v !in cfg.process
    requires LineValues(lines)[v] != ""
    ensures Resolve(cfg.dir, LineValues(lines)[v]) in NamedNow(cfg, s)
  {
    var env := LooseOf(cfg, s.settings);
    assert v in env && env[v] == LineValues(lines)[v];
  }

  lemma ReplaceReads(cfg: Config, u: State, i: nat)
    requires cfg.Valid() && Inv(cfg, u) && u.lock == Some(i) && u.phases[i].Replacing?
    ensures var t := DoReplace(u, i).value;
            && t.files == u.files && ReadSettings(Text(t.settings)) == Ok(u.phases[i].lines)
            && LineValues(u.phases[i].lines).Keys !! cfg.process.Keys
  {
    assert PhaseIs(cfg, u, i);
    ReadsBack(u.phases[i].lines);
    MergedIsLoose(cfg.cat, cfg.process, u.phases[i].lines);
  }

  /**
   A save does what it was asked. From its replace until the next one or the next
   hand edit, whatever other saves do meanwhile, the file reads as lines in which
   each change is made, each removed and each dropped variable is gone and every
   other line is as it was read; and each key that a change sets and no drop takes
   is named by its line and stands in that file.
   */
  lemma SaveDoesAsAsked(cfg: Config, s: State, acts: seq<Action>, u: State, i: nat, more: seq<Action>, t: State)
    requires cfg.Valid() && Start(cfg, s) && Run(cfg, s, acts, u) && i < |u.phases| && u.phases[i].Replacing?
    requires Next(cfg, u, Replace(i)).Some?
    requires Run(cfg, Next(cfg, u, Replace(i)).value, more, t) && forall a | a in more :: KeepsFile(a)
    ensures i < |cfg.saves| && ReadSettings(Text(u.settings)).Ok? && ReadSettings(Text(t.settings)).Ok?
    ensures AsAsked(cfg.cat, cfg.dir, cfg.saves[i], ReadSettings(Text(u.settings)).value, ReadSettings(Text(t.settings)).value,
                    t.files, UnusedKeys(cfg.cat, u.phases[i].tiers))
  {
    assert Inv(cfg, s);
    RunKeeps(cfg, s, acts, u);
    AfterReplace(cfg, u, i);
    var after, p := Next(cfg, u, Replace(i)).value, u.phases[i];
    hide Inv, Run, Next, Start, ReadSettings, LineValues, Survives, SameLine, SaysChange, UnusedKeys;
    SettingsStay(cfg, after, more, t);
    ChangesStay(cfg, cfg.saves[i], after, more, t, p.lines, UnusedKeys(cfg.cat, p.tiers));
  }

  lemma AfterReplace(cfg: Config, u: State, i: nat)
    requires cfg.Valid() && Inv(cfg, u) && i < |u.phases| && u.phases[i].Replacing? && Next(cfg, u, Replace(i)).Some?
    ensures var p, after := u.phases[i], Next(cfg, u, Replace(i)).value;
            && i < |cfg.saves| && Inv(cfg, after) && Text(u.settings) == p.read && ReadSettings(p.read).Ok?
            && ReadSettings(Text(after.settings)) == Ok(p.lines) && LineValues(p.lines).Keys !! cfg.process.Keys
            && AsAsked(cfg.cat, cfg.dir, cfg.saves[i], ReadSettings(p.read).value, p.lines, after.files, UnusedKeys(cfg.cat, p.tiers))
  {
    hide Inv, Next, DoReplace, ReadSettings, LineValues, UnusedKeys, AsAsked, Start, Polite, PhaseIs;
    ReplaceIs(cfg, u, i);
    CommitIsAsAsked(cfg, u, i);
    ReplaceReads(cfg, u, i);
  }

  lemma ReplaceIs(cfg: Config, u: State, i: nat)
    requires cfg.Valid() && Inv(cfg, u) && i < |u.phases| && u.phases[i].Replacing? && Next(cfg, u, Replace(i)).Some?
    ensures Next(cfg, u, Replace(i)) == DoReplace(u, i) && i < |cfg.saves| && u.lock == Some(i)
    ensures Inv(cfg, DoReplace(u, i).value)
  {
    hide LinesAfter, MergedEnv, ReadSettings, UnusedKeys, Writable, Accepted, SavedKeys, Print, UnusedKeyFiles, KeyPath, PhaseIs, NamedNow;
    OnlyHolderSteps(cfg, u, Replace(i));
    StepKeeps(cfg, u, Replace(i));
  }

  lemma ChangesStay(cfg: Config, save: Save, s: State, more: seq<Action>, t: State, lines: seq<SettingsLine>, drop: set<string>)
    requires cfg.Valid() && Inv(cfg, s) && Run(cfg, s, more, t) && forall a | a in more :: KeepsFile(a)
    requires ReadSettings(Text(s.settings)) == Ok(lines) && LineValues(lines).Keys !! cfg.process.Keys
    requires forall c | c in save.changes :: SaysChange(cfg.cat, cfg.dir, LineValues(lines), s.files, drop, c)
    ensures forall c | c in save.changes :: SaysChange(cfg.cat, cfg.dir, LineValues(lines), t.files, drop, c)
  {
    hide Inv, Run, ReadSettings, LineValues, Resolve;
    forall c | c in save.changes ensures SaysChange(cfg.cat, cfg.dir, LineValues(lines), t.files, drop, c) {
      var v := cfg.cat.settings[c.key].variable.value;
      if v !in drop && c.value.Some? && v in cfg.cat.secrets {
        NamesNow(cfg, s, lines, v);
        NamedStays(cfg, s, more, t, Resolve(cfg.dir, LineValues(lines)[v]));
      }
    }
  }
}
