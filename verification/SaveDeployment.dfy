/** What the deployment that serves has to do with `settings.env`, and which hand edits a save writes over. */
module SaveDeployment {
  import opened Results
  import opened SettingsFile
  import opened SettingsLines
  import opened SaveRules
  import opened KeyFiles
  import opened SaveProtocol
  import opened SaveSafety
  import opened SaveRefinement
  import opened SaveProgress

  // ---- The deployment that serves ----

  /** The two steps that swap the deployment: the listing behind the swap works or fails. */
  predicate Swaps(a: Action) { a.Swap? || a.ListFails? }

  predicate KeepsFile(a: Action) { !a.HandEdit? && !a.Replace? }

  ghost predicate NoneSwaps(s: State) { forall j | 0 <= j < |s.phases| :: !s.phases[j].Swapping? }

  lemma KeptStep(cfg: Config, s: State, a: Action)
    requires cfg.Valid() && NoneSwaps(s) && Next(cfg, s, a).Some? && KeepsFile(a)
    ensures var t := Next(cfg, s, a).value;
            NoneSwaps(t) && t.settings == s.settings && t.deployed == s.deployed
  {
    hide LinesAfter, MergedEnv, ReadSettings, UnusedKeys, Writable, Accepted, SavedKeys, Print, UnusedKeyFiles, KeyPath;
  }

  lemma {:induction false} KeptThrough(cfg: Config, s: State, acts: seq<Action>, t: State)
    requires cfg.Valid() && NoneSwaps(s) && Run(cfg, s, acts, t) && forall a | a in acts :: KeepsFile(a)
    ensures t.settings == s.settings && t.deployed == s.deployed
    decreases |acts|
  {
    if acts != [] {
      assert acts[0] in acts && forall a | a in acts[1..] :: a in acts;
      KeptStep(cfg, s, acts[0]);
      KeptThrough(cfg, Next(cfg, s, acts[0]).value, acts[1..], t);
    }
  }

  lemma SwapIs(cfg: Config, s: State, a: Action)
    requires cfg.Valid() && Inv(cfg, s) && Swaps(a) && Next(cfg, s, a).Some?
    ensures a.i < |s.phases| && s.phases[a.i].Swapping?
    ensures var p, t := s.phases[a.i], Next(cfg, s, a).value;
            && t.settings == s.settings && t.deployed == Some(p.checked) && NoneSwaps(t)
            && LooseOf(cfg, s.settings) == p.env && EqualBut(cfg, p.checked, p.env, p.tiers)
  {
    hide LooseOf, UnusedKeyFiles, NamedNow, EqualBut;
    OnlyHolderSteps(cfg, s, a);
    assert PhaseIs(cfg, s, a.i);
    forall j | 0 <= j < |s.phases| && j != a.i ensures !s.phases[j].Swapping? { assert !Active(s.phases[j]); }
  }

  /**
   Over every run, from the swap of a save until the next replace or hand edit,
   through its cleanup and after its end, the deployment that serves was built
   from a mapping that agrees with `settings.env` under the process environment,
   except on key variables of vendors that no tier of its check uses.
   */
  lemma DeploymentServesTheFile(cfg: Config, s: State, acts: seq<Action>, u: State, a: Action, more: seq<Action>, t: State)
    requires cfg.Valid() && Start(cfg, s) && Run(cfg, s, acts, u) && Swaps(a) && Next(cfg, u, a).Some?
    requires Run(cfg, Next(cfg, u, a).value, more, t) && forall b | b in more :: KeepsFile(b)
    ensures a.i < |u.phases| && u.phases[a.i].Swapping?
    ensures var p := u.phases[a.i];
            t.deployed == Some(p.checked) && EqualBut(cfg, p.checked, LooseOf(cfg, t.settings), p.tiers)
  {
    assert Inv(cfg, s);
    RunKeeps(cfg, s, acts, u);
    SwapIs(cfg, u, a);
    KeptThrough(cfg, Next(cfg, u, a).value, more, t);
  }

  // ---- A hand edit during the swap and the cleanup ----

  lemma DeleteTakes(cfg: Config, s: State, i: nat, path: Path)
    requires cfg.Valid() && i < |s.phases| && s.phases[i].Cleaning? && Next(cfg, s, Delete(i, path)).Some?
    ensures var t := Next(cfg, s, Delete(i, path)).value;
            && |t.phases| == |s.phases| && t.phases[i] == s.phases[i].(left := s.phases[i].left - {path})
            && t.files == s.files - {path} && t.settings == s.settings && path in s.phases[i].left
  {
    hide LinesAfter, MergedEnv, ReadSettings, UnusedKeys, Writable, Accepted, SavedKeys, Print, UnusedKeyFiles, KeyPath;
  }

  /** The deletes of one cleanup, one after the other. */
  ghost predicate CleanupRun(cfg: Config, s: State, i: nat, paths: seq<Path>, t: State)
    requires cfg.Valid()
    decreases |paths|
  {
    if paths == [] then s == t
    else Next(cfg, s, Delete(i, paths[0])).Some? && CleanupRun(cfg, Next(cfg, s, Delete(i, paths[0])).value, i, paths[1..], t)
  }

  lemma {:induction false} CleanupTakes(cfg: Config, s: State, i: nat, paths: seq<Path>, t: State)
    requires cfg.Valid() && i < |s.phases| && s.phases[i].Cleaning? && CleanupRun(cfg, s, i, paths, t)
    ensures i < |t.phases| && t.phases[i].Cleaning? && t.settings == s.settings
    ensures t.phases[i].left <= s.phases[i].left && t.files == s.files - (s.phases[i].left - t.phases[i].left)
    decreases |paths|
  {
    if paths == [] {
      assert s.files - {} == s.files;
    } else {
      DeleteTakes(cfg, s, i, paths[0]);
      var next := Next(cfg, s, Delete(i, paths[0])).value;
      CleanupTakes(cfg, next, i, paths[1..], t);
      assert (s.files - {paths[0]}) - (next.phases[i].left - t.phases[i].left)
          == s.files - (s.phases[i].left - t.phases[i].left);
    }
  }

  /**
   A hand edit that lands while a save cleans up keeps every key file that it
   names exactly where it names none of those that the cleanup listed.
   */
  lemma EditDuringCleanup(cfg: Config, s: State, i: nat, text: Option<string>, paths: seq<Path>, t: State)
    requires cfg.Valid() && i < |s.phases| && s.phases[i].Cleaning?
    requires Named(cfg.cat, cfg.dir, LooseOf(cfg, text)) <= s.files.Keys
    requires CleanupRun(cfg, s.(settings := text), i, paths, t) && i < |t.phases| && t.phases[i].Cleaning? && t.phases[i].left == {}
    ensures NamedNow(cfg, t) <= t.files.Keys <==> Named(cfg.cat, cfg.dir, LooseOf(cfg, text)) !! s.phases[i].left
  {
    hide LooseOf, Named;
    CleanupTakes(cfg, s.(settings := text), i, paths, t);
    assert NamedNow(cfg, t) == Named(cfg.cat, cfg.dir, LooseOf(cfg, text));
    assert t.files.Keys == s.files.Keys - s.phases[i].left;
  }

  lemma SwapLists(cfg: Config, s: State, i: nat)
    requires cfg.Valid() && i < |s.phases| && s.phases[i].Swapping? && Next(cfg, s, Swap(i)).Some?
    ensures var t := Next(cfg, s, Swap(i)).value;
            && |t.phases| == |s.phases| && t.files == s.files && t.settings == s.settings
            && t.phases[i] == Cleaning(s.phases[i].env, UnusedKeyFiles(cfg.cat, cfg.dir, s.files, s.phases[i].env))
  {
    hide LinesAfter, MergedEnv, ReadSettings, UnusedKeys, Writable, Accepted, SavedKeys, Print, UnusedKeyFiles, KeyPath;
  }

  /**
   The same of an edit that lands before the listing: it keeps every key file that
   it names exactly where it names none of key-file form that the mapping of the
   commit leaves unnamed.
   */
  lemma EditBeforeListing(cfg: Config, s: State, i: nat, text: Option<string>, paths: seq<Path>, t: State)
    requires cfg.Valid() && i < |s.phases| && s.phases[i].Swapping?
    requires Named(cfg.cat, cfg.dir, LooseOf(cfg, text)) <= s.files.Keys
    requires Next(cfg, s.(settings := text), Swap(i)).Some?
    requires CleanupRun(cfg, Next(cfg, s.(settings := text), Swap(i)).value, i, paths, t)
    requires i < |t.phases| && t.phases[i].Cleaning? && t.phases[i].left == {}
    ensures NamedNow(cfg, t) <= t.files.Keys <==>
              Named(cfg.cat, cfg.dir, LooseOf(cfg, text)) !! UnusedKeyFiles(cfg.cat, cfg.dir, s.files, s.phases[i].env)
  {
    SwapLists(cfg, s.(settings := text), i);
    hide LooseOf, Named, UnusedKeyFiles, Next;
    var listed := Next(cfg, s.(settings := text), Swap(i)).value;
    assert listed.(settings := text) == listed;
    EditDuringCleanup(cfg, listed, i, text, paths, t);
  }

  // ---- A hand edit before the replace ----

  /** The variable has a line in both lists, with one value, or in neither. */
  predicate SameLine(a: seq<SettingsLine>, b: seq<SettingsLine>, v: string) {
    (v in LineValues(a) <==> v in LineValues(b)) && (v in LineValues(a) && v in LineValues(b) ==> LineValues(a)[v] == LineValues(b)[v])
  }

  lemma NoEffect(cat: Catalog, save: Save, written: Env, drop: set<string>, v: string)
    requires Effects(cat, written, save.changes).Ok? && Survives(cat, save, drop, v)
    ensures forall e | e in Effects(cat, written, save.changes).value :: e.variable != v
  {
    EffectsAre(cat, written, save.changes);
    var effects := Effects(cat, written, save.changes).value;
    forall e | e in effects ensures e.variable != v {
      var k :| 0 <= k < |effects| && effects[k] == e;
      assert EffectOf(cat, written, save.changes[k]) == Ok(e) && save.changes[k] in save.changes;
    }
  }

  /** A line that no change names and nothing takes is in the saved lines as it was, or in neither. */
  lemma SurvivorIs(cat: Catalog, save: Save, lines: seq<SettingsLine>, written: Env, drop: set<string>, v: string)
    requires cat.Valid() && save.Valid() && Distinct(lines) && SavedForm(cat, lines, save, written, drop).Ok?
    requires Survives(cat, save, drop, v)
    ensures SameLine(SavedForm(cat, lines, save, written, drop).value, lines, v)
  {
    var effects := Effects(cat, written, save.changes).value;
    SavedLinesAre(cat, save, lines, written, drop);
    EffectsDistinct(cat, written, save.changes);
    NoEffect(cat, save, written, drop, v);
    DictKeeps(lines, save.Removed(), effects, drop, v);
  }

  lemma DictKeeps(lines: seq<SettingsLine>, remove: set<string>, effects: seq<Effect>, drop: set<string>, v: string)
    requires Distinct(lines) && DistinctEffects(effects) && v !in drop && v !in remove && forall e | e in effects :: e.variable != v
    ensures var values := SavedDict(lines, remove, effects, drop).values;
            (v in values <==> v in LineValues(lines)) && (v in values && v in LineValues(lines) ==> values[v] == LineValues(lines)[v])
  {
    hide SavedDict;
    SavedLookup(lines, remove, effects, drop, v);
    assert forall k | 0 <= k < |effects| :: effects[k] in effects;
  }

  /**
   A hand edit between the second revision check and the replace that changes,
   adds or takes a line which the save would have kept is lost: the file is not
   what the save makes of the edited one.
   */
  lemma EditOfSurvivorIsLost(cfg: Config, s: State, i: nat, text: Option<string>, v: string)
    requires cfg.Valid() && TextInv(cfg, s) && i < |s.phases| && s.phases[i].Replacing? && Writable(s.phases[i].lines)
    requires ReadSettings(Text(text)).Ok? && ReadSettings(s.phases[i].read).Ok?
    requires var p := s.phases[i];
             var made := LinesAfter(cfg, i, Text(text), p.written, UnusedKeys(cfg.cat, p.tiers));
             && made.Ok? && Writable(made.value)
             && Survives(cfg.cat, cfg.saves[i], UnusedKeys(cfg.cat, p.tiers), v)
             && !SameLine(ReadSettings(Text(text)).value, ReadSettings(p.read).value, v)
    ensures var edited := s.(settings := text);
            && Next(cfg, edited, Replace(i)).Some?
            && Next(cfg, edited, Replace(i)).value.settings != Replay(cfg, s.settings, [Edited(text), EventOf(s, Replace(i))])
  {
    var p := s.phases[i];
    assert LinesAreOf(cfg, s, i);
    MadeDiffer(cfg, i, Text(text), p.read, p.written, UnusedKeys(cfg.cat, p.tiers), v);
    hide TextInv, LinesAreOf, LinesAfter, ReadSettings, UnusedKeys, Survives, SameLine, Writable, Next, Replay;
    WrittenOver(cfg, s, i, text);
    ReplayTwo(cfg, s.settings, text, i, p.written, p.tiers);
  }

  lemma WrittenOver(cfg: Config, s: State, i: nat, text: Option<string>)
    requires cfg.Valid() && i < |s.phases| == |cfg.saves| && s.phases[i].Replacing?
    ensures var edited, p := s.(settings := text), s.phases[i];
            && Next(cfg, edited, Replace(i)).Some?
            && Next(cfg, edited, Replace(i)).value.settings == Some(Print(p.lines))
            && EventOf(s, Replace(i)) == Committed(i, p.written, p.tiers)
  {
    hide LinesAfter, ReadSettings, UnusedKeys, Print;
    EditBeforeReplaceIsLost(cfg, s, i, text);
  }

  /** What one save makes of two files that differ in a line that it keeps. */
  lemma MadeDiffer(cfg: Config, i: nat, a: string, b: string, written: map<string, Path>, drop: set<string>, v: string)
    requires cfg.Valid() && i < |cfg.saves| && ReadSettings(a).Ok? && ReadSettings(b).Ok?
    requires LinesAfter(cfg, i, a, written, drop).Ok? && LinesAfter(cfg, i, b, written, drop).Ok?
    requires Writable(LinesAfter(cfg, i, a, written, drop).value) && Writable(LinesAfter(cfg, i, b, written, drop).value)
    requires Survives(cfg.cat, cfg.saves[i], drop, v) && !SameLine(ReadSettings(a).value, ReadSettings(b).value, v)
    ensures Print(LinesAfter(cfg, i, a, written, drop).value) != Print(LinesAfter(cfg, i, b, written, drop).value)
  {
    ReadsDistinct(a, 1, []);
    ReadsDistinct(b, 1, []);
    hide SavedForm, Survives;
    SurvivorIs(cfg.cat, cfg.saves[i], ReadSettings(a).value, Texts(cfg.dir, written), drop, v);
    SurvivorIs(cfg.cat, cfg.saves[i], ReadSettings(b).value, Texts(cfg.dir, written), drop, v);
    ReadsBack(LinesAfter(cfg, i, a, written, drop).value);
    ReadsBack(LinesAfter(cfg, i, b, written, drop).value);
  }

  lemma ReplayTwo(cfg: Config, settings: Option<string>, text: Option<string>, i: nat, written: map<string, Path>, tiers: Option<set<string>>)
    requires cfg.Valid() && i < |cfg.saves| && ReadSettings(Text(text)).Ok?
    requires LinesAfter(cfg, i, Text(text), written, UnusedKeys(cfg.cat, tiers)).Ok?
    ensures Replay(cfg, settings, [Edited(text), Committed(i, written, tiers)]) ==
            Some(Print(LinesAfter(cfg, i, Text(text), written, UnusedKeys(cfg.cat, tiers)).value))
  {
    hide LinesAfter, ReadSettings, UnusedKeys, Print;
    assert [Edited(text), Committed(i, written, tiers)] == [Edited(text)] + [Committed(i, written, tiers)];
    ReplayCons(cfg, settings, Edited(text), [Committed(i, written, tiers)]);
    assert [Edited(text)][..0] == [] && [Committed(i, written, tiers)][..0] == [];
  }
}
