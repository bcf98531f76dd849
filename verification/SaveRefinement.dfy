/** The save protocol refines a save that happens in one step. */
module SaveRefinement {
  import opened Results
  import opened SettingsFile
  import opened SettingsLines
  import opened SaveRules
  import opened KeyFiles
  import opened SaveProtocol
  import opened SaveSafety

  /** What a reader of the directory sees, without the files of a save that has not committed. */
  datatype View = View(settings: Option<string>, files: Files)

  datatype Event =
    | Nothing
    | Edited(text: Option<string>)
    | Committed(i: nat, written: map<string, Path>, tiers: Option<set<string>>)
    | Collected(path: Path)
    | Leaked(paths: set<Path>)

  function ViewOf(s: State): View {
    View(s.settings, s.files - Unsettled(s))
  }

  function EventOf(s: State, a: Action): Event {
    match a
    case HandEdit(text) => Edited(text)
    case Replace(i) =>
      if i < |s.phases| && s.phases[i].Replacing? then Committed(i, s.phases[i].written, s.phases[i].tiers) else Nothing
    case Delete(_, path) => Collected(path)
    case UndoFails(i) => if i < |s.phases| && s.phases[i].Undoing? then Leaked(s.phases[i].left) else Nothing
    case _ => Nothing
  }

  /**
   A save in one step, over the file as it is at that moment: its revision is
   the file's, no rule and no loader refuses it, each key has a new file, and
   the file then holds the lines that the save makes of it.
   */
  ghost predicate AtomicSave(cfg: Config, u: View, i: nat, written: map<string, Path>, tiers: Option<set<string>>, w: View)
    requires cfg.Valid()
  {
    && i < |cfg.saves| && ReadIs(cfg, i, Text(u.settings)) && AllWritten(cfg, i, written)
    && (exists lines, env :: IsCommit(cfg, i, Text(u.settings), written, tiers, lines, env) && w.settings == Some(Print(lines)))
    && NewFiles(cfg, u.files, i, written, w.files)
  }

  ghost predicate NewFiles(cfg: Config, before: Files, i: nat, written: map<string, Path>, after: Files)
    requires i < |cfg.saves|
  {
    && written.Values !! before.Keys && after.Keys == before.Keys + written.Values
    && (forall p | p in before :: after[p] == before[p])
    && forall v | v in written :: KeyText(v, after[written[v]]) in SavedKeys(cfg.cat, cfg.saves[i].changes)
  }

  ghost predicate ViewStep(cfg: Config, u: View, e: Event, w: View)
    requires cfg.Valid()
  {
    match e
    case Nothing => w == u
    case Edited(text) => w == u.(settings := text)
    case Committed(i, written, tiers) => AtomicSave(cfg, u, i, written, tiers, w)
    case Collected(path) =>
      && w == u.(files := u.files - {path})
      && path in UnusedKeyFiles(cfg.cat, cfg.dir, u.files, LooseOf(cfg, u.settings))
    case Leaked(paths) =>
      && w.settings == u.settings && w.files - paths == u.files && paths <= w.files.Keys
      && forall p | p in paths :: IsKeyPath(cfg.cat, p)
  }

  lemma CommitRefines(cfg: Config, s: State, i: nat)
    requires cfg.Valid() && Inv(cfg, s) && s.lock == Some(i) && s.phases[i].Replacing?
    ensures var p := s.phases[i];
            AtomicSave(cfg, ViewOf(s), i, p.written, p.tiers, ViewOf(DoReplace(s, i).value))
  {
    var p := s.phases[i];
    ReplacingIs(cfg, s, i);
    NewFilesAre(cfg, s, i, p.written);
    CommitIs(cfg, s, i);
  }

  lemma CommitIs(cfg: Config, s: State, i: nat)
    requires cfg.Valid() && i < |s.phases| == |cfg.saves| && s.lock == Some(i) && s.phases[i].Replacing?
    requires var p := s.phases[i];
             && ReadIs(cfg, i, Text(s.settings)) && AllWritten(cfg, i, p.written)
             && IsCommit(cfg, i, Text(s.settings), p.written, p.tiers, p.lines, p.env)
             && NewFiles(cfg, s.files - p.written.Values, i, p.written, s.files)
    ensures AtomicSave(cfg, ViewOf(s), i, s.phases[i].written, s.phases[i].tiers, ViewOf(DoReplace(s, i).value))
  {
    hide ReadSettings, Accepted, LinesAfter, MergedEnv, AllWritten, NewFiles, Print;
    var p, t := s.phases[i], DoReplace(s, i).value;
    assert Unsettled(t) == {} && t.files - {} == s.files;
    assert IsCommit(cfg, i, Text(ViewOf(s).settings), p.written, p.tiers, p.lines, p.env);
    assert ViewOf(t) == View(Some(Print(p.lines)), s.files);
  }

  lemma ReplacingIs(cfg: Config, s: State, i: nat)
    requires cfg.Valid() && Inv(cfg, s) && s.lock == Some(i) && s.phases[i].Replacing?
    ensures i < |cfg.saves|
    ensures var p := s.phases[i];
            && ReadIs(cfg, i, Text(s.settings)) && AllWritten(cfg, i, p.written)
            && IsCommit(cfg, i, Text(s.settings), p.written, p.tiers, p.lines, p.env)
            && WrittenIs(cfg, s, i, p.written) && p.written.Values <= s.files.Keys
  {
    assert PhaseIs(cfg, s, i);
  }

  lemma NewFilesAre(cfg: Config, s: State, i: nat, written: map<string, Path>)
    requires i < |cfg.saves| && WrittenIs(cfg, s, i, written) && written.Values <= s.files.Keys
    ensures NewFiles(cfg, s.files - written.Values, i, written, s.files)
  {
    forall v | v in written
      ensures KeyText(v, s.files[written[v]]) in SavedKeys(cfg.cat, cfg.saves[i].changes)
    {
      assert written[v] in written.Values;
    }
  }

  lemma WriteIsHidden(cfg: Config, s: State, i: nat, token: string)
    requires cfg.Valid() && Inv(cfg, s) && s.lock == Some(i) && DoWriteKey(s, i, token).Some?
    ensures ViewOf(DoWriteKey(s, i, token).value) == ViewOf(s)
  {
    hide KeyPath, ReadIs, WrittenIs, NamedNow;
    var p := s.phases[i];
    var key, path := p.todo[0], KeyPath(p.todo[0], token);
    var t := DoWriteKey(s, i, token).value;
    assert PhaseIs(cfg, s, i);
    TodoTail(cfg, i, p.todo, p.written, path);
    ValuesPut(p.written, key.variable, path);
    assert t.files - (p.written.Values + {path}) == s.files - p.written.Values;
  }

  lemma UndoIsHidden(cfg: Config, s: State, i: nat, path: Path)
    requires cfg.Valid() && Inv(cfg, s) && s.lock == Some(i) && DoUndo(s, i, path).Some?
    ensures ViewOf(DoUndo(s, i, path).value) == ViewOf(s)
  {
    var left := s.phases[i].left;
    assert (s.files - {path}) - (left - {path}) == s.files - left;
  }

  lemma EndRefines(cfg: Config, s: State, i: nat, a: Action)
    requires cfg.Valid() && Inv(cfg, s) && s.lock == Some(i) && DoEnd(s, i, a).Some? && !a.HandEdit? && a.i == i
    ensures ViewStep(cfg, ViewOf(s), EventOf(s, a), ViewOf(DoEnd(s, i, a).value))
  {
    var t := DoEnd(s, i, a).value;
    assert Unsettled(t) == {} && t.files - {} == s.files;
    assert PhaseIs(cfg, s, i);
    if a.UndoFails? {
      assert Unsettled(s) == s.phases[i].left;
    } else {
      assert Unsettled(s) == {};
    }
  }

  lemma CollectRefines(cfg: Config, s: State, i: nat, path: Path)
    requires cfg.Valid() && Inv(cfg, s) && s.lock == Some(i) && DoDelete(s, i, path).Some?
    ensures ViewStep(cfg, ViewOf(s), Collected(path), ViewOf(DoDelete(s, i, path).value))
  {
    var t := DoDelete(s, i, path).value;
    CleaningIs(cfg, s, i);
    assert Unsettled(t) == {} == Unsettled(s);
    assert t.files - {} == t.files && s.files - {} == s.files;
  }

  lemma SameView(s: State, t: State, i: nat)
    requires i < |s.phases| && t.files == s.files && t.settings == s.settings && |t.phases| == |s.phases|
    requires s.lock == Some(i) || (s.lock.None? && t.lock == Some(i))
    requires t.lock == Some(i) || t.lock.None?
    requires (if t.lock.Some? then Owned(t.phases[i]) else {}) == (if s.lock.Some? then Owned(s.phases[i]) else {})
    ensures ViewOf(t) == ViewOf(s)
  {
  }

  lemma FailIsHidden(cfg: Config, s: State, i: nat, outcome: Outcome, allowed: bool)
    requires cfg.Valid() && i < |s.phases| == |cfg.saves| && s.lock == Some(i) && DoFail(s, i, outcome, allowed).Some?
    ensures ViewOf(DoFail(s, i, outcome, allowed).value) == ViewOf(s)
  {
    SameView(s, UndoFor(s, i, outcome), i);
  }

  lemma ReadIsHidden(cfg: Config, s: State, i: nat)
    requires cfg.Valid() && Inv(cfg, s) && s.lock == Some(i) && s.phases[i].Reading?
    ensures ViewOf(AfterRead(cfg, s, i)) == ViewOf(s)
  {
    var none: map<string, Path> := map[];
    assert none.Values == {};
    SameView(s, AfterRead(cfg, s, i), i);
  }

  /** A merge moves its save to a phase that owns the same files. */
  lemma MergeShape(cfg: Config, s: State, i: nat) returns (phase: Phase)
    requires cfg.Valid() && i < |s.phases| == |cfg.saves| && s.phases[i].Writing? && ReadSettings(s.phases[i].read).Ok?
    ensures AfterMerge(cfg, s, i) == To(s, i, phase) && Owned(phase) == Owned(s.phases[i])
  {
    hide LinesAfter, MergedEnv, ReadSettings;
    phase := AfterMerge(cfg, s, i).phases[i];
  }

  lemma MergeIsHidden(cfg: Config, s: State, i: nat)
    requires cfg.Valid() && i < |s.phases| == |cfg.saves| && s.lock == Some(i) && s.phases[i].Writing? && ReadSettings(s.phases[i].read).Ok?
    ensures ViewOf(AfterMerge(cfg, s, i)) == ViewOf(s)
  {
    hide AfterMerge, ReadSettings;
    var phase := MergeShape(cfg, s, i);
    SameView(s, To(s, i, phase), i);
  }

  /** A second check moves its save to a phase that owns the same files. */
  lemma RecheckShape(cfg: Config, s: State, i: nat) returns (phase: Phase)
    requires cfg.Valid() && i < |s.phases| == |cfg.saves| && s.phases[i].Rechecking? && ReadSettings(s.phases[i].read).Ok?
    ensures AfterRecheck(cfg, s, i) == To(s, i, phase) && Owned(phase) == Owned(s.phases[i])
  {
    hide LinesAfter, MergedEnv, ReadSettings, UnusedKeys, Writable;
    phase := AfterRecheck(cfg, s, i).phases[i];
  }

  lemma RecheckIsHidden(cfg: Config, s: State, i: nat)
    requires cfg.Valid() && i < |s.phases| == |cfg.saves| && s.lock == Some(i) && s.phases[i].Rechecking? && ReadSettings(s.phases[i].read).Ok?
    ensures ViewOf(AfterRecheck(cfg, s, i)) == ViewOf(s)
  {
    hide AfterRecheck, ReadSettings;
    var phase := RecheckShape(cfg, s, i);
    SameView(s, To(s, i, phase), i);
  }

  lemma AcquireIsHidden(cfg: Config, s: State, i: nat)
    requires cfg.Valid() && Inv(cfg, s) && i < |s.phases| && DoAcquire(s, i).Some?
    ensures ViewOf(DoAcquire(s, i).value) == ViewOf(s)
  {
    SameView(s, DoAcquire(s, i).value, i);
  }

  lemma SwapIsHidden(cfg: Config, s: State, i: nat)
    requires cfg.Valid() && i < |s.phases| == |cfg.saves| && s.lock == Some(i) && DoSwap(cfg, s, i).Some?
    ensures ViewOf(DoSwap(cfg, s, i).value) == ViewOf(s)
  {
    SameView(s, DoSwap(cfg, s, i).value, i);
  }

  lemma PassIsHidden(cfg: Config, s: State, i: nat, tiers: Option<set<string>>)
    requires cfg.Valid() && i < |s.phases| == |cfg.saves| && s.lock == Some(i) && s.phases[i].Checking?
    ensures var p := s.phases[i]; ViewOf(To(s, i, Rechecking(p.read, p.written, p.checked, tiers))) == ViewOf(s)
  {
    var p := s.phases[i];
    SameView(s, To(s, i, Rechecking(p.read, p.written, p.checked, tiers)), i);
  }

  predicate Quiet(a: Action) {
    !a.HandEdit? && !a.Replace? && !a.Delete? && !Ends(a)
  }

  predicate Ends(a: Action) {
    a.UndoFails? || a.UndoEnds? || a.ListFails? || a.DeleteFails? || a.CleanEnds?
  }

  lemma QuietSteps(cfg: Config, s: State, a: Action)
    requires cfg.Valid() && Inv(cfg, s) && Next(cfg, s, a).Some? && Quiet(a)
    ensures ViewOf(Next(cfg, s, a).value) == ViewOf(s)
  {
    hide AfterRead, AfterMerge, AfterRecheck, ViewOf, ReadSettings;
    if !a.Acquire? {
      OnlyHolderSteps(cfg, s, a);
    }
    match a {
      case Acquire(i) => AcquireIsHidden(cfg, s, i);
      case Read(i) => ReadIsHidden(cfg, s, i);
      case WriteKey(i, token) => WriteIsHidden(cfg, s, i, token);
      case WriteFails(i, outcome) => FailIsHidden(cfg, s, i, outcome, s.phases[i].Writing? && s.phases[i].todo != []);
      case Merge(i) => MergeIsHidden(cfg, s, i);
      case CheckFails(i, outcome) => FailIsHidden(cfg, s, i, outcome, s.phases[i].Checking?);
      case CheckPasses(i, tiers) => PassIsHidden(cfg, s, i, tiers);
      case Recheck(i) => RecheckIsHidden(cfg, s, i);
      case ReplaceFails(i, outcome) => FailIsHidden(cfg, s, i, outcome, s.phases[i].Replacing?);
      case Undo(i, path) => UndoIsHidden(cfg, s, i, path);
      case Swap(i) => SwapIsHidden(cfg, s, i);
    }
  }

  lemma EndIsEnd(cfg: Config, s: State, a: Action)
    requires cfg.Valid() && Ends(a) && a.i < |s.phases| == |cfg.saves|
    ensures Next(cfg, s, a) == DoEnd(s, a.i, a)
  {
  }

  lemma ReplaceIs(cfg: Config, s: State, i: nat)
    requires cfg.Valid() && i < |s.phases| == |cfg.saves| && Next(cfg, s, Replace(i)).Some?
    ensures Next(cfg, s, Replace(i)) == DoReplace(s, i) && s.phases[i].Replacing?
    ensures EventOf(s, Replace(i)) == Committed(i, s.phases[i].written, s.phases[i].tiers)
  {
  }

  /** Every step of the protocol is a step of the view. */
  lemma StepRefines(cfg: Config, s: State, a: Action)
    requires cfg.Valid() && Inv(cfg, s) && Polite(cfg, s, a) && Next(cfg, s, a).Some?
    ensures ViewStep(cfg, ViewOf(s), EventOf(s, a), ViewOf(Next(cfg, s, a).value))
  {
    if a.HandEdit? {
      assert Unsettled(s.(settings := a.text)) == Unsettled(s);
    } else if Quiet(a) {
      QuietSteps(cfg, s, a);
    } else {
      OnlyHolderSteps(cfg, s, a);
      if a.Replace? {
        ReplaceIs(cfg, s, a.i);
        CommitRefines(cfg, s, a.i);
      } else if a.Delete? {
        CollectRefines(cfg, s, a.i, a.path);
      } else {
        EndIsEnd(cfg, s, a);
        EndRefines(cfg, s, a.i, a);
      }
    }
  }

  // ---- Runs ----

  ghost function Events(cfg: Config, s: State, acts: seq<Action>): seq<Event>
    requires cfg.Valid()
    decreases |acts|
  {
    if acts == [] || Next(cfg, s, acts[0]).None? then []
    else [EventOf(s, acts[0])] + Events(cfg, Next(cfg, s, acts[0]).value, acts[1..])
  }

  ghost predicate ViewRun(cfg: Config, u: View, events: seq<Event>, w: View)
    requires cfg.Valid()
    decreases |events|
  {
    if events == [] then u == w
    else exists v :: ViewStep(cfg, u, events[0], v) && ViewRun(cfg, v, events[1..], w)
  }

  /**
   The refinement. Any run of interleaved saves, failures and hand edits shows
   a reader the same directory as saves in one step each, in the order of
   their commits, over the hand edits.
   */
  lemma {:induction false} RunRefines(cfg: Config, s: State, acts: seq<Action>, t: State)
    requires cfg.Valid() && Inv(cfg, s) && Run(cfg, s, acts, t)
    ensures ViewRun(cfg, ViewOf(s), Events(cfg, s, acts), ViewOf(t))
    decreases |acts|
  {
    if acts != [] {
      var next := Next(cfg, s, acts[0]).value;
      StepKeeps(cfg, s, acts[0]);
      StepRefines(cfg, s, acts[0]);
      RunRefines(cfg, next, acts[1..], t);
      var events := Events(cfg, s, acts);
      assert events[0] == EventOf(s, acts[0]) && events[1..] == Events(cfg, next, acts[1..]);
    }
  }

  /** `settings.env` after the events: each commit applies its save to the file as the events before it left it. */
  ghost function Replay(cfg: Config, settings: Option<string>, events: seq<Event>): Option<string>
    requires cfg.Valid()
    decreases |events|
  {
    if events == [] then settings
    else
      var last := events[|events| - 1];
      var before := Replay(cfg, settings, events[..|events| - 1]);
      match last
      case Edited(text) => text
      case Committed(i, written, tiers) =>
        if i < |cfg.saves| && ReadSettings(Text(before)).Ok?
           && LinesAfter(cfg, i, Text(before), written, UnusedKeys(cfg.cat, tiers)).Ok?
        then Some(Print(LinesAfter(cfg, i, Text(before), written, UnusedKeys(cfg.cat, tiers)).value))
        else before
      case _ => before
  }

  lemma {:induction false} ReplayCons(cfg: Config, settings: Option<string>, e: Event, events: seq<Event>)
    requires cfg.Valid()
    ensures Replay(cfg, settings, [e] + events) == Replay(cfg, Replay(cfg, settings, [e]), events)
    decreases |events|
  {
    if events == [] {
      assert [e] + events == [e];
    } else {
      var before := events[..|events| - 1];
      assert ([e] + events)[..|events|] == [e] + before;
      ReplayCons(cfg, settings, e, before);
    }
  }

  // ---- No update is lost ----

  /** A save that is about to replace the file holds the lines that it makes of the file as it is. */
  ghost predicate LinesAreOf(cfg: Config, s: State, i: nat)
    requires cfg.Valid() && i < |s.phases| == |cfg.saves|
  {
    var p := s.phases[i];
    p.Replacing? ==>
      && Text(s.settings) == p.read && ReadSettings(p.read).Ok?
      && LinesAfter(cfg, i, p.read, p.written, UnusedKeys(cfg.cat, p.tiers)) == Ok(p.lines)
  }

  ghost predicate TextInv(cfg: Config, s: State)
    requires cfg.Valid()
  {
    && |s.phases| == |cfg.saves|
    && (forall i | 0 <= i < |s.phases| :: Active(s.phases[i]) <==> s.lock == Some(i))
    && forall i | 0 <= i < |s.phases| :: LinesAreOf(cfg, s, i)
  }

  /** A hand edit does not land between the second revision check of a save and its replace. */
  predicate EditApart(s: State, a: Action) {
    a.HandEdit? ==> forall i | 0 <= i < |s.phases| :: !s.phases[i].Replacing?
  }

  /** A step changes the phase of its own save alone. */
  lemma StepPhases(cfg: Config, s: State, a: Action)
    requires cfg.Valid() && Next(cfg, s, a).Some? && !a.HandEdit?
    ensures var t := Next(cfg, s, a).value;
            && a.i < |s.phases| == |t.phases| == |cfg.saves|
            && (forall j | 0 <= j < |s.phases| && j != a.i :: t.phases[j] == s.phases[j])
            && (t.phases[a.i].Replacing? ==> a.Recheck?)
  {
    hide LinesAfter, MergedEnv, ReadSettings, UnusedKeys, Writable, Accepted, SavedKeys, Print, UnusedKeyFiles, KeyPath;
  }

  /** The lock follows the phase of the save that takes the step. */
  lemma StepLock(cfg: Config, s: State, a: Action)
    requires cfg.Valid() && Next(cfg, s, a).Some? && !a.HandEdit? && a.i < |s.phases|
    requires Active(s.phases[a.i]) <==> s.lock == Some(a.i)
    ensures var t := Next(cfg, s, a).value;
            && a.i < |t.phases| && (s.lock == Some(a.i) || s.lock.None?)
            && t.lock == if Active(t.phases[a.i]) then Some(a.i) else None
  {
    hide LinesAfter, MergedEnv, ReadSettings, UnusedKeys, Writable, Accepted, SavedKeys, Print, UnusedKeyFiles, KeyPath;
    assert a.Acquire? || Active(s.phases[a.i]);
  }

  lemma StepTouches(cfg: Config, s: State, a: Action)
    requires cfg.Valid() && Next(cfg, s, a).Some? && !a.HandEdit?
    requires forall i | 0 <= i < |s.phases| :: Active(s.phases[i]) <==> s.lock == Some(i)
    ensures var t := Next(cfg, s, a).value;
            && a.i < |s.phases| == |t.phases| == |cfg.saves|
            && (forall j | 0 <= j < |s.phases| && j != a.i :: t.phases[j] == s.phases[j])
            && (t.phases[a.i].Replacing? ==> a.Recheck?)
            && (t.settings != s.settings ==> a.Replace?)
            && (s.lock == Some(a.i) || s.lock.None?)
            && t.lock == if Active(t.phases[a.i]) then Some(a.i) else None
  {
    StepPhases(cfg, s, a);
    StepLock(cfg, s, a);
    OnlyReplaceWrites(cfg, s, a);
    hide Next;
  }

  lemma RecheckLines(cfg: Config, s: State, i: nat)
    requires cfg.Valid() && Next(cfg, s, Recheck(i)).Some?
    ensures i < |s.phases| == |cfg.saves| == |Next(cfg, s, Recheck(i)).value.phases|
    ensures LinesAreOf(cfg, Next(cfg, s, Recheck(i)).value, i)
  {
    hide LinesAfter, MergedEnv, ReadSettings, UnusedKeys, Writable;
  }

  lemma ReplaceWrites(cfg: Config, s: State, i: nat)
    requires cfg.Valid() && Next(cfg, s, Replace(i)).Some?
    ensures i < |s.phases| == |cfg.saves| && s.phases[i].Replacing?
    ensures Next(cfg, s, Replace(i)).value.settings == Some(Print(s.phases[i].lines))
    ensures EventOf(s, Replace(i)) == Committed(i, s.phases[i].written, s.phases[i].tiers)
  {
    hide LinesAfter, MergedEnv, ReadSettings, UnusedKeys, Writable, Print;
  }

  lemma TextInvKept(cfg: Config, s: State, a: Action)
    requires cfg.Valid() && TextInv(cfg, s) && EditApart(s, a) && Next(cfg, s, a).Some?
    ensures TextInv(cfg, Next(cfg, s, a).value)
  {
    var t := Next(cfg, s, a).value;
    if !a.HandEdit? {
      StepTouches(cfg, s, a);
      if a.Recheck? { RecheckLines(cfg, s, a.i); }
      hide LinesAfter, ReadSettings, UnusedKeys, Next;
      OnlyPhase(s, t, a.i);
      forall j | 0 <= j < |t.phases| ensures LinesAreOf(cfg, t, j) {
        if j != a.i { assert !Active(t.phases[j]); }
      }
    }
  }

  lemma TextStep(cfg: Config, s: State, a: Action)
    requires cfg.Valid() && TextInv(cfg, s) && EditApart(s, a) && Next(cfg, s, a).Some?
    ensures Next(cfg, s, a).value.settings == Replay(cfg, s.settings, [EventOf(s, a)])
  {
    assert [EventOf(s, a)][..0] == [];
    assert Replay(cfg, s.settings, [EventOf(s, a)][..0]) == s.settings;
    if !a.HandEdit? {
      StepTouches(cfg, s, a);
      if a.Replace? {
        ReplaceWrites(cfg, s, a.i);
        assert LinesAreOf(cfg, s, a.i);
      }
      hide LinesAfter, ReadSettings, UnusedKeys, Next, Print;
    }
  }

  /** A run in which hand edits may land anywhere but in that window, and may name any file. */
  ghost predicate ApartRun(cfg: Config, s: State, acts: seq<Action>, t: State)
    requires cfg.Valid()
    decreases |acts|
  {
    if acts == [] then s == t
    else
      && EditApart(s, acts[0]) && Next(cfg, s, acts[0]).Some?
      && ApartRun(cfg, Next(cfg, s, acts[0]).value, acts[1..], t)
  }

  /**
   No update is lost: the file is the committed saves, applied in commit order
   over the hand edits, in every run in which no edit lands between the second
   revision check of a save and its replace.
   */
  lemma {:induction false} NoUpdateLost(cfg: Config, s: State, acts: seq<Action>, t: State)
    requires cfg.Valid() && TextInv(cfg, s) && ApartRun(cfg, s, acts, t)
    ensures t.settings == Replay(cfg, s.settings, Events(cfg, s, acts))
    decreases |acts|
  {
    if acts != [] {
      var next := Next(cfg, s, acts[0]).value;
      TextInvKept(cfg, s, acts[0]);
      TextStep(cfg, s, acts[0]);
      NoUpdateLost(cfg, next, acts[1..], t);
      var e := EventOf(s, acts[0]);
      assert Events(cfg, s, acts) == [e] + Events(cfg, next, acts[1..]);
      ReplayCons(cfg, s.settings, e, Events(cfg, next, acts[1..]));
    }
  }

  // ---- A save that does not commit ----

  /** What the last hand edit of `acts` left in the file. */
  ghost function LastEdit(settings: Option<string>, acts: seq<Action>): Option<string>
    decreases |acts|
  {
    if acts == [] then settings
    else LastEdit(if acts[0].HandEdit? then acts[0].text else settings, acts[1..])
  }

  predicate HasCommitted(phase: Phase) {
    phase.Swapping? || phase.Cleaning? || (phase.Done? && phase.outcome.Saved?)
  }

  lemma StepFound(cfg: Config, s: State, a: Action, i: nat)
    requires cfg.Valid() && Inv(cfg, s) && Next(cfg, s, a).Some? && i < |s.phases|
    requires a.HandEdit? || (a.i == i && !a.Acquire? && !a.UndoFails?)
    requires s.lock == Some(i) || (s.phases[i].Done? && !s.phases[i].outcome.Saved? && s.files == s.found && s.lock.None?)
    ensures var next := Next(cfg, s, a).value;
            && |next.phases| == |s.phases| && next.found == s.found
            && (next.lock == Some(i)
                || (next.lock.None? && next.phases[i].Done? && (next.phases[i].outcome.Saved? || next.files == next.found)))
  {
    if !a.HandEdit? {
      OnlyHolderSteps(cfg, s, a);
      StepShape(cfg, s, a);
      if a.Read? {
        ReadFound(cfg, s, i);
      } else if a.UndoEnds? {
        UndoEndsClean(cfg, s, i);
      }
    }
  }

  lemma ReadFound(cfg: Config, s: State, i: nat)
    requires cfg.Valid() && Inv(cfg, s) && s.lock == Some(i) && s.phases[i].Reading?
    ensures s.files == s.found
  {
    assert PhaseIs(cfg, s, i);
  }

  /** A step ends its save or leaves it the lock, and no step but an acquire takes a new picture of the files. */
  lemma StepShape(cfg: Config, s: State, a: Action)
    requires cfg.Valid() && Next(cfg, s, a).Some? && !a.HandEdit? && !a.Acquire? && s.lock == Some(a.i)
    ensures var next := Next(cfg, s, a).value;
            && a.i < |s.phases| == |next.phases| && next.found == s.found
            && (next.lock == Some(a.i)
                || (next.lock.None? && next.phases[a.i].Done?
                    && (next.phases[a.i].outcome.Saved? || a.UndoFails?
                        || ((a.Read? || a.UndoEnds?) && next.files == s.files))))
    ensures a.Read? ==> s.phases[a.i].Reading?
    ensures a.UndoEnds? ==> Next(cfg, s, a) == DoEnd(s, a.i, a)
  {
    hide LinesAfter, MergedEnv, ReadSettings, UnusedKeys, Writable, Accepted, SavedKeys, Print, UnusedKeyFiles, KeyPath;
    match a
    case Read(i) =>
    case Merge(i) => if s.phases[i].Writing? && ReadSettings(s.phases[i].read).Ok? { var phase := MergeShape(cfg, s, i); }
    case Recheck(i) => if s.phases[i].Rechecking? && ReadSettings(s.phases[i].read).Ok? { var phase := RecheckShape(cfg, s, i); }
    case _ =>
  }

  lemma UndoEndsClean(cfg: Config, s: State, i: nat)
    requires cfg.Valid() && Inv(cfg, s) && s.lock == Some(i) && DoEnd(s, i, UndoEnds(i)).Some?
    ensures DoEnd(s, i, UndoEnds(i)).value == End(s, i, s.phases[i].outcome) && s.files == s.found
  {
    assert PhaseIs(cfg, s, i);
    assert s.files - {} == s.files;
  }

  lemma CommittedStep(cfg: Config, s: State, a: Action, i: nat)
    requires cfg.Valid() && Inv(cfg, s) && Next(cfg, s, a).Some? && i < |s.phases|
    requires a.HandEdit? || (a.i == i && !a.Acquire?)
    requires HasCommitted(s.phases[i])
    ensures var next := Next(cfg, s, a).value;
            |next.phases| == |s.phases| && next.found == s.found && HasCommitted(next.phases[i])
  {
    hide AfterRead, AfterMerge, AfterRecheck, ReadSettings, Print, UnusedKeyFiles, KeyPath;
  }

  /** The actions of one save, with whatever fails in its rollback, and hand edits. */
  predicate WholeSave(acts: seq<Action>, i: nat) {
    forall a | a in acts :: a.HandEdit? || (a.i == i && !a.Acquire?)
  }

  predicate RollsBack(acts: seq<Action>) {
    forall a | a in acts :: !a.UndoFails?
  }

  /** A save that has ended takes no more steps. */
  lemma {:induction false} EndedStays(cfg: Config, s: State, acts: seq<Action>, t: State, i: nat)
    requires cfg.Valid() && Inv(cfg, s) && Run(cfg, s, acts, t) && WholeSave(acts, i) && s.lock.None?
    ensures t.files == s.files && t.phases == s.phases && t.settings == LastEdit(s.settings, acts) && RollsBack(acts)
    decreases |acts|
  {
    if acts != [] {
      assert acts[0] in acts && forall a | a in acts[1..] :: a in acts;
      if !acts[0].HandEdit? { OnlyHolderSteps(cfg, s, acts[0]); }
      StepKeeps(cfg, s, acts[0]);
      EndedStays(cfg, Next(cfg, s, acts[0]).value, acts[1..], t, i);
    }
  }

  /** A delete of the rollback fails: the save ends, and a file of its own stays. */
  lemma FailedUndo(cfg: Config, s: State, i: nat)
    requires cfg.Valid() && Inv(cfg, s) && s.lock == Some(i) && Next(cfg, s, UndoFails(i)).Some?
    ensures var next := Next(cfg, s, UndoFails(i)).value;
            && next == End(s, i, Raised) && next.files == s.files && s.files != s.found
  {
    hide LinesAfter, MergedEnv, ReadSettings, UnusedKeys, Writable, Accepted, SavedKeys, Print, UnusedKeyFiles, KeyPath, NamedNow;
    assert PhaseIs(cfg, s, i);
    var left := s.phases[i].left;
    assert left <= s.files.Keys && left != {} && (s.files - left).Keys == s.files.Keys - left;
    var p :| p in left;
    assert p in s.files && p !in s.found;
  }

  lemma {:induction false} FoundExactly(cfg: Config, s: State, acts: seq<Action>, t: State, i: nat)
    requires cfg.Valid() && Inv(cfg, s) && Run(cfg, s, acts, t) && WholeSave(acts, i) && i < |s.phases| && s.lock == Some(i)
    requires !HasCommitted(s.phases[i])
    ensures i < |t.phases| && (t.phases[i].Done? && !t.phases[i].outcome.Saved? ==>
              (t.files == s.found <==> RollsBack(acts)) && t.settings == LastEdit(s.settings, acts))
    decreases |acts|, 0
  {
    if acts == [] {
      assert Active(t.phases[i]);
    } else {
      var a, rest, next := acts[0], acts[1..], Next(cfg, s, acts[0]).value;
      assert a in acts && acts == [a] + rest && forall b | b in rest :: b in acts;
      StepKeeps(cfg, s, a);
      OnlyReplaceWrites(cfg, s, a);
      if a.UndoFails? {
        FailedUndo(cfg, s, i);
        EndedStays(cfg, next, rest, t, i);
      } else {
        StepFound(cfg, s, a, i);
        AfterStep(cfg, s, a, next, rest, t, i);
        assert RollsBack(acts) <==> RollsBack(rest);
      }
    }
  }

  /** What the rest of the run comes to after one step of the save or a hand edit. */
  lemma AfterStep(cfg: Config, s: State, a: Action, next: State, rest: seq<Action>, t: State, i: nat)
    requires cfg.Valid() && Inv(cfg, next) && Run(cfg, next, rest, t) && WholeSave(rest, i) && i < |s.phases| == |next.phases|
    requires next.found == s.found && (a.HandEdit? ==> next.settings == a.text)
    requires next.settings != s.settings ==> a.Replace? || a.HandEdit?
    requires a.Replace? ==> HasCommitted(next.phases[i])
    requires next.lock == Some(i)
             || (next.lock.None? && next.phases[i].Done? && (next.phases[i].outcome.Saved? || next.files == next.found))
    ensures i < |t.phases| && (t.phases[i].Done? && !t.phases[i].outcome.Saved? ==>
              (t.files == s.found <==> RollsBack(rest)) && t.settings == LastEdit(if a.HandEdit? then a.text else s.settings, rest))
    decreases |rest|, 1
  {
    hide Inv, RollsBack, WholeSave, Active;
    if next.lock.None? {
      EndedStays(cfg, next, rest, t, i);
    } else if HasCommitted(next.phases[i]) {
      CommittedStays(cfg, next, rest, t, i);
    } else {
      FoundExactly(cfg, next, rest, t, i);
    }
  }

  lemma {:induction false} CommittedStays(cfg: Config, s: State, acts: seq<Action>, t: State, i: nat)
    requires cfg.Valid() && Inv(cfg, s) && Run(cfg, s, acts, t) && WholeSave(acts, i) && i < |s.phases|
    requires HasCommitted(s.phases[i])
    ensures |t.phases| == |s.phases| && HasCommitted(t.phases[i])
    decreases |acts|
  {
    if acts != [] {
      assert acts[0] in acts && forall a | a in acts[1..] :: a in acts;
      StepKeeps(cfg, s, acts[0]);
      CommittedStep(cfg, s, acts[0], i);
      CommittedStays(cfg, Next(cfg, s, acts[0]).value, acts[1..], t, i);
    }
  }

  /**
   A save that does not commit leaves `settings.env` as found or as the last hand
   edit left it, and the directory as it found it exactly where no delete of its
   rollback fails.
   */
  lemma FailedSaveLeavesAll(cfg: Config, s: State, i: nat, acts: seq<Action>, t: State)
    requires cfg.Valid() && Inv(cfg, s) && Run(cfg, s, [Acquire(i)] + acts, t) && WholeSave(acts, i)
    requires i < |t.phases| && t.phases[i].Done? && !t.phases[i].outcome.Saved?
    ensures t.files == s.files <==> RollsBack(acts)
    ensures t.settings == LastEdit(s.settings, acts)
  {
    var all := [Acquire(i)] + acts;
    assert all[0] == Acquire(i) && all[1..] == acts;
    StepKeeps(cfg, s, Acquire(i));
    FoundExactly(cfg, Next(cfg, s, Acquire(i)).value, acts, t, i);
  }

  /** No step but the replace and a hand edit writes `settings.env`. */
  lemma OnlyReplaceWrites(cfg: Config, s: State, a: Action)
    requires cfg.Valid() && Next(cfg, s, a).Some?
    ensures Next(cfg, s, a).value.settings != s.settings ==> a.Replace? || a.HandEdit?
    ensures a.Replace? ==>
              a.i < |s.phases| && Next(cfg, s, a).value.phases == s.phases[a.i := Next(cfg, s, a).value.phases[a.i]]
              && Next(cfg, s, a).value.phases[a.i].Swapping?
  {
  }

  /** The code's window: a hand edit between the second revision check and the replace is overwritten, whatever it holds. */
  lemma EditBeforeReplaceIsLost(cfg: Config, s: State, i: nat, text: Option<string>)
    requires cfg.Valid() && i < |s.phases| == |cfg.saves| && s.phases[i].Replacing?
    ensures var edited := Next(cfg, s, HandEdit(text)).value;
            Next(cfg, edited, Replace(i)).Some?
            && Next(cfg, edited, Replace(i)).value == Next(cfg, s, Replace(i)).value
  {
  }
}
