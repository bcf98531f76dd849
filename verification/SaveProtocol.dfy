/**
 The save protocol as a state machine: any number of saves that share one
 lock, a failure at every step, and hand edits of `settings.env` between steps.
 */
module SaveProtocol {
  import opened Results
  import opened SettingsFile
  import opened SettingsLines
  import opened SaveRules
  import opened KeyFiles

  datatype Config = Config(cat: Catalog, process: Env, dir: string, saves: seq<Save>) {
    ghost predicate Valid() {
      && cat.Valid()
      && (forall i | 0 <= i < |saves| :: saves[i].Valid())
      && forall v | v in cat.secrets :: IsKey(v) && KeyStem(v) != ""
    }
  }

  datatype Outcome = Saved | Conflict | Refused | Raised

  /** Where one save stands. It holds the lock in every phase but the first and the last. */
  datatype Phase =
    | Waiting
    | Reading
    | Writing(read: string, todo: seq<KeyText>, written: map<string, Path>)
    | Checking(read: string, written: map<string, Path>, checked: Env)
    | Rechecking(read: string, written: map<string, Path>, checked: Env, tiers: Option<set<string>>)
    | Replacing(read: string, written: map<string, Path>, checked: Env, tiers: Option<set<string>>,
                lines: seq<SettingsLine>, env: Env)
    | Undoing(left: set<Path>, outcome: Outcome)
    | Swapping(checked: Env, tiers: Option<set<string>>, env: Env)
    | Cleaning(env: Env, left: set<Path>)
    | Done(outcome: Outcome)

  /** `found` holds the files as the save that holds the lock found them. */
  datatype State = State(
    settings: Option<string>, files: Files, lock: Option<nat>, phases: seq<Phase>,
    found: Files, deployed: Option<Env>)

  datatype Action =
    | Acquire(i: nat)
    | Read(i: nat)
    | WriteKey(i: nat, token: string)
    | WriteFails(i: nat, outcome: Outcome)
    | Merge(i: nat)
    | CheckFails(i: nat, outcome: Outcome)
    | CheckPasses(i: nat, tiers: Option<set<string>>)
    | Recheck(i: nat)
    | Replace(i: nat)
    | ReplaceFails(i: nat, outcome: Outcome)
    | Undo(i: nat, path: Path)
    | UndoFails(i: nat)
    | UndoEnds(i: nat)
    | Swap(i: nat)
    | ListFails(i: nat)
    | Delete(i: nat, path: Path)
    | DeleteFails(i: nat)
    | CleanEnds(i: nat)
    | HandEdit(text: Option<string>)

  // ---- The steps ----

  function Text(settings: Option<string>): string {
    if settings.None? then "" else settings.value
  }

  function Texts(dir: string, written: map<string, Path>): Env {
    map v | v in written :: PathText(dir, written[v])
  }

  function To(s: State, i: nat, phase: Phase): State
    requires i < |s.phases|
  {
    s.(phases := s.phases[i := phase])
  }

  /** The save ends and lets the lock go. */
  function End(s: State, i: nat, outcome: Outcome): State
    requires i < |s.phases|
  {
    To(s, i, Done(outcome)).(lock := None)
  }

  function Owned(phase: Phase): set<Path> {
    match phase
    case Writing(_, _, written) => written.Values
    case Checking(_, written, _) => written.Values
    case Rechecking(_, written, _, _) => written.Values
    case Replacing(_, written, _, _, _, _) => written.Values
    case Undoing(left, _) => left
    case _ => {}
  }

  function UndoFor(s: State, i: nat, outcome: Outcome): State
    requires i < |s.phases|
  {
    To(s, i, Undoing(Owned(s.phases[i]), outcome))
  }

  /** The save starts: an unreadable file, a stale revision and a refused body end it at once. */
  ghost function AfterRead(cfg: Config, s: State, i: nat): State
    requires i < |s.phases| == |cfg.saves|
  {
    var text, save := Text(s.settings), cfg.saves[i];
    match ReadSettings(text)
    case Err(_) => End(s, i, Refused)
    case Ok(lines) =>
      if save.revision != text then End(s, i, Conflict)
      else if !Accepted(cfg.cat, cfg.process, save, lines) then End(s, i, Refused)
      else To(s, i, Writing(text, SavedKeys(cfg.cat, save.changes), map[]))
  }

  ghost function AfterMerge(cfg: Config, s: State, i: nat): State
    requires cfg.Valid() && i < |s.phases| == |cfg.saves| && s.phases[i].Writing?
    requires ReadSettings(s.phases[i].read).Ok?
  {
    var p := s.phases[i];
    match LinesAfter(cfg, i, p.read, p.written, {})
    case Err(_) => UndoFor(s, i, Raised)
    case Ok(lines) =>
      match MergedEnv(cfg.cat, cfg.process, lines)
      case None => UndoFor(s, i, Refused)
      case Some(env) => To(s, i, Checking(p.read, p.written, env))
  }

  ghost function AfterRecheck(cfg: Config, s: State, i: nat): State
    requires cfg.Valid() && i < |s.phases| == |cfg.saves| && s.phases[i].Rechecking?
    requires ReadSettings(s.phases[i].read).Ok?
  {
    var p := s.phases[i];
    if ReadSettings(Text(s.settings)).Err? then UndoFor(s, i, Refused)
    else if Text(s.settings) != p.read then UndoFor(s, i, Conflict)
    else
      match LinesAfter(cfg, i, p.read, p.written, UnusedKeys(cfg.cat, p.tiers))
      case Err(_) => UndoFor(s, i, Raised)
      case Ok(lines) =>
        match MergedEnv(cfg.cat, cfg.process, lines)
        case None => UndoFor(s, i, Refused)
        case Some(env) =>
          if !Writable(lines) then UndoFor(s, i, Refused)
          else To(s, i, Replacing(p.read, p.written, p.checked, p.tiers, lines, env))
  }

  /** The lines that save `i` makes of a file that holds `read`. */
  ghost function LinesAfter(
    cfg: Config, i: nat, read: string, written: map<string, Path>, drop: set<string>
  ): Result<seq<SettingsLine>, LineError>
    requires cfg.Valid() && i < |cfg.saves| && ReadSettings(read).Ok?
  {
    ReadsDistinct(read, 1, []);
    SavedForm(cfg.cat, ReadSettings(read).value, cfg.saves[i], Texts(cfg.dir, written), drop)
  }

  // Each action, where the phase of its save allows it.

  function DoAcquire(s: State, i: nat): Option<State>
    requires i < |s.phases|
  {
    if s.lock.Some? || !s.phases[i].Waiting? then None
    else Some(To(s, i, Reading).(lock := Some(i), found := s.files))
  }

  function DoWriteKey(s: State, i: nat, token: string): Option<State>
    requires i < |s.phases|
  {
    match s.phases[i]
    case Writing(read, todo, written) =>
      if todo == [] || !IsToken(token) || KeyPath(todo[0], token) in s.files then None
      else
        var path := KeyPath(todo[0], token);
        Some(To(s, i, Writing(read, todo[1..], written[todo[0].variable := path]))
             .(files := s.files[path := todo[0].text]))
    case _ => None
  }

  /** An error in a phase that undoes the save's own files. */
  function DoFail(s: State, i: nat, outcome: Outcome, allowed: bool): Option<State>
    requires i < |s.phases|
  {
    if !allowed || outcome.Saved? then None else Some(UndoFor(s, i, outcome))
  }

  function DoReplace(s: State, i: nat): Option<State>
    requires i < |s.phases|
  {
    match s.phases[i]
    case Replacing(_, _, checked, tiers, lines, env) =>
      Some(To(s, i, Swapping(checked, tiers, env)).(settings := Some(Print(lines))))
    case _ => None
  }

  function DoUndo(s: State, i: nat, path: Path): Option<State>
    requires i < |s.phases|
  {
    match s.phases[i]
    case Undoing(left, outcome) =>
      if path !in left then None
      else Some(To(s, i, Undoing(left - {path}, outcome)).(files := s.files - {path}))
    case _ => None
  }

  function DoSwap(cfg: Config, s: State, i: nat): Option<State>
    requires i < |s.phases|
  {
    match s.phases[i]
    case Swapping(checked, _, env) =>
      Some(To(s, i, Cleaning(env, UnusedKeyFiles(cfg.cat, cfg.dir, s.files, env))).(deployed := Some(checked)))
    case _ => None
  }

  function DoDelete(s: State, i: nat, path: Path): Option<State>
    requires i < |s.phases|
  {
    match s.phases[i]
    case Cleaning(env, left) =>
      if path !in left then None
      else Some(To(s, i, Cleaning(env, left - {path})).(files := s.files - {path}))
    case _ => None
  }

  /** The end of a save, where its undo or its cleanup ends or fails. */
  function DoEnd(s: State, i: nat, a: Action): Option<State>
    requires i < |s.phases|
  {
    match (a, s.phases[i])
    case (UndoFails(_), Undoing(left, _)) => if left == {} then None else Some(End(s, i, Raised))
    case (UndoEnds(_), Undoing(left, outcome)) => if left != {} then None else Some(End(s, i, outcome))
    case (ListFails(_), Swapping(checked, _, _)) => Some(End(s, i, Saved).(deployed := Some(checked)))
    case (DeleteFails(_), Cleaning(_, left)) => if left == {} then None else Some(End(s, i, Saved))
    case (CleanEnds(_), Cleaning(_, left)) => if left != {} then None else Some(End(s, i, Saved))
    case _ => None
  }

  /** One step, or nothing where the state does not allow it. */
  ghost function Next(cfg: Config, s: State, a: Action): Option<State>
    requires cfg.Valid()
  {
    if a.HandEdit? then Some(s.(settings := a.text))
    else if !(a.i < |s.phases| == |cfg.saves|) then None
    else
      var p := s.phases[a.i];
      match a
      case Acquire(i) => DoAcquire(s, i)
      case Read(i) => if p.Reading? then Some(AfterRead(cfg, s, i)) else None
      case WriteKey(i, token) => DoWriteKey(s, i, token)
      case WriteFails(i, outcome) => DoFail(s, i, outcome, p.Writing? && p.todo != [])
      case Merge(i) =>
        if p.Writing? && p.todo == [] && ReadSettings(p.read).Ok? then Some(AfterMerge(cfg, s, i)) else None
      case CheckFails(i, outcome) => DoFail(s, i, outcome, p.Checking?)
      case CheckPasses(i, tiers) =>
        if p.Checking? then Some(To(s, i, Rechecking(p.read, p.written, p.checked, tiers))) else None
      case Recheck(i) =>
        if p.Rechecking? && ReadSettings(p.read).Ok? then Some(AfterRecheck(cfg, s, i)) else None
      case Replace(i) => DoReplace(s, i)
      case ReplaceFails(i, outcome) => DoFail(s, i, outcome, p.Replacing?)
      case Undo(i, path) => DoUndo(s, i, path)
      case Swap(i) => DoSwap(cfg, s, i)
      case Delete(i, path) => DoDelete(s, i, path)
      case UndoFails(i) => DoEnd(s, i, a)
      case UndoEnds(i) => DoEnd(s, i, a)
      case ListFails(i) => DoEnd(s, i, a)
      case DeleteFails(i) => DoEnd(s, i, a)
      case CleanEnds(i) => DoEnd(s, i, a)
      case HandEdit(_) => None
  }

  // ---- What each run keeps ----

  function LooseOf(cfg: Config, settings: Option<string>): Env {
    LooseEnv(cfg.process, match ReadSettings(Text(settings)) case Ok(lines) => lines case Err(_) => [])
  }

  /** Each file that a key variable of the merged mapping names now. */
  function NamedNow(cfg: Config, s: State): set<Path> {
    Named(cfg.cat, cfg.dir, LooseOf(cfg, s.settings))
  }

  predicate Active(phase: Phase) {
    !phase.Waiting? && !phase.Done?
  }

  /** A file whose name a cleanup reads as a key file. */
  predicate IsKeyPath(cat: Catalog, path: Path) {
    path.InDir? && HasKeyForm(path.name) && StemOf(path.name) in set v | v in cat.secrets :: KeyStem(v)
  }

  ghost predicate ReadIs(cfg: Config, i: nat, read: string)
    requires i < |cfg.saves|
  {
    && cfg.saves[i].revision == read && ReadSettings(read).Ok?
    && Accepted(cfg.cat, cfg.process, cfg.saves[i], ReadSettings(read).value)
  }

  ghost predicate WrittenIs(cfg: Config, s: State, i: nat, written: map<string, Path>)
    requires i < |cfg.saves|
  {
    && (forall v | v in written ::
          && written[v] in s.files && IsKeyPath(cfg.cat, written[v])
          && '/' !in written[v].name
          && KeyText(v, s.files[written[v]]) in SavedKeys(cfg.cat, cfg.saves[i].changes))
    && forall u, v | u in written && v in written && u != v :: written[u] != written[v]
  }

  /** The keys still to write: the rest of the save's keys, once each. */
  ghost predicate TodoIs(cfg: Config, i: nat, todo: seq<KeyText>, written: map<string, Path>)
    requires i < |cfg.saves|
  {
    && written.Keys + KeyVariables(todo) == KeyVariables(SavedKeys(cfg.cat, cfg.saves[i].changes))
    && written.Keys !! KeyVariables(todo)
    && (forall j, k | 0 <= j < k < |todo| :: todo[j].variable != todo[k].variable)
    && (forall k | k in todo :: k in SavedKeys(cfg.cat, cfg.saves[i].changes) && k.variable in cfg.cat.secrets)
  }

  ghost predicate AllWritten(cfg: Config, i: nat, written: map<string, Path>)
    requires i < |cfg.saves|
  {
    written.Keys == KeyVariables(SavedKeys(cfg.cat, cfg.saves[i].changes))
  }

  /** Before the commit: only the save's own new files are new, and the mapping names none of them. */
  ghost predicate Uncommitted(cfg: Config, s: State, owned: set<Path>) {
    && s.files - owned == s.found && owned <= s.files.Keys
    && NamedNow(cfg, s) !! owned
    && forall p | p in owned :: IsKeyPath(cfg.cat, p)
  }

  ghost predicate PhaseIs(cfg: Config, s: State, i: nat)
    requires cfg.Valid() && i < |s.phases| == |cfg.saves|
  {
    match s.phases[i]
    case Waiting => true
    case Done(_) => true
    case Reading => s.files == s.found
    case Writing(read, todo, written) =>
      && Uncommitted(cfg, s, written.Values) && ReadIs(cfg, i, read) && WrittenIs(cfg, s, i, written)
      && TodoIs(cfg, i, todo, written)
    case Checking(read, written, checked) =>
      && Uncommitted(cfg, s, written.Values) && ReadIs(cfg, i, read) && WrittenIs(cfg, s, i, written)
      && AllWritten(cfg, i, written)
      && IsChecked(cfg, i, read, written, checked)
    case Rechecking(read, written, checked, _) =>
      && Uncommitted(cfg, s, written.Values) && ReadIs(cfg, i, read) && WrittenIs(cfg, s, i, written)
      && AllWritten(cfg, i, written)
      && IsChecked(cfg, i, read, written, checked)
    case Replacing(read, written, checked, tiers, lines, env) =>
      && Uncommitted(cfg, s, written.Values) && ReadIs(cfg, i, read) && WrittenIs(cfg, s, i, written)
      && AllWritten(cfg, i, written)
      && Text(s.settings) == read && IsCommit(cfg, i, read, written, tiers, lines, env)
      && IsChecked(cfg, i, read, written, checked)
    case Undoing(left, outcome) => Uncommitted(cfg, s, left) && !outcome.Saved?
    case Swapping(checked, tiers, env) => IsCurrent(cfg, s, env) && EqualBut(cfg, checked, env, tiers)
    case Cleaning(env, left) => IsCurrent(cfg, s, env) && left == UnusedKeyFiles(cfg.cat, cfg.dir, s.files, env)
  }

  ghost predicate IsChecked(cfg: Config, i: nat, read: string, written: map<string, Path>, checked: Env)
    requires cfg.Valid() && i < |cfg.saves| && ReadSettings(read).Ok?
  {
    && LinesAfter(cfg, i, read, written, {}).Ok?
    && MergedEnv(cfg.cat, cfg.process, LinesAfter(cfg, i, read, written, {}).value) == Some(checked)
  }

  ghost predicate IsCommit(
    cfg: Config, i: nat, read: string, written: map<string, Path>, tiers: Option<set<string>>,
    lines: seq<SettingsLine>, env: Env)
    requires cfg.Valid() && i < |cfg.saves| && ReadSettings(read).Ok?
  {
    && LinesAfter(cfg, i, read, written, UnusedKeys(cfg.cat, tiers)) == Ok(lines)
    && MergedEnv(cfg.cat, cfg.process, lines) == Some(env) && Writable(lines)
  }

  ghost predicate IsCurrent(cfg: Config, s: State, env: Env) {
    LooseOf(cfg, s.settings) == env
  }

  /** The deployment built from `checked` and the saved mapping differ on dropped key variables alone. */
  ghost predicate EqualBut(cfg: Config, checked: Env, env: Env, tiers: Option<set<string>>) {
    && env.Keys == checked.Keys - (UnusedKeys(cfg.cat, tiers) - cfg.process.Keys)
    && forall v | v in env :: env[v] == checked[v]
  }

  /** The invariant: one save at a time, and every key variable names a file that exists. */
  ghost predicate Inv(cfg: Config, s: State)
    requires cfg.Valid()
  {
    && |s.phases| == |cfg.saves|
    && (forall i | 0 <= i < |s.phases| :: Active(s.phases[i]) <==> s.lock == Some(i))
    && (s.lock.Some? ==> s.lock.value < |s.phases|)
    && NamedNow(cfg, s) <= s.files.Keys
    && (s.lock.Some? ==> PhaseIs(cfg, s, s.lock.value))
  }

  /** The files of the saves that have not committed. */
  function Unsettled(s: State): set<Path> {
    if s.lock.Some? && s.lock.value < |s.phases| then Owned(s.phases[s.lock.value]) else {}
  }

  /** From the second revision check of a save to the end of its cleanup. */
  predicate Commits(phase: Phase) { phase.Replacing? || phase.Swapping? || phase.Cleaning? }

  /**
   What a hand edit may do: land anywhere but while a save commits, and name only
   files that exist and belong to no uncommitted save.
   */
  ghost predicate Polite(cfg: Config, s: State, a: Action) {
    a.HandEdit? ==>
      && (forall i | 0 <= i < |s.phases| :: !Commits(s.phases[i]))
      && Named(cfg.cat, cfg.dir, LooseOf(cfg, a.text)) <= s.files.Keys - Unsettled(s)
  }
}
