/**
 The continue of a job that pauses for its Controls alone, racing with readers
 that hold an older record of it. The job runs in one task of the process; the
 task continues it, stores a refusal, or leaves it.
 */
module ContinueHandoff {
  import opened Results
  import opened JobStore
  import Chains = ResumeChains

  /** Where the task of the job is. It is registered until `Gone`, and never comes back. */
  datatype Task = Runs | Continues | InRoom | Leaves | Refused(words: string) | Done | Gone

  datatype Words = Stored(words: string) | NotContinued

  datatype Said = Continued(child: JobId) | Questions(words: Option<Words>)

  /** A reader of the job: a stream follows the task first, then both read the refusal. */
  datatype Reader =
    | Idle
    | Streams(record: Row)
    | Follows(record: Row)
    | Followed(record: Row)
    | HasRecord(record: Row)
    | Unattended(record: Row)
    | NoWords(record: Row)
    | Answered(said: Said)

  datatype State = State(store: Store, task: Task, reader: Reader)

  datatype Action =
    | Others(step: Chains.Step)
    | RunReturns(stopped: bool)
    | MakesRoom(refusal: Option<string>)
    | Admits(child: Row, revision: nat, budget: bool, words: string)
    | LeavesRoom(refusal: Option<string>)
    | StoresRefusal(fails: bool)
    | TaskEnds
    | StartsStream
    | StartsRead
    | ChecksTask
    | TaskSettled
    | LooksForContinue
    | ReadsAgain
    | LooksForChild

  // ---- The task ----

  /** Admits the Resumed Job of a job that still waits at its pause; a refusal is kept for storing. */
  function Admit(s: State, j: JobId, child: Row, revision: nat, budget: bool, refusal: string): State {
    if !Held(s.store, j) then s.(task := Refused(refusal))
    else if !WaitsToContinue(s.store[j]) then s.(task := Leaves)
    else
      match Reserve(s.store, child, revision, budget)
      case Ok(t) => s.(store := t, task := Leaves)
      case Err(_) => s.(task := Refused(refusal))
  }

  function StoreWords(s: State, j: JobId, fails: bool): State
    requires s.task.Refused?
  {
    if fails || !Held(s.store, j) then s.(task := Done)
    else s.(store := s.store[j := s.store[j].(refusal := Some(s.task.words))], task := Done)
  }

  predicate TaskStep(j: JobId, s: State, a: Action, t: State) {
    match a
    case RunReturns(stopped) => s.task.Runs? && t == s.(task := if stopped then Done else Continues)
    case MakesRoom(refusal) => s.task.Continues? && t == s.(task := if refusal.Some? then Refused(refusal.value) else InRoom)
    case Admits(child, revision, budget, words) =>
      s.task.InRoom? && IsNew(child) && child.resumes == Some(j) && t == Admit(s, j, child, revision, budget, words)
    case LeavesRoom(refusal) => s.task.Leaves? && t == s.(task := if refusal.Some? then Refused(refusal.value) else Done)
    case StoresRefusal(fails) => s.task.Refused? && t == StoreWords(s, j, fails)
    case TaskEnds => s.task.Done? && t == s.(task := Gone)
    case _ => false
  }

  // ---- The reader ----

  predicate Continuing(s: State, record: Row) { WaitsToContinue(record) && s.task != Gone }

  predicate ReaderStep(j: JobId, s: State, a: Action, t: State) {
    match a
    case StartsStream => s.reader.Idle? && Held(s.store, j) && t == s.(reader := Streams(s.store[j]))
    case StartsRead => s.reader.Idle? && Held(s.store, j) && t == s.(reader := HasRecord(s.store[j]))
    case TaskSettled => s.reader.Follows? && s.task == Gone && t == s.(reader := Followed(s.reader.record))
    case LooksForContinue => s.reader.Followed? && t == s.(reader :=
      if ResumedBy(s.store, j).Some? then Answered(Continued(ResumedBy(s.store, j).value)) else HasRecord(s.reader.record))
    case ChecksTask => t == s.(reader := CheckTask(s)) && (s.reader.Streams? || s.reader.HasRecord?)
    case ReadsAgain => s.reader.Unattended? && t == s.(reader := ReadAgain(s, j))
    case LooksForChild => s.reader.NoWords? && t == s.(reader :=
      Answered(Questions(if ResumedBy(s.store, j) == None then Some(NotContinued) else None)))
    case _ => false
  }

  /** What a reader does next once it knows whether the task is still there. */
  function CheckTask(s: State): Reader {
    match s.reader
    case Streams(record) =>
      if !WaitsToContinue(record) then HasRecord(record)
      else if s.task != Gone then Follows(record)
      else Followed(record)
    case HasRecord(record) =>
      if record.refusal.Some? then Answered(Questions(Some(Stored(record.refusal.value))))
      else if !WaitsToContinue(record) || Continuing(s, record) then Answered(Questions(None))
      else Unattended(record)
    case other => other
  }

  /** The store holds the refusal or the Resumed Job by now, though the record was read before. */
  function ReadAgain(s: State, j: JobId): Reader
    requires s.reader.Unattended?
  {
    if Held(s.store, j) && s.store[j].form != Unparsed && s.store[j].refusal.Some?
    then Answered(Questions(Some(Stored(s.store[j].refusal.value))))
    else NoWords(s.reader.record)
  }

  predicate Next(j: JobId, s: State, a: Action, t: State) {
    match a
    case Others(step) =>
      && !(step.StoreRefusal? && step.i == j)
      && Chains.Next(s.store, step, t.store) && t == s.(store := t.store)
    case _ => TaskStep(j, s, a, t) || ReaderStep(j, s, a, t)
  }

  /** The rows let the task continue the job: it still waits at its pause as it was read, nobody continued it, nothing runs, and the budget holds. */
  predicate CanContinue(s: Store, j: JobId, revision: nat, budget: bool) {
    && j < |s| && s[j].held && s[j].continues && s[j].status == AwaitingAnswers && s[j].revision == revision && budget
    && (forall c | 0 <= c < |s| && Parent(s[c]) == Some(j) :: !TookAnswers(s[c]))
    && forall c | 0 <= c < |s| :: !RunsNow(s[c])
  }

  /**
   What the task's admission does, by the rows. Exactly where they let it, the new
   job comes in, locks the job, and clears its refusal. Otherwise nothing is stored;
   the words are kept for storing, unless the job is there and waits no more.
   */
  lemma AdmissionContinues(j: JobId, s: State, child: Row, revision: nat, budget: bool, words: string, t: State)
    requires TaskStep(j, s, Admits(child, revision, budget, words), t)
    ensures CanContinue(s.store, j, revision, budget) ==>
              && t == s.(store := s.store[j := s.store[j].(refusal := None)] + [child], task := Leaves)
              && ResumedBy(t.store, j) == Some(|s.store|)
    ensures !CanContinue(s.store, j, revision, budget) ==>
              t == s.(task := if j < |s.store| && s.store[j].held && !(s.store[j].continues && s.store[j].status == AwaitingAnswers)
                              then Leaves else Refused(words))
  {
    ReserveWhen(s.store, child, revision, budget);
    if Reserve(s.store, child, revision, budget).Ok? {
      Chains.AdmittedLocks(s.store, child, revision, budget, child, revision);
    }
  }

  /** Storing the words changes nothing else, and nothing at all where it fails or the job is gone. */
  lemma WordsAreStored(j: JobId, s: State, fails: bool, t: State)
    requires TaskStep(j, s, StoresRefusal(fails), t)
    ensures s.task.Refused? && t.task == Done && t.reader == s.reader && |t.store| == |s.store|
    ensures forall i | 0 <= i < |s.store| ::
              t.store[i] == if i == j && s.store[j].held && !fails then s.store[j].(refusal := Some(s.task.words)) else s.store[i]
  {
  }

  /** How far the task is. */
  function Rank(task: Task): nat {
    match task
    case Runs => 0
    case Continues => 1
    case InRoom => 2
    case Leaves => 3
    case Refused(_) => 4
    case Done => 5
    case Gone => 6
  }

  /** No step of the task goes back or stays where it is, and no other step moves it. */
  lemma TaskAdvances(j: JobId, s: State, a: Action, t: State)
    requires Next(j, s, a, t)
    ensures TaskStep(j, s, a, t) ==> Rank(s.task) < Rank(t.task)
    ensures !TaskStep(j, s, a, t) ==> t.task == s.task
  {
    if TaskStep(j, s, a, t) && a.Admits? {
      AdmissionContinues(j, s, a.child, a.revision, a.budget, a.words, t);
    }
  }

  /** How far a reader is. */
  function Progress(reader: Reader): nat {
    match reader
    case Idle => 0
    case Streams(_) => 1
    case Follows(_) => 2
    case Followed(_) => 3
    case HasRecord(_) => 4
    case Unattended(_) => 5
    case NoWords(_) => 6
    case Answered(_) => 7
  }

  /** Nor does a step of the reader; it leaves store and task alone, and no other step moves the reader. */
  lemma ReaderAdvances(j: JobId, s: State, a: Action, t: State)
    requires Next(j, s, a, t)
    ensures ReaderStep(j, s, a, t) ==> Progress(s.reader) < Progress(t.reader) && t.store == s.store && t.task == s.task
    ensures !ReaderStep(j, s, a, t) ==> t.reader == s.reader
  {
  }

  /** Some step of this kind leads the task on. */
  ghost predicate TaskCan(j: JobId, s: State, a: Action) { exists t :: TaskStep(j, s, a, t) }

  /** The task is never stuck: each phase has a step for every answer of the run, of the room and of the store. */
  lemma TaskNeverStuck(j: JobId, s: State)
    ensures match s.task
            case Runs => forall stopped :: TaskCan(j, s, RunReturns(stopped))
            case Continues => forall refusal :: TaskCan(j, s, MakesRoom(refusal))
            case InRoom => forall child, revision, budget, words | IsNew(child) && child.resumes == Some(j) ::
              TaskCan(j, s, Admits(child, revision, budget, words))
            case Leaves => forall refusal :: TaskCan(j, s, LeavesRoom(refusal))
            case Refused(_) => forall fails :: TaskCan(j, s, StoresRefusal(fails))
            case Done => TaskCan(j, s, TaskEnds)
            case Gone => true
  {
    match s.task
    case Runs =>
      forall stopped ensures TaskCan(j, s, RunReturns(stopped)) {
        assert TaskStep(j, s, RunReturns(stopped), s.(task := if stopped then Done else Continues));
      }
    case Continues =>
      forall refusal ensures TaskCan(j, s, MakesRoom(refusal)) {
        assert TaskStep(j, s, MakesRoom(refusal), s.(task := if refusal.Some? then Refused(refusal.value) else InRoom));
      }
    case InRoom =>
      forall child, revision, budget, words | IsNew(child) && child.resumes == Some(j)
        ensures TaskCan(j, s, Admits(child, revision, budget, words))
      {
        assert TaskStep(j, s, Admits(child, revision, budget, words), Admit(s, j, child, revision, budget, words));
      }
    case Leaves =>
      forall refusal ensures TaskCan(j, s, LeavesRoom(refusal)) {
        assert TaskStep(j, s, LeavesRoom(refusal), s.(task := if refusal.Some? then Refused(refusal.value) else Done));
      }
    case Refused(_) =>
      forall fails ensures TaskCan(j, s, StoresRefusal(fails)) {
        assert TaskStep(j, s, StoresRefusal(fails), StoreWords(s, j, fails));
      }
    case Done => assert TaskStep(j, s, TaskEnds, s.(task := Gone));
    case Gone =>
  }

  /** Some step of this kind leads the reader on. */
  ghost predicate LeadsOn(j: JobId, s: State, a: Action) { exists t :: ReaderStep(j, s, a, t) }

  /** Nor is a reader stuck, but while it follows a task that is still there. */
  lemma ReaderNeverStuck(j: JobId, s: State)
    ensures match s.reader
            case Idle => Held(s.store, j) ==> LeadsOn(j, s, StartsStream) && LeadsOn(j, s, StartsRead)
            case Streams(_) => LeadsOn(j, s, ChecksTask)
            case Follows(_) => s.task == Gone ==> LeadsOn(j, s, TaskSettled)
            case Followed(_) => LeadsOn(j, s, LooksForContinue)
            case HasRecord(_) => LeadsOn(j, s, ChecksTask)
            case Unattended(_) => LeadsOn(j, s, ReadsAgain)
            case NoWords(_) => LeadsOn(j, s, LooksForChild)
            case Answered(_) => true
  {
    match s.reader
    case Idle =>
      if Held(s.store, j) {
        assert ReaderStep(j, s, StartsStream, s.(reader := Streams(s.store[j])));
        assert ReaderStep(j, s, StartsRead, s.(reader := HasRecord(s.store[j])));
      }
    case Streams(_) => assert ReaderStep(j, s, ChecksTask, s.(reader := CheckTask(s)));
    case Follows(record) => assert s.task == Gone ==> ReaderStep(j, s, TaskSettled, s.(reader := Followed(record)));
    case Followed(record) =>
      assert ReaderStep(j, s, LooksForContinue, s.(reader :=
        if ResumedBy(s.store, j).Some? then Answered(Continued(ResumedBy(s.store, j).value)) else HasRecord(record)));
    case HasRecord(_) => assert ReaderStep(j, s, ChecksTask, s.(reader := CheckTask(s)));
    case Unattended(_) => assert ReaderStep(j, s, ReadsAgain, s.(reader := ReadAgain(s, j)));
    case NoWords(_) =>
      assert ReaderStep(j, s, LooksForChild, s.(reader := Answered(Questions(if ResumedBy(s.store, j) == None then Some(NotContinued) else None))));
    case Answered(_) =>
  }

  /** Everyone else can take any step of the store but the one that stores this job's refusal, and moves neither the task nor the reader. */
  lemma OthersGoOn(j: JobId, s: State, step: Chains.Step, t: State)
    ensures Next(j, s, Others(step), t) <==>
              && !(step.StoreRefusal? && step.i == j) && Chains.Next(s.store, step, t.store)
              && t.task == s.task && t.reader == s.reader
  {
  }

  /** A reader whose record holds words answers with them, whatever the task does. */
  lemma StoredWordsAreShown(j: JobId, s: State, a: Action, t: State, words: string)
    requires s.reader.HasRecord? && s.reader.record.refusal == Some(words) && ReaderStep(j, s, a, t)
    ensures t.reader == Answered(Questions(Some(Stored(words))))
  {
  }

  /** A stream follows the task exactly of a job that waits to be continued and whose task is there. */
  lemma StreamFollows(j: JobId, s: State, a: Action, t: State)
    requires s.reader.Streams? && ReaderStep(j, s, a, t)
    ensures var record := s.reader.record;
            var waits := record.continues && record.status == AwaitingAnswers;
            && (t.reader == Follows(record) <==> waits && s.task != Gone)
            && (t.reader == Followed(record) <==> waits && s.task == Gone)
            && (t.reader == HasRecord(record) <==> !waits)
  {
  }

  /** The steps of a task that nothing disturbs, from the end of the job's run. */
  ghost predicate Undisturbed(j: JobId, s: State, child: Row, revision: nat, words: string, ends: seq<State>) {
    && |ends| == 5 && Next(j, s, RunReturns(false), ends[0]) && Next(j, ends[0], MakesRoom(None), ends[1])
    && Next(j, ends[1], Admits(child, revision, true, words), ends[2])
    && Next(j, ends[2], LeavesRoom(None), ends[3]) && Next(j, ends[3], TaskEnds, ends[4])
  }

  /** A job that paused for its Controls alone is continued by its task, undisturbed: the new job locks it, and the task is gone. */
  lemma PausedJobContinues(j: JobId, s: State, child: Row, words: string) returns (ends: seq<State>)
    requires s.task == Runs && IsNew(child) && child.resumes == Some(j)
    requires j < |s.store| && CanContinue(s.store, j, s.store[j].revision, true)
    ensures Undisturbed(j, s, child, s.store[j].revision, words, ends)
    ensures ends[4].task == Gone && ResumedBy(ends[4].store, j) == Some(|s.store|) && ends[4].reader == s.reader
  {
    var a := s.(task := Continues);
    var b := s.(task := InRoom);
    var c := Admit(b, j, child, s.store[j].revision, true, words);
    var d, e := c.(task := Done), c.(task := Gone);
    AdmissionContinues(j, b, child, s.store[j].revision, true, words, c);
    assert Next(j, s, RunReturns(false), a) && Next(j, a, MakesRoom(None), b);
    assert Next(j, b, Admits(child, s.store[j].revision, true, words), c);
    assert Next(j, c, LeavesRoom(None), d) && Next(j, d, TaskEnds, e);
    ends := [a, b, c, d, e];
  }

  /** Some step before `k` of the run does this. */
  ghost predicate Did(actions: seq<Action>, k: nat, a: Action) { k <= |actions| && a in actions[..k] }

  /** A task that starts with the run comes to its admission only after the run returned unstopped and room was made. */
  lemma {:induction false} OnlyUnstoppedContinues(j: JobId, run: seq<State>, actions: seq<Action>, k: nat)
    requires IsRun(j, run, actions) && k < |run| && run[0].task == Runs
    ensures run[k].task.Continues? || run[k].task.InRoom? ==> Did(actions, k, RunReturns(false))
    ensures run[k].task.InRoom? ==> Did(actions, k, MakesRoom(None))
  {
    if k > 0 {
      OnlyUnstoppedContinues(j, run, actions, k - 1);
      assert Next(j, run[k - 1], actions[k - 1], run[k]);
      assert actions[..k] == actions[..k - 1] + [actions[k - 1]];
    }
  }

  // ---- Safety ----

  /** A reader that found no task looks at a store to which no refusal of the job comes any more. */
  ghost predicate Inv(j: JobId, s: State) {
    && (s.reader.Unattended? || s.reader.NoWords? ==> s.task == Gone)
    && (s.reader.NoWords? && Held(s.store, j) && s.store[j].form != Unparsed ==> s.store[j].refusal == None)
  }

  lemma OthersKeep(j: JobId, s: Store, step: Chains.Step, t: Store)
    requires Chains.Next(s, step, t) && !(step.StoreRefusal? && step.i == j) && j < |s|
    ensures j < |t| && t[j].form == s[j].form && (Held(t, j) ==> Held(s, j))
    ensures t[j].refusal == s[j].refusal || t[j].refusal == None
  {
  }

  lemma StepKeeps(j: JobId, s: State, a: Action, t: State)
    requires Inv(j, s) && Next(j, s, a, t) && j < |s.store|
    ensures Inv(j, t) && j < |t.store|
  {
    match a
    case Others(step) => OthersKeep(j, s.store, step, t.store);
    case _ =>
  }

  /** A run of the task, one reader and everything else that uses the store. */
  ghost predicate IsRun(j: JobId, run: seq<State>, actions: seq<Action>) {
    && |run| == |actions| + 1 && j < |run[0].store| && run[0].reader == Idle
    && forall k | 0 <= k < |actions| :: Next(j, run[k], actions[k], run[k + 1])
  }

  lemma {:induction false} RunKeeps(j: JobId, run: seq<State>, actions: seq<Action>, k: nat)
    requires IsRun(j, run, actions) && k < |run|
    ensures Inv(j, run[k]) && j < |run[k].store|
  {
    if k > 0 {
      RunKeeps(j, run, actions, k - 1);
      StepKeeps(j, run[k - 1], actions[k - 1], run[k]);
    }
  }

  /**
   In every run, the reader says "not continued" only at a moment when no Resumed
   Job locks the job, no refusal is stored, and no task will continue it.
   */
  lemma NotContinuedIsTrue(j: JobId, run: seq<State>, actions: seq<Action>, k: nat)
    requires IsRun(j, run, actions) && k < |actions|
    requires !run[k].reader.Answered? && run[k + 1].reader == Answered(Questions(Some(NotContinued)))
    ensures ResumedBy(run[k].store, j) == None && run[k].task == Gone
    ensures Held(run[k].store, j) && run[k].store[j].form != Unparsed ==> run[k].store[j].refusal == None
  {
    RunKeeps(j, run, actions, k);
    assert Next(j, run[k], actions[k], run[k + 1]);
  }

  /**
   In every run, the reader shows no words only for a job that did not wait to
   be continued when it was read, one whose task is still there, or one that a
   Resumed Job continues at that moment.
   */
  lemma SilenceHasAReason(j: JobId, run: seq<State>, actions: seq<Action>, k: nat)
    requires IsRun(j, run, actions) && k < |actions|
    requires !run[k].reader.Answered? && run[k + 1].reader == Answered(Questions(None))
    ensures match run[k].reader
            case HasRecord(record) => !WaitsToContinue(record) || run[k].task != Gone
            case _ => ResumedBy(run[k].store, j).Some?
  {
    assert Next(j, run[k], actions[k], run[k + 1]);
  }

  /**
   A stream follows the task of a job that waits to be continued, and no other;
   where it says that the job continued, a Resumed Job of it is there.
   */
  lemma ContinuedIsTrue(j: JobId, run: seq<State>, actions: seq<Action>, k: nat, child: JobId)
    requires IsRun(j, run, actions) && k < |actions|
    requires !run[k].reader.Answered? && run[k + 1].reader == Answered(Continued(child))
    ensures run[k].reader.Followed? && WaitsToContinue(run[k].reader.record)
    ensures IsLockOf(run[k].store, child, j) && run[k].task == Gone
  {
    RunKeeps(j, run, actions, k);
    FollowedAlone(j, run, actions, k);
    assert Next(j, run[k], actions[k], run[k + 1]);
  }

  lemma {:induction false} FollowedAlone(j: JobId, run: seq<State>, actions: seq<Action>, k: nat)
    requires IsRun(j, run, actions) && k < |run|
    ensures run[k].reader.Follows? || run[k].reader.Followed? ==> WaitsToContinue(run[k].reader.record)
    ensures run[k].reader.Followed? ==> run[k].task == Gone
  {
    if k > 0 {
      FollowedAlone(j, run, actions, k - 1);
      assert Next(j, run[k - 1], actions[k - 1], run[k]);
    }
  }

  // ---- A job that no task continues ----

  /** The reader is at work on this record. */
  predicate Reads(reader: Reader, record: Row) {
    reader in {Streams(record), Followed(record), HasRecord(record), Unattended(record), NoWords(record)}
  }

  /** Without a task a reader keeps its record until it answers, and no task comes back. */
  lemma ReadingStays(j: JobId, s: State, a: Action, t: State, record: Row)
    requires Next(j, s, a, t) && s.task == Gone && Reads(s.reader, record)
    ensures t.task == Gone && (Reads(t.reader, record) || t.reader.Answered?)
  {
  }

  /** The reading starts at step `i` and gives its answer at step `k`; anyone may take steps in between. */
  ghost predicate Reading(j: JobId, run: seq<State>, actions: seq<Action>, i: nat, k: nat) {
    && IsRun(j, run, actions) && i < k < |actions| && (actions[i].StartsStream? || actions[i].StartsRead?)
    && (forall h | i < h <= k :: !run[h].reader.Answered?) && run[k + 1].reader.Answered?
  }

  lemma {:induction false} ReadingHas(j: JobId, run: seq<State>, actions: seq<Action>, i: nat, k: nat, h: nat)
    requires Reading(j, run, actions, i, k) && run[i].task == Gone && i < h <= k
    ensures Held(run[i].store, j) && run[h].task == Gone && Reads(run[h].reader, run[i].store[j])
  {
    assert Next(j, run[h - 1], actions[h - 1], run[h]);
    if h > i + 1 {
      ReadingHas(j, run, actions, i, k, h - 1);
      ReadingStays(j, run[h - 1], actions[h - 1], run[h], run[i].store[j]);
    }
  }

  /** The refusal was in the store at some moment of the reading. */
  ghost predicate WasStored(j: JobId, run: seq<State>, i: nat, k: nat, words: string) {
    exists h | i <= h <= k < |run| :: Held(run[h].store, j) && run[h].store[j].refusal == Some(words)
  }

  /**
   A job paused for its Controls alone that no task continues accounts for itself
   to every reader, whatever happens between the reader's steps: the answer is a
   Resumed Job that is there, a refusal that was stored during the reading, the
   sentence that it did not continue, true at that moment, or no words because a
   Resumed Job is there.
   */
  lemma PausedJobAccountsForItself(j: JobId, run: seq<State>, actions: seq<Action>, i: nat, k: nat)
    requires Reading(j, run, actions, i, k) && run[i].task == Gone
    requires Held(run[i].store, j) && WaitsToContinue(run[i].store[j])
    ensures var s, said := run[k], run[k + 1].reader.said;
            || (said.Continued? && IsLockOf(s.store, said.child, j))
            || (exists words :: said == Questions(Some(Stored(words))) && WasStored(j, run, i, k, words))
            || (said == Questions(Some(NotContinued)) && ResumedBy(s.store, j) == None
                && (Held(s.store, j) && s.store[j].form != Unparsed ==> s.store[j].refusal == None))
            || (said == Questions(None) && ResumedBy(s.store, j).Some?)
  {
    ReadingHas(j, run, actions, i, k, k);
    RunKeeps(j, run, actions, k);
    assert Next(j, run[k], actions[k], run[k + 1]);
    var record, said := run[i].store[j], run[k + 1].reader.said;
    if said.Questions? && said.words.Some? && said.words.value.Stored? {
      var words := said.words.value.words;
      assert said == Questions(Some(Stored(words)));
      if run[k].reader == HasRecord(record) {
        assert run[i].store[j].refusal == Some(words);
      } else {
        assert Held(run[k].store, j) && run[k].store[j].refusal == Some(words);
      }
      assert WasStored(j, run, i, k, words);
    }
  }

  // ---- Why the reader reads again ----

  /**
   A reader can hold a record without a refusal, find no task and no Resumed Job,
   and the store still holds a refusal: only the second read tells it so.
   */
  lemma OldRecordMisses(j: JobId, s: State, words: string)
    requires Held(s.store, j) && WaitsToContinue(s.store[j]) && s.store[j].refusal == None && s.store[j].form == Current
    requires s.task == Refused(words) && s.reader == Idle && ResumedBy(s.store, j) == None
    ensures exists a, b, c, d ::
              && Next(j, s, StartsRead, a) && Next(j, a, StoresRefusal(false), b)
              && Next(j, b, TaskEnds, c) && Next(j, c, ChecksTask, d)
              && d.reader.Unattended? && d.reader.record.refusal == None
              && ResumedBy(d.store, j) == None && d.store[j].refusal == Some(words)
  {
    var a := s.(reader := HasRecord(s.store[j]));
    var b := StoreWords(a, j, false);
    var c := b.(task := Gone);
    var d := c.(reader := Unattended(s.store[j]));
    assert Next(j, s, StartsRead, a);
    assert Next(j, a, StoresRefusal(false), b);
    assert Next(j, b, TaskEnds, c);
    assert Next(j, c, ChecksTask, d);
    if ResumedBy(d.store, j).Some? {
      var child := ResumedBy(d.store, j).value;
      assert IsLockOf(s.store, child, j);
    }
  }
}
