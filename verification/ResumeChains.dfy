/**
 Jobs that resume and amend one another: over every run of steps at most one
 job of an analysis waits for answers, and the job that a running one resumes
 stays to retry from.
 */
module ResumeChains {
  import opened Results
  import opened JobStore

  // ---- Steps ----

  datatype Step =
    | Submit(job: Row, parentRevision: nat, withinBudget: bool)
    | RunStarts(i: JobId)
    | RunEnds(i: JobId, status: Status)
    | SaveAnswers(i: JobId, now: nat)
    | StoreRefusal(i: JobId, words: string)
    | DeleteJob(i: JobId, before: Option<nat>)

  /** The answers layer starts a job from a paused one or from a report, and amends a paused one. */
  predicate IsAnswerable(s: Store, job: Row) {
    && (job.resumes.Some? ==> job.resumes.value < |s| && s[job.resumes.value].status in {AwaitingAnswers, Completed})
    && (job.resumes.None? && job.amends.Some? ==> job.amends.value < |s| && s[job.amends.value].status == AwaitingAnswers)
  }

  /** A run ends in a terminal status, and at a pause only where the job pauses; a queued job only fails. */
  predicate CanEnd(r: Row, status: Status) {
    && r.held && r.form == Current
    && (if r.status == Queued then status == Failed else r.status == Running && IsTerminal(status))
    && (status == AwaitingAnswers ==> Pauses(r))
  }

  predicate Next(s: Store, step: Step, t: Store) {
    match step
    case Submit(job, revision, budget) =>
      IsNew(job) && IsAnswerable(s, job) && Reserve(s, job, revision, budget) == Ok(t)
    case RunStarts(i) =>
      i < |s| && s[i].held && s[i].form == Current && s[i].status == Queued && t == s[i := s[i].(status := Running)]
    case RunEnds(i, status) =>
      i < |s| && CanEnd(s[i], status) && t == s[i := s[i].(status := status)]
    case SaveAnswers(i, now) =>
      i < |s| && s[i].held && s[i].updated <= now && t == s[i := s[i].(revision := s[i].revision + 1, updated := now)]
    case StoreRefusal(i, words) =>
      i < |s| && s[i].held && t == s[i := s[i].(refusal := Some(words))]
    case DeleteJob(i, before) =>
      Delete(s, i, before) == Ok(t)
  }

  // ---- The invariant ----

  predicate IsRead(r: Row) { r.status == AwaitingAnswers || r.status == Completed }

  ghost predicate ParentsOlder(s: Store) {
    forall i | 0 <= i < |s| && Parent(s[i]).Some? :: Parent(s[i]).value < i
  }

  ghost predicate ParentsRead(s: Store)
    requires ParentsOlder(s)
  {
    forall i | 0 <= i < |s| && Parent(s[i]).Some? :: IsRead(s[Parent(s[i]).value])
  }

  ghost predicate OneLock(s: Store) {
    forall p: JobId, c: JobId, d: JobId | IsLockOf(s, c, p) && IsLockOf(s, d, p) :: c == d
  }

  ghost predicate ParentsOfRunningHeld(s: Store)
    requires ParentsOlder(s)
  {
    forall c | 0 <= c < |s| && HoldsSlot(s[c]) && Parent(s[c]).Some? :: s[Parent(s[c]).value].held
  }

  ghost predicate Inv(s: Store) {
    ParentsOlder(s) && ParentsRead(s) && OneLock(s) && ParentsOfRunningHeld(s)
  }

  /** A change of one row that keeps its parent, and takes no lock. */
  ghost predicate Settles(s: Store, i: JobId, t: Store) {
    && i < |s| && |t| == |s| && t == s[i := t[i]] && Parent(t[i]) == Parent(s[i])
    && (Locks(t[i]) ==> Locks(s[i])) && (IsRead(s[i]) ==> IsRead(t[i]))
    && (HoldsSlot(t[i]) ==> HoldsSlot(s[i]))
  }

  lemma SettlesKeeps(s: Store, i: JobId, t: Store)
    requires Inv(s) && Settles(s, i, t)
    requires t[i].held == s[i].held || forall c | 0 <= c < |s| && HoldsSlot(s[c]) :: Parent(s[c]) != Some(i)
    ensures Inv(t)
  {
    assert forall k | 0 <= k < |t| :: Parent(t[k]) == Parent(s[k]) && (IsRead(s[k]) ==> IsRead(t[k]));
    forall p: JobId, c: JobId, d: JobId | IsLockOf(t, c, p) && IsLockOf(t, d, p) ensures c == d {
      assert IsLockOf(s, c, p) && IsLockOf(s, d, p);
    }
    forall c | 0 <= c < |t| && HoldsSlot(t[c]) && Parent(t[c]).Some? ensures t[Parent(t[c]).value].held {
      assert HoldsSlot(s[c]);
    }
  }

  lemma SubmitKeeps(s: Store, job: Row, revision: nat, budget: bool)
    requires Inv(s) && IsNew(job) && IsAnswerable(s, job) && Reserve(s, job, revision, budget).Ok?
    ensures Inv(Reserve(s, job, revision, budget).value)
  {
    var t := Reserve(s, job, revision, budget).value;
    assert forall k | 0 <= k < |s| :: Parent(t[k]) == Parent(s[k]) && Locks(t[k]) == Locks(s[k]) && IsRead(t[k]) == IsRead(s[k]) && t[k].held == s[k].held;
    forall p: JobId, c: JobId, d: JobId | IsLockOf(t, c, p) && IsLockOf(t, d, p) ensures c == d {
      if c < |s| { assert IsLockOf(s, c, p); }
      if d < |s| { assert IsLockOf(s, d, p); }
    }
  }

  /** Every step keeps the invariant. */
  lemma StepKeeps(s: Store, step: Step, t: Store)
    requires Inv(s) && Next(s, step, t)
    ensures Inv(t)
  {
    match step
    case Submit(job, revision, budget) => SubmitKeeps(s, job, revision, budget);
    case DeleteJob(i, _) => SettlesKeeps(s, i, t);
    case _ => SettlesKeeps(s, step.i, t);
  }

  /**
   An admitted child, whose parent nothing changed since it was read, locks that
   parent at once: the parent's refusal is gone, and no second child comes in.
   */
  lemma AdmittedLocks(s: Store, job: Row, revision: nat, budget: bool, other: Row, otherRevision: nat)
    requires IsNew(job) && Parent(job).Some? && Reserve(s, job, revision, budget).Ok? && Parent(other) == Parent(job)
    ensures var t, p := Reserve(s, job, revision, budget).value, Parent(job).value;
            && budget && !InFlight(s) && s[p].held && s[p].revision == revision
            && ResumedBy(t, p) == Some(|s|) && t[p].refusal == None && t[|s|].refusal == None
            && Reserve(t, other, otherRevision, true) == Err(ResumedAlready)
  {
    var t, p := Reserve(s, job, revision, budget).value, Parent(job).value;
    assert IsLockOf(t, |s|, p);
    forall c: JobId | IsLockOf(t, c, p) ensures c == |s| {
      if c < |s| { assert IsLockOf(s, c, p); }
    }
  }

  /**
   A job waits for answers exactly where it is paused, no job took its answers, or,
   where it asks people, the one that did still runs.
   */
  lemma WaitingWhen(s: Store, i: JobId)
    requires Inv(s) && i < |s| && s[i].held
    ensures Waiting(s, i) <==>
              && s[i].status == AwaitingAnswers
              && forall c | 0 <= c < |s| && Parent(s[c]) == Some(i) && TookAnswers(s[c]) ::
                   (s[i].asks || s[i].form == Unparsed) && RunsNow(s[c])
  {
    RowsAre(s);
    forall c | 0 <= c < |s| && Parent(s[c]) == Some(i) && TookAnswers(s[c])
      ensures ResumedBy(s, i) == Some(c)
    {
      assert IsLockOf(s, c, i);
      if ResumedBy(s, i).Some? { assert IsLockOf(s, ResumedBy(s, i).value, i); }
    }
  }

  // ---- Chains ----

  /** The first row of the chain of `i`, deleted or not. */
  function RootRow(s: Store, i: JobId): (r: JobId)
    requires i < |s| && ParentsOlder(s)
    ensures r <= i
  {
    if Parent(s[i]).None? then i else RootRow(s, Parent(s[i]).value)
  }

  /** `a` comes before `i` on its chain. */
  predicate Before(s: Store, a: JobId, i: JobId)
    requires i < |s| && ParentsOlder(s)
  {
    Parent(s[i]).Some? && (Parent(s[i]).value == a || Before(s, a, Parent(s[i]).value))
  }

  lemma {:induction false} BeforeIsOlder(s: Store, a: JobId, i: JobId)
    requires i < |s| && ParentsOlder(s) && Before(s, a, i)
    ensures a < i
  {
    if Parent(s[i]).value != a { BeforeIsOlder(s, a, Parent(s[i]).value); }
  }

  /** The child of `a` on the chain down to `i`, which locks `a` where `i` was read. */
  lemma {:induction false} ChildTowards(s: Store, a: JobId, i: JobId) returns (c: JobId)
    requires Inv(s) && i < |s| && Before(s, a, i) && IsRead(s[i])
    ensures c < |s| && (c == i || Before(s, c, i)) && IsRead(s[c]) && IsLockOf(s, c, a)
  {
    var p := Parent(s[i]).value;
    if p == a {
      c := i;
    } else {
      c := ChildTowards(s, a, p);
    }
  }

  /** Two jobs of one analysis whose answers were read, or who wait for them, are one before the other. */
  lemma {:induction false} OnePath(s: Store, a: JobId, b: JobId)
    requires Inv(s) && a < |s| && b < |s| && IsRead(s[a]) && IsRead(s[b]) && RootRow(s, a) == RootRow(s, b)
    ensures a == b || Before(s, a, b) || Before(s, b, a)
    decreases a + b, a > b
  {
    if a > b {
      OnePath(s, b, a);
    } else if a < b {
      var p := Parent(s[b]).value;
      OnePath(s, a, p);
      if Before(s, p, a) {
        var c := ChildTowards(s, p, a);
        assert IsLockOf(s, b, p);
        if c != a { BeforeIsOlder(s, c, a); }
      }
    }
  }

  /** A job whose answers were read further down waits no more. */
  lemma PassedOnWaitsNot(s: Store, a: JobId, b: JobId)
    requires Inv(s) && b < |s| && Before(s, a, b) && IsRead(s[b])
    ensures a < |s| && (s[a].held ==> !Waiting(s, a))
  {
    BeforeIsOlder(s, a, b);
    var c := ChildTowards(s, a, b);
    if s[a].held && ResumedBy(s, a).Some? {
      assert ResumedBy(s, a).value == c;
    }
  }

  /** At most one job of an analysis waits for answers. */
  lemma OneWaits(s: Store, a: JobId, b: JobId)
    requires Inv(s) && Held(s, a) && Held(s, b) && Waiting(s, a) && Waiting(s, b) && RootRow(s, a) == RootRow(s, b)
    ensures a == b
  {
    OnePath(s, a, b);
    if Before(s, a, b) {
      PassedOnWaitsNot(s, a, b);
    } else if Before(s, b, a) {
      PassedOnWaitsNot(s, b, a);
    }
  }

  // ---- Runs ----

  ghost predicate IsRun(run: seq<Store>, steps: seq<Step>) {
    && |run| == |steps| + 1 && run[0] == []
    && forall k | 0 <= k < |steps| :: Next(run[k], steps[k], run[k + 1])
  }

  lemma {:induction false} RunKeeps(run: seq<Store>, steps: seq<Step>, k: nat)
    requires IsRun(run, steps) && k < |run|
    ensures Inv(run[k])
  {
    if k > 0 {
      RunKeeps(run, steps, k - 1);
      StepKeeps(run[k - 1], steps[k - 1], run[k]);
    }
  }

  /** Over every run, at most one job of an analysis waits for answers. */
  lemma OneWaitsInEveryRun(run: seq<Store>, steps: seq<Step>, k: nat, a: JobId, b: JobId)
    requires IsRun(run, steps) && k < |run| && Held(run[k], a) && Held(run[k], b) && Waiting(run[k], a) && Waiting(run[k], b)
    ensures ParentsOlder(run[k]) && (RootRow(run[k], a) == RootRow(run[k], b) ==> a == b)
  {
    RunKeeps(run, steps, k);
    if RootRow(run[k], a) == RootRow(run[k], b) { OneWaits(run[k], a, b); }
  }

  // ---- A run of every step ----

  const ASKING := Row(None, None, Queued, Current, true, false, 0, 0, None, true)
  const ANSWER := Row(Some(0), None, Queued, Current, false, false, 0, 0, None, true)
  const AMENDED := Row(None, Some(0), Queued, Current, false, false, 0, 0, None, true)

  /** The pause of the run below, as it is while things happen to it. */
  function Pause(revision: nat, updated: nat, refusal: Option<string>, held: bool): Row {
    Row(None, None, AwaitingAnswers, Current, true, false, updated, revision, refusal, held)
  }

  const STEPS := [Submit(ASKING, 0, true), RunStarts(0), RunEnds(0, AwaitingAnswers), Submit(AMENDED, 0, true), RunEnds(1, Failed),
                  StoreRefusal(0, "no"), SaveAnswers(0, 7), Submit(ANSWER, 1, true), RunStarts(2), RunEnds(2, Completed),
                  DeleteJob(0, Some(8))]

  /** The stores of the run below, one after the other. */
  function Stores(): seq<Store> {
    var failed, answered := AMENDED.(status := Failed), ANSWER.(status := Completed);
    [[], [ASKING], [ASKING.(status := Running)], [Pause(0, 0, None, true)], [Pause(0, 0, None, true), AMENDED],
     [Pause(0, 0, None, true), failed], [Pause(0, 0, Some("no"), true), failed], [Pause(1, 7, Some("no"), true), failed],
     [Pause(1, 7, None, true), failed, ANSWER], [Pause(1, 7, None, true), failed, ANSWER.(status := Running)],
     [Pause(1, 7, None, true), failed, answered], [Pause(1, 7, None, false), failed, answered]]
  }

  /**
   A run through every step: a job is admitted, runs and pauses to ask; an amendment
   of it fails; a refusal and answers are stored; a job that resumes it with these is
   admitted, runs and completes; and the pause is deleted.
   */
  lemma EveryStepHappens()
    ensures IsRun(Stores(), STEPS)
  {
    forall k | 0 <= k < 11 ensures Next(Stores()[k], STEPS[k], Stores()[k + 1]) {
      if k in {0, 3, 7} { AdmissionHappens(k); }
      else if k == 10 { DeleteHappens(); }
      else { RowHappens(k); }
    }
  }

  lemma AdmissionHappens(k: nat)
    requires k in {0, 3, 7}
    ensures Next(Stores()[k], STEPS[k], Stores()[k + 1])
  {
    Admitted(Stores()[k], STEPS[k].job, STEPS[k].parentRevision, Stores()[k + 1]);
  }

  lemma DeleteHappens()
    ensures Next(Stores()[10], STEPS[10], Stores()[11])
  {
    var s := Stores()[10];
    DeleteWhen(s, 0, Some(8));
    assert s[0 := s[0].(held := false)] == Stores()[11];
    assert forall c | 0 <= c < |s| :: !RunsNow(s[c]);
  }

  lemma RowHappens(k: nat)
    requires k in {1, 2, 4, 5, 6, 8, 9}
    ensures Next(Stores()[k], STEPS[k], Stores()[k + 1])
  {
    var s, t := Stores()[k], Stores()[k + 1];
    var i := STEPS[k].i;
    assert t == s[i := t[i]];
  }

  lemma Admitted(s: Store, job: Row, revision: nat, t: Store)
    requires (forall c | 0 <= c < |s| :: !RunsNow(s[c])) && (Parent(job).Some? ==> TakesAnswers(s, Parent(job).value, revision))
    requires |t| == |s| + 1 && t[|s|] == job
    requires forall i | 0 <= i < |s| :: t[i] == if Parent(job) == Some(i) then s[i].(refusal := None) else s[i]
    ensures Reserve(s, job, revision, true) == Ok(t)
  {
    ReserveWhen(s, job, revision, true);
    assert Reserve(s, job, revision, true).value == t;
  }

  // ---- What a pause is ----

  /** Only a job that asks people or continues at its pause is ever paused, and none that resumes another. */
  ghost predicate PausesAsk(s: Store) {
    forall i | 0 <= i < |s| && s[i].status == AwaitingAnswers :: (s[i].asks || s[i].continues) && s[i].resumes == None
  }

  lemma {:induction false} PausedJobsAsk(run: seq<Store>, steps: seq<Step>, k: nat)
    requires IsRun(run, steps) && k < |run|
    ensures PausesAsk(run[k])
  {
    if k > 0 {
      PausedJobsAsk(run, steps, k - 1);
      PauseStep(run[k - 1], steps[k - 1], run[k]);
    }
  }

  lemma PauseStep(s: Store, step: Step, t: Store)
    requires PausesAsk(s) && Next(s, step, t)
    ensures PausesAsk(t)
  {
    if step.Submit? { ReserveWhen(s, step.job, step.parentRevision, step.withinBudget); }
  }

  /** Each job of those kinds can pause: its running row may end so. */
  lemma CanPause(s: Store, i: JobId)
    requires i < |s| && RunsNow(s[i]) && s[i].status == Running
    ensures Next(s, RunEnds(i, AwaitingAnswers), s[i := s[i].(status := AwaitingAnswers)])
            <==> (s[i].asks || s[i].continues) && s[i].resumes == None
  {
  }

  /** What a job came from never changes, a deleted job never changes at all, and an ended one only takes answers, words and its deletion. */
  lemma OldRowsStay(s: Store, step: Step, t: Store, i: JobId)
    requires Next(s, step, t) && i < |s|
    ensures |t| == |s| + (if step.Submit? then 1 else 0)
    ensures t[i].resumes == s[i].resumes && t[i].amends == s[i].amends && t[i].form == s[i].form
    ensures t[i].asks == s[i].asks && t[i].continues == s[i].continues
    ensures !s[i].held ==> t[i] == s[i]
    ensures !RunsNow(s[i]) ==> t[i].status == s[i].status
  {
    if step.Submit? { ReserveWhen(s, step.job, step.parentRevision, step.withinBudget); }
  }

  // ---- Answers saved meanwhile ----

  predicate SavesTo(step: Step, p: JobId) { step.SaveAnswers? && step.i == p }

  lemma {:induction false} RevisionCounts(run: seq<Store>, steps: seq<Step>, i: nat, k: nat, p: JobId)
    requires IsRun(run, steps) && i <= k < |run| && p < |run[i]|
    ensures p < |run[k]| && run[i][p].revision <= run[k][p].revision
    ensures run[i][p].revision == run[k][p].revision ==> forall h | i <= h < k :: !SavesTo(steps[h], p)
    decreases k
  {
    if i < k {
      RevisionCounts(run, steps, i, k - 1, p);
      RevisionGrows(run[k - 1], steps[k - 1], run[k], p);
    }
  }

  /** A save of answers moves the revision of its job by one, and no other step moves a revision. */
  lemma RevisionGrows(s: Store, step: Step, t: Store, p: JobId)
    requires Next(s, step, t) && p < |s|
    ensures p < |t| && t[p].revision == s[p].revision + if SavesTo(step, p) then 1 else 0
    ensures t[p].updated == if SavesTo(step, p) then step.now else s[p].updated
  {
  }

  /** In every run, a job is admitted only where nothing saved answers to its parent since the revision that it names was read. */
  lemma AdmittedReadsLatest(run: seq<Store>, steps: seq<Step>, i: nat, k: nat, p: JobId)
    requires IsRun(run, steps) && i <= k < |steps| && p < |run[i]|
    requires steps[k].Submit? && Parent(steps[k].job) == Some(p) && steps[k].parentRevision == run[i][p].revision
    ensures forall h | i <= h < k :: !SavesTo(steps[h], p)
  {
    RevisionCounts(run, steps, i, k, p);
    assert Next(run[k], steps[k], run[k + 1]);
    ReserveWhen(run[k], steps[k].job, steps[k].parentRevision, steps[k].withinBudget);
  }

  // ---- The place to retry from ----

  /** While a job runs that resumes a question-asking pause, the pause is held and waits; no delete takes it. */
  lemma RetryPlaceIsKept(s: Store, c: JobId, p: JobId, before: Option<nat>)
    requires Inv(s) && c < |s| && HoldsSlot(s[c]) && Parent(s[c]) == Some(p) && s[p].status == AwaitingAnswers && s[p].asks
    ensures Held(s, p) && Waiting(s, p) && Delete(s, p, before).Err?
  {
    assert IsLockOf(s, c, p);
  }

  /** Where that run fails, is rejected or is stopped, the pause takes answers again. */
  lemma FailedResumeCanRetry(s: Store, c: JobId, p: JobId, status: Status, t: Store)
    requires Inv(s) && c < |s| && HoldsSlot(s[c]) && Parent(s[c]) == Some(p) && s[p].status == AwaitingAnswers
    requires IsNonLocking(status) && Next(s, RunEnds(c, status), t)
    ensures Held(t, p) && Waiting(t, p) && ResumedBy(t, p) == None
  {
    assert IsLockOf(s, c, p);
    forall d: JobId ensures !IsLockOf(t, d, p) {
      if IsLockOf(t, d, p) { assert IsLockOf(s, d, p); }
    }
  }

  // ---- From the choice to the delete ----

  /** The pause that waits for nothing only because the service continues it, and that continue still runs. */
  predicate ContinueRuns(s: Store, p: JobId)
    requires p < |s|
  {
    && s[p].form != Unparsed && !s[p].asks
    && ResumedBy(s, p).Some? && HoldsSlot(s[ResumedBy(s, p).value])
  }

  lemma LockStays(s: Store, step: Step, t: Store, p: JobId)
    requires Inv(s) && Next(s, step, t) && Held(s, p) && Held(t, p) && ResumedBy(s, p).Some? && !HoldsSlot(s[ResumedBy(s, p).value])
    ensures ResumedBy(t, p) == ResumedBy(s, p) && !HoldsSlot(t[ResumedBy(s, p).value])
  {
    StepKeeps(s, step, t);
    var c := ResumedBy(s, p).value;
    assert IsLockOf(t, c, p);
  }

  lemma StaysSettled(s: Store, step: Step, t: Store, p: JobId)
    requires Inv(s) && Next(s, step, t) && Held(s, p) && Held(t, p)
    requires s[p].status == AwaitingAnswers && !Waiting(s, p) && !ContinueRuns(s, p)
    ensures t[p].status == AwaitingAnswers && !Waiting(t, p) && !ContinueRuns(t, p)
  {
    LockStays(s, step, t, p);
  }
}
