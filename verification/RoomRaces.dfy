/**
 The choice of the jobs that make room, read by read, while everyone else goes on:
 when a chosen job waits for answers at its delete, and the delete takes it.
 */
module RoomRaces {
  import opened Results
  import opened JobStore
  import opened MakeRoom
  import opened Chains = ResumeChains

  /** Steps of anyone from the listing of the jobs to the delete of one of them. */
  ghost predicate Between(run: seq<Store>, steps: seq<Step>) {
    |run| == |steps| + 1 && forall k | 0 <= k < |steps| :: Next(run[k], steps[k], run[k + 1])
  }

  /** The job has ended, waits for nothing, and no running continue can give it back. */
  predicate Settled(s: Store, p: JobId)
    requires p < |s|
  {
    Ended(s[p]) && (s[p].status == AwaitingAnswers ==> !Waiting(s, p) && !ContinueRuns(s, p))
  }

  /** No step brings a deleted job back, or changes what a job that ended came to. */
  lemma EndedStays(s: Store, step: Step, t: Store, p: JobId)
    requires Next(s, step, t) && p < |s|
    ensures p < |t| && (t[p].held ==> s[p].held) && s[p].updated <= t[p].updated
    ensures Ended(s[p]) ==> t[p].status == s[p].status && t[p].form == s[p].form && t[p].asks == s[p].asks
  {
  }

  lemma SettledStays(s: Store, step: Step, t: Store, p: JobId)
    requires Chains.Inv(s) && Next(s, step, t) && p < |s| && (s[p].held ==> Settled(s, p))
    ensures Chains.Inv(t) && p < |t| && (t[p].held ==> Settled(t, p))
  {
    StepKeeps(s, step, t);
    EndedStays(s, step, t, p);
    hide Next, Chains.Inv, Waiting, ContinueRuns;
    if t[p].held && s[p].status == AwaitingAnswers { StaysSettled(s, step, t, p); }
  }

  lemma {:induction false} SettledThrough(run: seq<Store>, steps: seq<Step>, p: JobId, k: nat)
    requires Between(run, steps) && k < |run| && Chains.Inv(run[0]) && p < |run[0]| && (run[0][p].held ==> Settled(run[0], p))
    ensures Chains.Inv(run[k]) && p < |run[k]| && (run[k][p].held ==> Settled(run[k], p))
  {
    if k > 0 {
      SettledThrough(run, steps, p, k - 1);
      SettledStays(run[k - 1], steps[k - 1], run[k], p);
    }
  }

  lemma {:induction false} EndedThrough(run: seq<Store>, steps: seq<Step>, p: JobId, k: nat)
    requires Between(run, steps) && k < |run| && p < |run[0]|
    ensures p < |run[k]| && run[0][p].updated <= run[k][p].updated
    ensures Ended(run[0][p]) ==>
              run[k][p].status == run[0][p].status && run[k][p].form == run[0][p].form && run[k][p].asks == run[0][p].asks
  {
    if k > 0 {
      EndedThrough(run, steps, p, k - 1);
      EndedStays(run[k - 1], steps[k - 1], run[k], p);
    }
  }

  // ---- The choice, read by read ----

  /**
   The source's `waiting` of a listed record. It reads the lock of the job, and
   then the job that holds the lock, each in a transaction of its own.
   */
  predicate ReadsWaiting(listed: Row, lock: Store, child: Store, p: JobId) {
    && listed.status == AwaitingAnswers
    && match ResumedBy(lock, p)
       case None => true
       case Some(c) => (listed.form == Unparsed || listed.asks) && Held(child, c) && !Ended(child[c])
  }

  /**
   One pass of `make_room`: the listing at the first state of the run, the two
   reads of each listed job, the state by which the jobs are chosen, the admission
   that a clean exit needs, and whatever else happens up to a delete.
   */
  datatype Pass = Pass(
    run: seq<Store>, steps: seq<Step>, lockAt: seq<nat>, childAt: seq<nat>, chosenBy: nat, maxJobs: nat, answering: Option<JobId>)
  {
    ghost predicate Valid() {
      && Between(run, steps) && Reads(run, lockAt, childAt, chosenBy)
      && exists k | chosenBy <= k < |steps| :: Admits(steps[k], answering)
    }

    function Removable(): seq<JobId>
      requires run != [] && Reads(run, lockAt, childAt, chosenBy)
    {
      RemovableRead(run, lockAt, childAt, answering, |run[0]|)
    }

    /** The chosen jobs, or that the workspace is full. */
    function Chosen(): Option<seq<JobId>>
      requires run != [] && Reads(run, lockAt, childAt, chosenBy)
    {
      var excess := |Jobs(run[0])| - Limit(maxJobs, answering) + 1;
      if excess > |Removable()| then None else Some(Removable()[..if excess > 0 then excess else 0])
    }
  }

  /** The jobs are read one after the other, the lock of each before its child. */
  predicate Reads(run: seq<Store>, lockAt: seq<nat>, childAt: seq<nat>, chosenBy: nat)
    requires run != []
  {
    && |lockAt| == |childAt| == |run[0]| && chosenBy < |run|
    && (forall i | 0 <= i < |lockAt| :: lockAt[i] <= childAt[i] <= chosenBy)
    && forall i, j | 0 <= i < j < |lockAt| :: childAt[i] <= lockAt[j]
  }

  predicate Admits(step: Step, answering: Option<JobId>) {
    step.Submit? && (Parent(step.job) == None || Parent(step.job) == answering)
  }

  predicate ReadsRemovable(run: seq<Store>, lockAt: seq<nat>, childAt: seq<nat>, answering: Option<JobId>, i: JobId)
    requires run != [] && i < |run[0]| == |lockAt| == |childAt| && lockAt[i] < |run| && childAt[i] < |run|
  {
    run[0][i].held && Ended(run[0][i]) && Some(i) != answering && !ReadsWaiting(run[0][i], run[lockAt[i]], run[childAt[i]], i)
  }

  /** The listed jobs before row `n` that the reads find to wait for nothing, oldest first. */
  function RemovableRead(run: seq<Store>, lockAt: seq<nat>, childAt: seq<nat>, answering: Option<JobId>, n: nat): seq<JobId>
    requires run != [] && n <= |run[0]| == |lockAt| == |childAt|
    requires forall i | 0 <= i < |lockAt| :: lockAt[i] < |run| && childAt[i] < |run|
  {
    if n == 0 then []
    else RemovableRead(run, lockAt, childAt, answering, n - 1)
         + (if ReadsRemovable(run, lockAt, childAt, answering, n - 1) then [n - 1] else [])
  }

  lemma {:induction false} RemovableReadAre(run: seq<Store>, lockAt: seq<nat>, childAt: seq<nat>, answering: Option<JobId>, n: nat)
    requires run != [] && n <= |run[0]| == |lockAt| == |childAt|
    requires forall i | 0 <= i < |lockAt| :: lockAt[i] < |run| && childAt[i] < |run|
    ensures forall i: JobId :: i in RemovableRead(run, lockAt, childAt, answering, n) <==>
              i < n && ReadsRemovable(run, lockAt, childAt, answering, i)
    ensures |RemovableRead(run, lockAt, childAt, answering, n)| <= |HeldIds(run[0], n)|
  {
    if n > 0 {
      RemovableReadAre(run, lockAt, childAt, answering, n - 1);
      hide ReadsWaiting, Ended;
    }
  }

  lemma {:induction false} ReadAtOnce(run: seq<Store>, lockAt: seq<nat>, childAt: seq<nat>, answering: Option<JobId>, n: nat)
    requires run != [] && n <= |run[0]| == |lockAt| == |childAt|
    requires forall i | 0 <= i < |lockAt| :: lockAt[i] == childAt[i] == 0
    ensures RemovableRead(run, lockAt, childAt, answering, n) == Removable(run[0], n, answering)
  {
    if n > 0 { ReadAtOnce(run, lockAt, childAt, answering, n - 1); }
  }

  /** Where nothing happens while the jobs are read, the choice is the one that `MakeRoom` makes at once. */
  lemma ChosenAtOnce(pass: Pass)
    requires pass.run != [] && Reads(pass.run, pass.lockAt, pass.childAt, pass.chosenBy) && pass.chosenBy == 0
    ensures pass.Chosen() == match MakeRoom.Chosen(pass.run[0], pass.maxJobs, pass.answering)
                             case Ok(ids) => Some(ids)
                             case Err(_) => None
  {
    ReadAtOnce(pass.run, pass.lockAt, pass.childAt, pass.answering, |pass.run[0]|);
  }

  /** The pass chooses the job, and at the end of its run the job waits for answers and a delete as of the choice takes it. */
  ghost predicate TakesWaiting(pass: Pass, p: JobId, chosenAt: nat) {
    && pass.run != [] && pass.Valid() && pass.Chosen().Some? && p in pass.Chosen().value
    && var t := pass.run[|pass.steps|];
       Held(t, p) && Waiting(t, p) && Delete(t, p, Some(chosenAt)).Ok?
  }

  /** A pass that finds this state at its read of the job's lock, and takes the job while it waits. */
  ghost predicate TakesFrom(lock: Store, p: JobId, chosenAt: nat, pass: Pass) {
    TakesWaiting(pass, p, chosenAt) && p < |pass.lockAt| && pass.run[pass.lockAt[p]] == lock
  }

  /** The job that holds the lock is read in the state in which the lock was read. */
  predicate AtOnce(pass: Pass, p: JobId) {
    p < |pass.lockAt| && p < |pass.childAt| && pass.lockAt[p] == pass.childAt[p]
  }

  /** At the read of its lock the job is a pause that a running job locks, and nothing changed it as late as the choice. */
  predicate LockRuns(lock: Store, p: JobId, chosenAt: nat) {
    && p < |lock| && lock[p].status == AwaitingAnswers && lock[p].updated < chosenAt
    && ResumedBy(lock, p).Some? && HoldsSlot(lock[ResumedBy(lock, p).value])
  }

  // ---- Only such a job is taken ----

  lemma ChosenIsRemovable(pass: Pass, p: JobId)
    requires pass.run != [] && Reads(pass.run, pass.lockAt, pass.childAt, pass.chosenBy)
    requires pass.Chosen().Some? && p in pass.Chosen().value
    ensures p < |pass.run[0]| && ReadsRemovable(pass.run, pass.lockAt, pass.childAt, pass.answering, p)
  {
    RemovableReadAre(pass.run, pass.lockAt, pass.childAt, pass.answering, |pass.run[0]|);
    assert p in pass.Removable();
  }

  lemma LaterBetween(run: seq<Store>, steps: seq<Step>, l: nat)
    requires Between(run, steps) && l < |run|
    ensures Between(run[l..], steps[l..]) && run[l..][|steps[l..]|] == run[|steps|]
  {
    hide Next;
    forall k | 0 <= k < |steps[l..]| ensures Next(run[l..][k], steps[l..][k], run[l..][k + 1]) {
      assert Next(run[l + k], steps[l + k], run[l + k + 1]);
    }
  }

  lemma TakenLockRuns(pass: Pass, p: JobId, chosenAt: nat)
    requires TakesWaiting(pass, p, chosenAt) && p < |pass.lockAt| && Chains.Inv(pass.run[pass.lockAt[p]])
    ensures LockRuns(pass.run[pass.lockAt[p]], p, chosenAt)
    ensures p < |pass.run[0]| && var lock := pass.run[pass.lockAt[p]];
            lock[p].status == pass.run[0][p].status && lock[p].asks == pass.run[0][p].asks && lock[p].form == pass.run[0][p].form
    ensures ReadsRemovable(pass.run, pass.lockAt, pass.childAt, pass.answering, p)
  {
    var run, steps, l := pass.run, pass.steps, pass.lockAt[p];
    ChosenIsRemovable(pass, p);
    EndedThrough(run, steps, p, l);
    LaterBetween(run, steps, l);
    EndedThrough(run[l..], steps[l..], p, |steps[l..]|);
    if !LockRuns(run[l], p, chosenAt) {
      SettledThrough(run[l..], steps[l..], p, |steps[l..]|);
    }
  }

  // ---- Such a job can be taken ----

  /** The store admits one job at a time. */
  ghost predicate OneSlot(s: Store) {
    forall c, d | 0 <= c < |s| && 0 <= d < |s| && HoldsSlot(s[c]) && HoldsSlot(s[d]) :: c == d
  }

  lemma OneSlotStays(s: Store, step: Step, t: Store)
    requires OneSlot(s) && Next(s, step, t)
    ensures OneSlot(t)
  {
    forall c, d | 0 <= c < |t| && 0 <= d < |t| && HoldsSlot(t[c]) && HoldsSlot(t[d]) ensures c == d {
      assert !step.Submit? ==> HoldsSlot(s[c]) && HoldsSlot(s[d]);
    }
  }

  /** What the results below ask of a store holds of every state that a run reaches. */
  lemma {:induction false} OneSlotInEveryRun(run: seq<Store>, steps: seq<Step>, k: nat)
    requires IsRun(run, steps) && k < |run|
    ensures Chains.Inv(run[k]) && OneSlot(run[k])
  {
    if k > 0 {
      OneSlotInEveryRun(run, steps, k - 1);
      StepKeeps(run[k - 1], steps[k - 1], run[k]);
      OneSlotStays(run[k - 1], steps[k - 1], run[k]);
    }
  }

  const NEW_JOB := Row(None, None, Queued, Current, true, false, 0, 0, None, true)

  /** The locking job fails, and a new job is admitted. */
  function FailedThenAdmitted(s: Store, p: JobId): seq<Store>
    requires ResumedBy(s, p).Some?
  {
    var failed := s[ResumedBy(s, p).value := s[ResumedBy(s, p).value].(status := Failed)];
    [s, failed, failed + [NEW_JOB]]
  }

  /** Once its locking job has failed and a new one is in, the job waits, and its delete works. */
  lemma FailureGivesBack(s: Store, p: JobId, chosenAt: nat)
    requires Chains.Inv(s) && OneSlot(s) && LockRuns(s, p, chosenAt)
    ensures var run, c := FailedThenAdmitted(s, p), ResumedBy(s, p).value;
            && Between(run, [RunEnds(c, Failed), Submit(NEW_JOB, 0, true)]) && Ended(run[1][c])
            && Held(run[2], p) && Waiting(run[2], p) && Delete(run[2], p, Some(chosenAt)).Ok?
  {
    var run, c := FailedThenAdmitted(s, p), ResumedBy(s, p).value;
    var failed, admitted := run[1], run[2];
    assert Next(s, RunEnds(c, Failed), failed);
    FailedResumeCanRetry(s, c, p, Failed, failed);
    assert !InFlight(failed);
    assert Next(failed, Submit(NEW_JOB, 0, true), admitted);
    forall d: JobId ensures !IsLockOf(admitted, d, p) {
      assert IsLockOf(admitted, d, p) ==> d < |failed| && IsLockOf(failed, d, p);
    }
    assert ResumedBy(admitted, p) == None;
    if SlotChild(admitted, p, 0).Some? { assert IsLockOf(admitted, SlotChild(admitted, p, 0).value, p); }
  }

  /** Zero up to some job, and one from there on. */
  function From(n: nat, first: nat): seq<nat> {
    seq(n, i requires 0 <= i < n => if i < first then 0 else 1)
  }

  /** The pass in which the locking job fails between the two reads of `p`, or behind them. */
  function Witness(s: Store, p: JobId, between: bool): Pass
    requires ResumedBy(s, p).Some? && p < |s|
  {
    var run := FailedThenAdmitted(s, p);
    var lockAt, childAt := From(|s|, if between then p + 1 else |s|), From(|s|, if between then p else |s|);
    var removable := RemovableRead(run, lockAt, childAt, None, |s|);
    Pass(run, [RunEnds(ResumedBy(s, p).value, Failed), Submit(NEW_JOB, 0, true)], lockAt, childAt, 1,
         if |removable| <= |Jobs(s)| then |Jobs(s)| + 1 - |removable| else 0, None)
  }

  lemma WitnessTakes(s: Store, p: JobId, chosenAt: nat, between: bool)
    requires Chains.Inv(s) && OneSlot(s) && LockRuns(s, p, chosenAt) && (between || (!s[p].asks && s[p].form != Unparsed))
    ensures var pass := Witness(s, p, between);
            TakesFrom(s, p, chosenAt, pass) && (!between ==> AtOnce(pass, p))
  {
    var pass := Witness(s, p, between);
    FailureGivesBack(s, p, chosenAt);
    WitnessReads(s, p, between);
    RemovableReadAre(pass.run, pass.lockAt, pass.childAt, None, |s|);
    hide Waiting, Delete, Between, FailedThenAdmitted, From, Chains.Inv, OneSlot;
    assert Admits(pass.steps[1], None);
    assert pass.Removable()[..|pass.Removable()|] == pass.Removable();
  }

  lemma WitnessReads(s: Store, p: JobId, between: bool)
    requires p < |s| && s[p].status == AwaitingAnswers && ResumedBy(s, p).Some?
    requires between || (!s[p].asks && s[p].form != Unparsed)
    ensures var pass := Witness(s, p, between);
            && Reads(pass.run, pass.lockAt, pass.childAt, pass.chosenBy) && pass.run[pass.lockAt[p]] == s
            && ReadsRemovable(pass.run, pass.lockAt, pass.childAt, None, p)
            && (!between ==> pass.lockAt[p] == pass.childAt[p])
  {
    var pass := Witness(s, p, between);
    assert pass.lockAt[p] == 0 && pass.childAt[p] == if between then 1 else 0;
    hide RemovableRead;
  }

  // ---- The results ----

  /**
   A pass can choose a job that waits for answers at its delete and delete it
   exactly where, when the pass reads the job's lock, the job is a pause that a
   running job locks, and nothing changed it as late as the choice. The running job
   then fails: at any time before the delete where the pause asks nobody, and between
   the two reads where it asks people.
   */
  lemma TakenExactlyWhen(lock: Store, p: JobId, chosenAt: nat)
    requires Chains.Inv(lock) && OneSlot(lock)
    ensures (exists pass :: TakesFrom(lock, p, chosenAt, pass)) <==> LockRuns(lock, p, chosenAt)
  {
    if LockRuns(lock, p, chosenAt) {
      WitnessTakes(lock, p, chosenAt, true);
    }
    if pass :| TakesFrom(lock, p, chosenAt, pass) {
      TakenLockRuns(pass, p, chosenAt);
    }
  }

  /** Where both reads of the job see one state, such a pause must also ask nobody. */
  lemma TakenWhenReadAtOnce(lock: Store, p: JobId, chosenAt: nat)
    requires Chains.Inv(lock) && OneSlot(lock)
    ensures (exists pass :: TakesFrom(lock, p, chosenAt, pass) && AtOnce(pass, p))
            <==> LockRuns(lock, p, chosenAt) && !lock[p].asks && lock[p].form != Unparsed
  {
    if LockRuns(lock, p, chosenAt) && !lock[p].asks && lock[p].form != Unparsed {
      WitnessTakes(lock, p, chosenAt, false);
    }
    if pass :| TakesFrom(lock, p, chosenAt, pass) && AtOnce(pass, p) {
      ReadAtOnceAsksNobody(lock, p, chosenAt, pass);
    }
  }

  lemma ReadAtOnceAsksNobody(lock: Store, p: JobId, chosenAt: nat, pass: Pass)
    requires Chains.Inv(lock) && TakesFrom(lock, p, chosenAt, pass) && AtOnce(pass, p)
    ensures LockRuns(lock, p, chosenAt) && !lock[p].asks && lock[p].form != Unparsed
  {
    TakenLockRuns(pass, p, chosenAt);
    assert !ReadsWaiting(pass.run[0][p], lock, lock, p);
  }

  // ---- A pass that takes a waiting job ----

  /** A pause, for its Controls alone or with a question, and the job that resumes it. */
  function Racing(asks: bool, status: Status): Store {
    [Row(None, None, AwaitingAnswers, Current, asks, true, 0, 0, None, true),
     Row(Some(0), None, status, Current, false, false, 0, 0, None, true)]
  }

  /**
   With room for two jobs, a pause and the running job that resumes it: the pass
   reads the lock, the resuming job fails, the pass reads that job, chooses the
   pause, a new job is admitted, the pause waits, and the pass deletes it. It does
   so whether the pause asks people or not.
   */
  lemma PassTakesAWaitingJob(asks: bool)
    ensures var before, failed := Racing(asks, Running), Racing(asks, Failed);
            var admitted := failed + [NEW_JOB];
            var pass := Pass([before, failed, admitted], [RunEnds(1, Failed), Submit(NEW_JOB, 0, true)], [0, 1], [1, 1], 1, 2, None);
            && Chains.Inv(before) && OneSlot(before) && TakesWaiting(pass, 0, 1) && pass.Chosen() == Some([0])
            && !Held(DeleteAll(admitted, [0], 1), 0)
  {
    var before, failed := Racing(asks, Running), Racing(asks, Failed);
    var admitted := failed + [NEW_JOB];
    var pass := Pass([before, failed, admitted], [RunEnds(1, Failed), Submit(NEW_JOB, 0, true)], [0, 1], [1, 1], 1, 2, None);
    assert IsLockOf(before, 1, 0) && ResumedBy(before, 0) == Some(1);
    assert failed == before[1 := before[1].(status := Failed)];
    FailureGivesBack(before, 0, 1);
    assert pass.run == FailedThenAdmitted(before, 0);
    RacingChosen(asks);
    assert Admits(pass.steps[1], None);
    assert DeleteAll(admitted, [0], 1) == DeleteAll(admitted[0 := admitted[0].(held := false)], [], 1);
  }

  lemma RacingChosen(asks: bool)
    ensures var before, failed := Racing(asks, Running), Racing(asks, Failed);
            var pass := Pass([before, failed, failed + [NEW_JOB]], [RunEnds(1, Failed), Submit(NEW_JOB, 0, true)], [0, 1], [1, 1], 1, 2, None);
            Reads(pass.run, pass.lockAt, pass.childAt, 1) && pass.Chosen() == Some([0])
  {
    var before, failed := Racing(asks, Running), Racing(asks, Failed);
    var run := [before, failed, failed + [NEW_JOB]];
    assert IsLockOf(before, 1, 0) && ResumedBy(before, 0) == Some(1);
    assert HeldIds(before, 1) == [0] && HeldIds(before, 2) == [0, 1];
    assert ReadsRemovable(run, [0, 1], [1, 1], None, 0) && !ReadsRemovable(run, [0, 1], [1, 1], None, 1);
    assert RemovableRead(run, [0, 1], [1, 1], None, 1) == [0] && RemovableRead(run, [0, 1], [1, 1], None, 2) == [0];
    assert [0][..1] == [0];
  }
}
