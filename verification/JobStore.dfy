/**
 The job store of one owner, as admission and deletion see it. A job is the
 place of its row in the order of admission, so a parent is an earlier row; a
 deleted job leaves its row behind, with its status and its parent.
 */
module JobStore {
  import opened Results

  type JobId = nat

  datatype Status = Queued | Running | Completed | Failed | Rejected | AwaitingAnswers | Stopped

  /** How much of a stored record this service can read. */
  datatype Form = Current | OtherSchema | Unparsed

  datatype Row = Row(
    resumes: Option<JobId>,
    amends: Option<JobId>,
    status: Status,
    form: Form,
    asks: bool,
    continues: bool,
    updated: nat,
    revision: nat,
    refusal: Option<string>,
    held: bool)

  type Store = seq<Row>

  predicate IsTerminal(status: Status) { status != Queued && status != Running }

  predicate IsNonLocking(status: Status) { status == Failed || status == Rejected || status == Stopped }

  /** The job that this one resumes, or the one that its amendment replaces. */
  function Parent(r: Row): Option<JobId> {
    if r.resumes.Some? then r.resumes else r.amends
  }

  predicate Ended(r: Row) { r.form != Current || IsTerminal(r.status) }

  predicate HoldsSlot(r: Row) { r.held && !Ended(r) }

  /** The child takes its parent's answers: it runs, or it ended in a status that read them. */
  predicate Locks(r: Row) {
    HoldsSlot(r) || (IsTerminal(r.status) && !IsNonLocking(r.status))
  }

  predicate WaitsToContinue(r: Row) { r.continues && r.status == AwaitingAnswers }

  /** A run of the job stops for a person or to be continued; a resumed job never pauses. */
  predicate Pauses(r: Row) { (r.asks || r.continues) && r.resumes.None? }

  predicate Held(s: Store, i: JobId) { i < |s| && s[i].held }

  predicate IsLockOf(s: Store, c: JobId, p: JobId) {
    c < |s| && Parent(s[c]) == Some(p) && Locks(s[c])
  }

  /** The first lock of `p` from row `i` on, among held jobs or among deleted ones. */
  function FirstLock(s: Store, p: JobId, held: bool, i: nat): (c: Option<JobId>)
    requires i <= |s|
    ensures c.Some? ==> i <= c.value && IsLockOf(s, c.value, p) && s[c.value].held == held
    ensures c.None? ==> forall j | i <= j < |s| && s[j].held == held :: !IsLockOf(s, j, p)
    decreases |s| - i
  {
    if i == |s| then None
    else if s[i].held == held && IsLockOf(s, i, p) then Some(i)
    else FirstLock(s, p, held, i + 1)
  }

  /** The job that resumes or amends `p` and locks it. */
  function ResumedBy(s: Store, p: JobId): (c: Option<JobId>)
    ensures c.Some? ==> Held(s, p) && IsLockOf(s, c.value, p)
    ensures c.None? && Held(s, p) ==> forall j :: !IsLockOf(s, j, p)
  {
    if !Held(s, p) then None
    else if FirstLock(s, p, true, 0).Some? then FirstLock(s, p, true, 0)
    else FirstLock(s, p, false, 0)
  }

  /** The job waits for answers: nothing locks it, or what locks it still runs and can fail. */
  predicate Waiting(s: Store, i: JobId)
    requires i < |s|
  {
    && s[i].status == AwaitingAnswers
    && match ResumedBy(s, i)
       case None => true
       case Some(c) => (s[i].form == Unparsed || s[i].asks) && s[c].held && !Ended(s[c])
  }

  // ---- Admission ----

  datatype Refusal = ParentMissing | ResumedAlready | ParentStale | AtCeiling | OverBudget

  predicate InFlight(s: Store) { exists i | 0 <= i < |s| :: HoldsSlot(s[i]) }

  /** Admits `job`, whose parent was read at `parentRevision`. One job runs at a time. */
  function Reserve(s: Store, job: Row, parentRevision: nat, withinBudget: bool): Result<Store, Refusal> {
    var p := Parent(job);
    if p.Some? && !Held(s, p.value) then Err(ParentMissing)
    else if p.Some? && ResumedBy(s, p.value).Some? then Err(ResumedAlready)
    else if p.Some? && s[p.value].revision != parentRevision then Err(ParentStale)
    else if InFlight(s) then Err(AtCeiling)
    else if !withinBudget then Err(OverBudget)
    else Ok((if p.Some? then s[p.value := s[p.value].(refusal := None)] else s) + [job])
  }

  predicate IsNew(job: Row) {
    job.status == Queued && job.form == Current && job.held && job.refusal == None
  }

  /** The job is there, and queued or running. */
  predicate RunsNow(r: Row) { r.held && r.form == Current && (r.status == Queued || r.status == Running) }

  /** The job reads its parent's answers now, or it read them: it completed or paused. */
  predicate TookAnswers(r: Row) { RunsNow(r) || r.status == Completed || r.status == AwaitingAnswers }

  /** The parent is held at the revision that was read, and no job took its answers, deleted ones included. */
  predicate TakesAnswers(s: Store, p: JobId, revision: nat) {
    p < |s| && s[p].held && s[p].revision == revision && forall c | 0 <= c < |s| && Parent(s[c]) == Some(p) :: !TookAnswers(s[c])
  }

  /** Admission in terms of the rows: when it takes a job, and what it adds and changes. */
  lemma ReserveWhen(s: Store, job: Row, revision: nat, budget: bool)
    ensures var result, p := Reserve(s, job, revision, budget), Parent(job);
            && (result.Ok? <==>
                 && (p.Some? ==> TakesAnswers(s, p.value, revision))
                 && (forall c | 0 <= c < |s| :: !RunsNow(s[c])) && budget)
            && (result.Ok? ==>
                 var t := result.value;
                 && |t| == |s| + 1 && t[|s|] == job
                 && forall i | 0 <= i < |s| :: t[i] == if p == Some(i) then s[i].(refusal := None) else s[i])
            && (result.Err? ==>
                 match result.error
                 case ParentMissing => p.Some? && !(p.value < |s| && s[p.value].held)
                 case ResumedAlready => p.Some? && exists c | 0 <= c < |s| :: Parent(s[c]) == p && TookAnswers(s[c])
                 case ParentStale => p.Some? && p.value < |s| && s[p.value].revision != revision
                 case AtCeiling => exists c | 0 <= c < |s| :: RunsNow(s[c])
                 case OverBudget => !budget)
  {
    var p := Parent(job);
    RowsAre(s);
    if p.Some? && ResumedBy(s, p.value).Some? {
      assert TookAnswers(s[ResumedBy(s, p.value).value]);
    }
    if p.Some? && Held(s, p.value) && ResumedBy(s, p.value).None? {
      forall c | 0 <= c < |s| && Parent(s[c]) == p ensures !TookAnswers(s[c]) { assert !IsLockOf(s, c, p.value); }
    }
  }

  lemma RowsAre(s: Store)
    ensures forall c | 0 <= c < |s| :: HoldsSlot(s[c]) == RunsNow(s[c]) && Locks(s[c]) == TookAnswers(s[c])
  {
  }

  // ---- Deletion ----

  datatype DeleteRefusal = Absent | StillInFlight | Changed | Child(id: JobId)

  function SlotChild(s: Store, p: JobId, i: nat): (c: Option<JobId>)
    requires i <= |s|
    ensures c.Some? ==> c.value < |s| && Parent(s[c.value]) == Some(p) && HoldsSlot(s[c.value])
    ensures c.None? ==> forall j | i <= j < |s| :: !(Parent(s[j]) == Some(p) && HoldsSlot(s[j]))
    decreases |s| - i
  {
    if i == |s| then None
    else if Parent(s[i]) == Some(p) && HoldsSlot(s[i]) then Some(i)
    else SlotChild(s, p, i + 1)
  }

  /** Deletes a job that has ended, that nothing changed since `before`, and that no running child needs. */
  function Delete(s: Store, i: JobId, before: Option<nat>): Result<Store, DeleteRefusal> {
    if !Held(s, i) then Err(Absent)
    else if !Ended(s[i]) then Err(StillInFlight)
    else if before.Some? && before.value <= s[i].updated then Err(Changed)
    else
      match SlotChild(s, i, 0)
      case Some(c) => Err(Child(c))
      case None => Ok(s[i := s[i].(held := false)])
  }

  /** Deletion in terms of the rows. */
  lemma DeleteWhen(s: Store, i: JobId, before: Option<nat>)
    ensures Delete(s, i, before).Ok? <==>
              && i < |s| && s[i].held && !RunsNow(s[i]) && (before.Some? ==> s[i].updated < before.value)
              && forall c | 0 <= c < |s| && RunsNow(s[c]) :: Parent(s[c]) != Some(i)
    ensures match Delete(s, i, before)
            case Ok(t) => t == s[i := s[i].(held := false)]
            case Err(Absent) => !(i < |s| && s[i].held)
            case Err(StillInFlight) => i < |s| && RunsNow(s[i])
            case Err(Changed) => i < |s| && before.Some? && before.value <= s[i].updated
            case Err(Child(c)) => c < |s| && RunsNow(s[c]) && Parent(s[c]) == Some(i)
  {
    RowsAre(s);
  }

  // ---- Listing ----

  /** The held jobs before row `n`, oldest first. */
  function HeldIds(s: Store, n: nat): seq<JobId>
    requires n <= |s|
  {
    if n == 0 then [] else HeldIds(s, n - 1) + (if s[n - 1].held then [n - 1] else [])
  }

  function Jobs(s: Store): seq<JobId> { HeldIds(s, |s|) }

  ghost predicate Increasing(ids: seq<JobId>) { forall a, b | 0 <= a < b < |ids| :: ids[a] < ids[b] }

  lemma IncreasingMore(before: seq<JobId>, i: JobId)
    requires Increasing(before) && forall k | k in before :: k < i
    ensures Increasing(before + [i])
  {
    assert forall a | 0 <= a < |before| :: before[a] in before;
  }

  lemma {:induction false} SameHeld(s: Store, t: Store, n: nat)
    requires n <= |s| && n <= |t| && forall i | 0 <= i < n :: s[i].held == t[i].held
    ensures HeldIds(s, n) == HeldIds(t, n)
  {
    if n > 0 { SameHeld(s, t, n - 1); }
  }

  /** A delete takes one job off the list. */
  lemma {:induction false} DropOne(s: Store, i: JobId, n: nat)
    requires i < n <= |s| && s[i].held
    ensures |HeldIds(s[i := s[i].(held := false)], n)| == |HeldIds(s, n)| - 1
  {
    var t := s[i := s[i].(held := false)];
    if i == n - 1 {
      SameHeld(s, t, n - 1);
    } else {
      DropOne(s, i, n - 1);
    }
  }
}
