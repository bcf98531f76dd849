/** The bound on the jobs that a workspace holds, and which jobs make room for a new one. */
module MakeRoom {
  import opened Results
  import opened JobStore

  datatype WorkspaceFull = WorkspaceFull(jobs: nat)

  predicate IsRemovable(s: Store, i: JobId, answering: Option<JobId>)
    requires i < |s|
  {
    Ended(s[i]) && Some(i) != answering && !Waiting(s, i)
  }

  /** The held jobs before row `n` that wait for nothing, oldest first. */
  function Removable(s: Store, n: nat, answering: Option<JobId>): seq<JobId>
    requires n <= |s|
  {
    if n == 0 then []
    else Removable(s, n - 1, answering) + (if s[n - 1].held && IsRemovable(s, n - 1, answering) then [n - 1] else [])
  }

  lemma {:induction false} RemovableAre(s: Store, n: nat, answering: Option<JobId>)
    requires n <= |s|
    ensures forall i: JobId :: i in Removable(s, n, answering) <==> i < n && s[i].held && IsRemovable(s, i, answering)
    ensures Increasing(Removable(s, n, answering))
  {
    if n > 0 {
      hide IsRemovable;
      RemovableAre(s, n - 1, answering);
      IncreasingMore(Removable(s, n - 1, answering), n - 1);
    }
  }

  function Limit(maxJobs: nat, answering: Option<JobId>): nat {
    maxJobs + if answering.Some? then 1 else 0
  }

  /** The jobs to delete once a new one is in: the oldest that wait for nothing, as many as it takes. */
  function Chosen(s: Store, maxJobs: nat, answering: Option<JobId>): Result<seq<JobId>, WorkspaceFull> {
    var held := Jobs(s);
    var removable := Removable(s, |s|, answering);
    var excess := |held| - Limit(maxJobs, answering) + 1;
    if excess > |removable| then Err(WorkspaceFull(|held|))
    else Ok(removable[..if excess > 0 then excess else 0])
  }

  /** Deletes each job that did not change since `before`; a refused delete leaves its job. */
  function DeleteAll(s: Store, ids: seq<JobId>, before: nat): Store
    decreases |ids|
  {
    if ids == [] then s
    else
      match Delete(s, ids[0], Some(before))
      case Ok(t) => DeleteAll(t, ids[1..], before)
      case Err(_) => DeleteAll(s, ids[1..], before)
  }

  datatype SubmitError = NoRoom(full: WorkspaceFull) | NotAdmitted(refusal: Refusal)

  /** What a submission answers and what it leaves, row by row. */
  ghost predicate IsSubmission(s: Store, maxJobs: nat, job: Row, parentRevision: nat, withinBudget: bool, now: nat,
                               end: Store, result: Result<JobId, SubmitError>)
  {
    var chosen, admitted := Chosen(s, maxJobs, Parent(job)), Reserve(s, job, parentRevision, withinBudget);
    match result
    case Err(NoRoom(full)) => end == s && chosen == Err(full)
    case Err(NotAdmitted(refusal)) => end == s && chosen.Ok? && admitted == Err(refusal)
    case Ok(id) =>
      && chosen.Ok? && admitted.Ok? && id == |s| && |end| == |admitted.value| == |s| + 1
      && (forall i | i in chosen.value :: i < |s|)
      && (forall i | 0 <= i < |end| ::
            end[i] == if i in chosen.value && s[i].updated < now then admitted.value[i].(held := false) else admitted.value[i])
      && ((forall i | i in chosen.value :: s[i].updated < now) ==> |Jobs(end)| <= Limit(maxJobs, Parent(job)))
  }

  class Workspace {
    var store: Store
    const maxJobs: nat

    constructor (store: Store, maxJobs: nat)
      ensures this.store == store && this.maxJobs == maxJobs
    {
      this.store, this.maxJobs := store, maxJobs;
    }

    /** The entry of `make_room`: chooses, and changes nothing. */
    method Enter(answering: Option<JobId>) returns (chosen: Result<seq<JobId>, WorkspaceFull>)
      ensures chosen == Chosen(store, maxJobs, answering)
    {
      var held, removable, i := [], [], 0;
      while i < |store|
        invariant i <= |store| && held == HeldIds(store, i) && removable == Removable(store, i, answering)
      {
        if store[i].held {
          held := held + [i];
          if IsRemovable(store, i, answering) { removable := removable + [i]; }
        }
        i := i + 1;
      }
      var excess := |held| - Limit(maxJobs, answering) + 1;
      if excess > |removable| { return Err(WorkspaceFull(|held|)); }
      chosen := Ok(removable[..if excess > 0 then excess else 0]);
    }

    /** The clean exit of `make_room`. */
    method Exit(chosen: seq<JobId>, chosenAt: nat)
      modifies this
      ensures store == DeleteAll(old(store), chosen, chosenAt)
    {
      var i := 0;
      while i < |chosen|
        invariant i <= |chosen| && DeleteAll(store, chosen[i..], chosenAt) == DeleteAll(old(store), chosen, chosenAt)
      {
        assert chosen[i..][0] == chosen[i] && chosen[i..][1..] == chosen[i + 1..];
        var removed := Delete(store, chosen[i], Some(chosenAt));
        if removed.Ok? { store := removed.value; }
        i := i + 1;
      }
    }

    /**
     A submission with room made around it. It is taken exactly where there is room
     and the store admits the job; then the chosen jobs that nothing changed are gone,
     the new one is in, and every other row is the admitted one. A full workspace or a
     refused job deletes nothing.
     */
    method Submit(job: Row, parentRevision: nat, withinBudget: bool, now: nat) returns (result: Result<JobId, SubmitError>)
      requires IsNew(job)
      modifies this
      ensures IsSubmission(old(store), maxJobs, job, parentRevision, withinBudget, now, store, result)
    {
      var chosen := Enter(Parent(job));
      if chosen.Err? { return Err(NoRoom(chosen.error)); }
      var admitted := Reserve(store, job, parentRevision, withinBudget);
      if admitted.Err? { return Err(NotAdmitted(admitted.error)); }
      ghost var before := store;
      store := admitted.value;
      result := Ok(|store| - 1);
      Exit(chosen.value, now);
      SubmissionIs(before, maxJobs, job, parentRevision, withinBudget, now);
    }
  }

  // ---- What is chosen ----

  /** The chosen jobs are the oldest that wait for nothing, and exactly as many as the new job needs. */
  lemma ChosenAreOldest(s: Store, maxJobs: nat, answering: Option<JobId>)
    requires Chosen(s, maxJobs, answering).Ok?
    ensures var chosen := Chosen(s, maxJobs, answering).value;
            && (|Jobs(s)| + 1 - |chosen| <= Limit(maxJobs, answering))
            && (chosen != [] ==> |Jobs(s)| + 1 - |chosen| == Limit(maxJobs, answering))
            && (forall i | i in chosen :: Held(s, i) && IsRemovable(s, i, answering))
            && (forall i, k: JobId | i in chosen && Held(s, k) && IsRemovable(s, k, answering) && k !in chosen :: i < k)
            && Increasing(chosen)
  {
    RemovableAre(s, |s|, answering);
    hide IsRemovable;
    var removable := Removable(s, |s|, answering);
    var chosen := Chosen(s, maxJobs, answering).value;
    assert chosen == removable[..|chosen|];
    hide Removable, Chosen, Jobs, Increasing;
    FirstOnes(removable, |chosen|);
  }

  /** The first of an increasing list are smaller than the others of it. */
  lemma FirstOnes(ids: seq<JobId>, n: nat)
    requires Increasing(ids) && n <= |ids|
    ensures Increasing(ids[..n]) && forall i | i in ids[..n] :: i in ids
    ensures forall i, k | i in ids[..n] && k in ids && k !in ids[..n] :: i < k
  {
    assert forall m | 0 <= m < n :: ids[m] == ids[..n][m] && ids[m] in ids[..n];
    forall i, k | i in ids[..n] && k in ids && k !in ids[..n] ensures i < k {
      var a :| 0 <= a < n && ids[..n][a] == i;
      var b :| 0 <= b < |ids| && ids[b] == k;
    }
  }

  /** The held jobs before row `n` that run, wait for answers, or are the one being answered. */
  ghost function Busy(s: Store, n: nat, answering: Option<JobId>): set<JobId>
    requires n <= |s|
  {
    set i: JobId | i < n && s[i].held && (!Ended(s[i]) || Waiting(s, i) || answering == Some(i))
  }

  lemma BusyMore(s: Store, n: nat, answering: Option<JobId>)
    requires 0 < n <= |s|
    ensures Busy(s, n, answering) == Busy(s, n - 1, answering) + if s[n - 1].held && !IsRemovable(s, n - 1, answering) then {n - 1} else {}
    ensures n - 1 !in Busy(s, n - 1, answering)
  {
    hide Waiting, Ended;
  }

  lemma {:induction false} HeldIsBusyOrRemovable(s: Store, n: nat, answering: Option<JobId>)
    requires n <= |s|
    ensures |HeldIds(s, n)| == |Removable(s, n, answering)| + |Busy(s, n, answering)|
  {
    if n == 0 {
      assert Busy(s, 0, answering) == {};
    } else {
      var before := Busy(s, n - 1, answering);
      HeldIsBusyOrRemovable(s, n - 1, answering);
      BusyMore(s, n, answering);
      assert |Removable(s, n, answering)| ==
          |Removable(s, n - 1, answering)| + (if s[n - 1].held && IsRemovable(s, n - 1, answering) then 1 else 0);
      hide Busy, IsRemovable, Removable;
    }
  }

  /** A full workspace is one where as many jobs as it holds run, wait for answers or are the one being answered. */
  lemma FullMeansBusy(s: Store, maxJobs: nat, answering: Option<JobId>)
    ensures Chosen(s, maxJobs, answering).Err? <==>
              |Busy(s, |s|, answering)| >= maxJobs + if answering.Some? then 1 else 0
  {
    HeldIsBusyOrRemovable(s, |s|, answering);
  }

  // ---- One pass ----

  /**
   What happened between the choice and the deletes: one job came in, and it
   starts from nothing or from the job being answered. Other jobs may have
   ended. None left, and beside the new one none runs, because the store admits
   one at a time.
   */
  ghost predicate Admitted(s: Store, t: Store, answering: Option<JobId>) {
    && |t| == |s| + 1 && t[|s|].held
    && (Parent(t[|s|]) == None || Parent(t[|s|]) == answering)
    && forall i | 0 <= i < |s| :: t[i].held == s[i].held && Parent(t[i]) == Parent(s[i]) && !HoldsSlot(t[i])
  }

  ghost predicate Unchanged(t: Store, ids: seq<JobId>, chosenAt: nat) {
    forall i | i in ids && i < |t| :: t[i].updated < chosenAt
  }

  function CountChanged(t: Store, ids: seq<JobId>, chosenAt: nat): nat
    requires forall i | i in ids :: i < |t|
  {
    if ids == [] then 0
    else (assert ids[0] in ids && forall i | i in ids[1..] :: i in ids; if chosenAt <= t[ids[0]].updated then 1 else 0) + CountChanged(t, ids[1..], chosenAt)
  }

  ghost predicate Distinct(ids: seq<JobId>) { forall a, b | 0 <= a < b < |ids| :: ids[a] != ids[b] }

  /** The jobs of `ids` can go: each has ended, and no running job needs it. */
  ghost predicate Free(t: Store, ids: seq<JobId>) {
    forall i | i in ids :: Held(t, i) && Ended(t[i]) && forall c | 0 <= c < |t| && HoldsSlot(t[c]) :: Parent(t[c]) != Some(i)
  }

  /** One delete of a free job. */
  lemma FreeGoes(t: Store, i: JobId, ids: seq<JobId>, chosenAt: nat)
    requires i < |t| && Free(t, [i] + ids) && i !in ids && t[i].updated < chosenAt
    ensures var u := t[i := t[i].(held := false)];
            Delete(t, i, Some(chosenAt)) == Ok(u) && Free(u, ids) && |Jobs(u)| == |Jobs(t)| - 1
  {
    var u := t[i := t[i].(held := false)];
    assert i in [i] + ids;
    DropOne(t, i, |t|);
    forall k | k in ids ensures Held(u, k) && Ended(u[k]) && forall c | 0 <= c < |u| && HoldsSlot(u[c]) :: Parent(u[c]) != Some(k) {
      assert k in [i] + ids;
      assert forall c | 0 <= c < |u| && HoldsSlot(u[c]) :: HoldsSlot(t[c]) && Parent(u[c]) == Parent(t[c]);
    }
  }

  function Without(t: Store, ids: seq<JobId>, chosenAt: nat): (u: Store)
    ensures |u| == |t|
  {
    seq(|t|, i requires 0 <= i < |t| => if i in ids && t[i].updated < chosenAt then t[i].(held := false) else t[i])
  }

  lemma WithoutFirst(t: Store, i: JobId, rest: seq<JobId>, chosenAt: nat)
    requires i < |t| && i !in rest
    ensures t[i].updated < chosenAt ==> Without(t[i := t[i].(held := false)], rest, chosenAt) == Without(t, [i] + rest, chosenAt)
    ensures chosenAt <= t[i].updated ==> Without(t, rest, chosenAt) == Without(t, [i] + rest, chosenAt)
  {
    assert forall k :: k in [i] + rest <==> k == i || k in rest;
  }

  lemma FreeRest(t: Store, i: JobId, rest: seq<JobId>)
    requires Free(t, [i] + rest)
    ensures Free(t, rest)
  {
    assert forall k | k in rest :: k in [i] + rest;
  }

  lemma ChangedStays(t: Store, i: JobId, chosenAt: nat)
    requires i < |t| && chosenAt <= t[i].updated
    ensures Delete(t, i, Some(chosenAt)).Err?
  {
  }

  /** The deletes remove exactly the jobs that did not change since the choice. */
  lemma {:induction false} DeletesAre(t: Store, ids: seq<JobId>, chosenAt: nat)
    requires Distinct(ids) && Free(t, ids) && forall i | i in ids :: i < |t|
    ensures DeleteAll(t, ids, chosenAt) == Without(t, ids, chosenAt)
    ensures |Jobs(DeleteAll(t, ids, chosenAt))| == |Jobs(t)| - |ids| + CountChanged(t, ids, chosenAt)
    decreases |ids|
  {
    if ids == [] {
      assert Without(t, ids, chosenAt) == t;
    } else {
      var i, rest := ids[0], ids[1..];
      assert ids == [i] + rest && i in ids && i !in rest;
      assert forall k | k in rest :: k in ids;
      hide Without, Free, Jobs;
      WithoutFirst(t, i, rest, chosenAt);
      if t[i].updated < chosenAt {
        FreeGoes(t, i, rest, chosenAt);
        hide Delete;
        var u := t[i := t[i].(held := false)];
        DeletesAre(u, rest, chosenAt);
        SameChanged(t, u, rest, chosenAt);
      } else {
        ChangedStays(t, i, chosenAt);
        FreeRest(t, i, rest);
        hide Delete;
        DeletesAre(t, rest, chosenAt);
      }
    }
  }

  lemma {:induction false} SameChanged(t: Store, u: Store, ids: seq<JobId>, chosenAt: nat)
    requires |t| == |u| && (forall i | i in ids :: i < |t| && u[i].updated == t[i].updated)
    ensures CountChanged(u, ids, chosenAt) == CountChanged(t, ids, chosenAt)
  {
    if ids != [] {
      assert ids[0] in ids && forall i | i in ids[1..] :: i in ids;
      SameChanged(t, u, ids[1..], chosenAt);
    }
  }

  /**
   One pass restores the bound from any state: the workspace ends with at most
   `maxJobs` jobs, one more where the new job answers one, and one more for
   each chosen job that changed before its delete. What goes is exactly the
   chosen jobs that did not change.
   */
  lemma PassRestoresBound(s: Store, t: Store, maxJobs: nat, answering: Option<JobId>, chosenAt: nat)
    requires Chosen(s, maxJobs, answering).Ok? && Admitted(s, t, answering)
    ensures var chosen := Chosen(s, maxJobs, answering).value;
            var end := DeleteAll(t, chosen, chosenAt);
            && (forall i | i in chosen :: i < |t|)
            && |Jobs(end)| <= maxJobs + (if answering.Some? then 1 else 0) + CountChanged(t, chosen, chosenAt)
            && (Unchanged(t, chosen, chosenAt) ==> |Jobs(end)| <= maxJobs + if answering.Some? then 1 else 0)
            && end == Without(t, chosen, chosenAt)
  {
    var chosen := Chosen(s, maxJobs, answering).value;
    ChosenAreOldest(s, maxJobs, answering);
    forall i | i in chosen ensures Held(t, i) && Ended(t[i]) && forall c | 0 <= c < |t| && HoldsSlot(t[c]) :: Parent(t[c]) != Some(i) {
    }
    DeletesAre(t, chosen, chosenAt);
    SameHeld(s, t, |s|);
    if Unchanged(t, chosen, chosenAt) { NoneChanged(t, chosen, chosenAt); }
  }

  lemma {:induction false} NoneChanged(t: Store, ids: seq<JobId>, chosenAt: nat)
    requires (forall i | i in ids :: i < |t|) && Unchanged(t, ids, chosenAt)
    ensures CountChanged(t, ids, chosenAt) == 0
  {
    if ids != [] {
      assert ids[0] in ids && forall i | i in ids[1..] :: i in ids;
      NoneChanged(t, ids[1..], chosenAt);
    }
  }

  // ---- A submission ----

  /** A submission that starts at once meets what one pass asks of the step in between. */
  lemma SubmissionAdmits(s: Store, job: Row, parentRevision: nat, withinBudget: bool)
    requires IsNew(job) && Reserve(s, job, parentRevision, withinBudget).Ok?
    ensures Admitted(s, Reserve(s, job, parentRevision, withinBudget).value, Parent(job))
  {
  }

  lemma SubmissionIs(s: Store, maxJobs: nat, job: Row, parentRevision: nat, withinBudget: bool, now: nat)
    requires IsNew(job) && Reserve(s, job, parentRevision, withinBudget).Ok? && Chosen(s, maxJobs, Parent(job)).Ok?
    ensures var t, chosen := Reserve(s, job, parentRevision, withinBudget).value, Chosen(s, maxJobs, Parent(job)).value;
            IsSubmission(s, maxJobs, job, parentRevision, withinBudget, now, DeleteAll(t, chosen, now), Ok(|s|))
  {
    var t, chosen := Reserve(s, job, parentRevision, withinBudget).value, Chosen(s, maxJobs, Parent(job)).value;
    SubmissionAdmits(s, job, parentRevision, withinBudget);
    ReserveWhen(s, job, parentRevision, withinBudget);
    ChosenAreOldest(s, maxJobs, Parent(job));
    PassRestoresBound(s, t, maxJobs, Parent(job), now);
  }

  // ---- A run of passes ----

  /** A step that brings in no job. */
  ghost predicate Quiet(s: Store, t: Store) {
    |t| == |s| && forall i | 0 <= i < |s| && t[i].held :: s[i].held
  }

  ghost predicate PassedVia(s: Store, t: Store, end: Store, maxJobs: nat, answering: Option<JobId>, chosenAt: nat) {
    && Chosen(s, maxJobs, answering).Ok? && Admitted(s, t, answering)
    && Unchanged(t, Chosen(s, maxJobs, answering).value, chosenAt)
    && end == DeleteAll(t, Chosen(s, maxJobs, answering).value, chosenAt)
  }

  ghost predicate Passed(s: Store, end: Store, maxJobs: nat) {
    exists t, answering, chosenAt :: PassedVia(s, t, end, maxJobs, answering, chosenAt)
  }

  /** A submission at a time after every change of the jobs, whatever it answers. */
  ghost predicate Submitted(s: Store, end: Store, maxJobs: nat) {
    exists job, parentRevision, withinBudget, now, result ::
      IsSubmission(s, maxJobs, job, parentRevision, withinBudget, now, end, result) && forall i | 0 <= i < |s| :: s[i].updated < now
  }

  /** One thing that happens to a workspace: a step that brings in no job, a pass with others in between, or a submission. */
  ghost predicate Happens(s: Store, end: Store, maxJobs: nat) {
    Quiet(s, end) || Passed(s, end, maxJobs) || Submitted(s, end, maxJobs)
  }

  lemma StepStaysBounded(s: Store, end: Store, maxJobs: nat)
    requires |Jobs(s)| <= maxJobs + 1 && Happens(s, end, maxJobs)
    ensures |Jobs(end)| <= maxJobs + 1
  {
    if Submitted(s, end, maxJobs) {
      var job, parentRevision, withinBudget, now, result :|
        IsSubmission(s, maxJobs, job, parentRevision, withinBudget, now, end, result) && forall i | 0 <= i < |s| :: s[i].updated < now;
      if result.Ok? { ChosenAreOldest(s, maxJobs, Parent(job)); }
    } else if Quiet(s, end) {
      QuietAddsNone(s, end, |s|);
    } else {
      var t, answering, chosenAt :| PassedVia(s, t, end, maxJobs, answering, chosenAt);
      PassRestoresBound(s, t, maxJobs, answering, chosenAt);
    }
  }

  lemma {:induction false} QuietAddsNone(s: Store, t: Store, n: nat)
    requires n <= |s| && Quiet(s, t)
    ensures |HeldIds(t, n)| <= |HeldIds(s, n)|
  {
    if n > 0 { QuietAddsNone(s, t, n - 1); }
  }

  /** Over any run of submissions, passes and other steps the workspace never holds more than one job over its bound. */
  lemma {:induction false} RunStaysBounded(run: seq<Store>, maxJobs: nat)
    requires run != [] && |Jobs(run[0])| <= maxJobs + 1
    requires forall k | 0 < k < |run| :: Happens(run[k - 1], run[k], maxJobs)
    ensures forall k | 0 <= k < |run| :: |Jobs(run[k])| <= maxJobs + 1
  {
    var n := |run| - 1;
    if n > 0 {
      RunStaysBounded(run[..n], maxJobs);
      assert run[n - 1] == run[..n][n - 1];
      assert Happens(run[n - 1], run[n], maxJobs);
      StepStaysBounded(run[n - 1], run[n], maxJobs);
      assert forall k | 0 <= k < n :: run[k] == run[..n][k];
    }
  }

}
