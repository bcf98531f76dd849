/** What deletions do to the groups, and which job of an analysis the listing shows. */
module AnalysisProofs {
  import opened Results
  import opened JobStore
  import opened Analyses
  import Chains = ResumeChains

  lemma {:induction false} IsMember(s: Store, n: nat, root: JobId, i: JobId)
    requires n <= |s| && Ordered(s)
    ensures i in Members(s, n, root) <==> i < n && s[i].held && Root(s, i) == root
  {
    hide Ordered, Root;
    if n > 0 { IsMember(s, n - 1, root, i); }
  }

  lemma {:induction false} MembersIncrease(s: Store, n: nat, root: JobId)
    requires n <= |s| && Ordered(s)
    ensures Increasing(Members(s, n, root))
  {
    hide Ordered, Root;
    if n > 0 {
      MembersIncrease(s, n - 1, root);
      var before := Members(s, n - 1, root);
      forall k: JobId | k in before ensures k < n - 1 { IsMember(s, n - 1, root, k); }
      IncreasingMore(before, n - 1);
    }
  }

  lemma MembersAre(s: Store, n: nat, root: JobId)
    requires n <= |s| && Ordered(s)
    ensures forall i: JobId :: i in Members(s, n, root) <==> i < n && s[i].held && Root(s, i) == root
    ensures Increasing(Members(s, n, root))
  {
    hide Ordered, Root, Members;
    forall i: JobId ensures i in Members(s, n, root) <==> i < n && s[i].held && Root(s, i) == root {
      IsMember(s, n, root, i);
    }
    MembersIncrease(s, n, root);
  }

  /** Every held job is in exactly one group, which is that of its root. */
  lemma InOneGroup(s: Store, i: JobId)
    requires Ordered(s) && Held(s, i)
    ensures exists g | g in Grouped(s, |s|) :: g.root == Root(s, i) && i in g.jobs
    ensures forall g | g in Grouped(s, |s|) && i in g.jobs :: g.root == Root(s, i)
  {
    GroupsPartition(s, |s|);
    MembersAre(s, |s|, Root(s, i));
    assert Members(s, |s|, Root(s, i)) != [];
    assert HasRoot(Grouped(s, |s|), Root(s, i));
    forall g | g in Grouped(s, |s|) && i in g.jobs ensures g.root == Root(s, i) {
      MembersAre(s, |s|, g.root);
    }
  }

  // ---- Deleting along a chain ----

  function Deleted(s: Store, ids: set<JobId>): (t: Store)
    ensures |t| == |s|
  {
    seq(|s|, i requires 0 <= i < |s| => if i in ids then s[i].(held := false) else s[i])
  }

  lemma DeletedOrdered(s: Store, ids: set<JobId>)
    requires Ordered(s)
    ensures Ordered(Deleted(s, ids))
  {
  }

  /** Deleting a job without a parent moves no survivor to another group. */
  lemma {:induction false} RootGoes(s: Store, r: JobId, i: JobId)
    requires Ordered(s) && r < |s| && ListedParent(s[r]).None? && i < |s| && i != r
    ensures Ordered(Deleted(s, {r})) && Root(Deleted(s, {r}), i) == Root(s, i)
  {
    DeletedOrdered(s, {r});
    match ListedParent(s[i])
    case None =>
    case Some(p) =>
      if Held(s, p) && p != r { RootGoes(s, r, p); }
  }

  /** Each job of `chain` is the parent of the next. */
  ghost predicate IsChain(s: Store, chain: seq<JobId>) {
    && (forall k | 0 <= k < |chain| :: Held(s, chain[k]))
    && (forall k | 0 < k < |chain| :: ListedParent(s[chain[k]]) == Some(chain[k - 1]))
  }

  lemma {:induction false} ChainOrder(s: Store, chain: seq<JobId>, a: nat, b: nat)
    requires Ordered(s) && IsChain(s, chain) && a < b < |chain|
    ensures chain[a] < chain[b]
  {
    assert ListedParent(s[chain[b]]) == Some(chain[b - 1]);
    if a < b - 1 { ChainOrder(s, chain, a, b - 1); }
  }

  /** A chain is in one group. */
  lemma {:induction false} ChainIsOneGroup(s: Store, chain: seq<JobId>, k: nat)
    requires Ordered(s) && IsChain(s, chain) && k < |chain|
    ensures Root(s, chain[k]) == Root(s, chain[0])
  {
    if k > 0 {
      assert ListedParent(s[chain[k]]) == Some(chain[k - 1]);
      ChainIsOneGroup(s, chain, k - 1);
    }
  }

  /** Deleting the oldest jobs of a chain keeps its survivors in one group. */
  lemma {:induction false} PrefixGoes(s: Store, chain: seq<JobId>, n: nat, k: nat)
    requires Ordered(s) && IsChain(s, chain) && 0 < n <= k < |chain|
    ensures var t := Deleted(s, set a | 0 <= a < n :: chain[a]);
            Ordered(t) && Held(t, chain[k]) && Root(t, chain[k]) == chain[n - 1]
    decreases k
  {
    var ids := set a | 0 <= a < n :: chain[a];
    var t := Deleted(s, ids);
    DeletedOrdered(s, ids);
    forall a | 0 <= a < n ensures chain[a] < chain[k] { ChainOrder(s, chain, a, k); }
    assert chain[k] !in ids;
    assert ListedParent(s[chain[k]]) == Some(chain[k - 1]);
    if k == n {
      assert chain[n - 1] in ids;
    } else {
      PrefixGoes(s, chain, n, k - 1);
    }
  }

  // ---- Deleting an analysis ----

  datatype Outcome = NoSuchRun | StillRunning(deleted: seq<JobId>) | Gone

  /** Deletes jobs from the last to the first, up to one that the store keeps. */
  function DeleteNewest(s: Store, jobs: seq<JobId>, deleted: seq<JobId>): (Store, Outcome)
    decreases |jobs|
  {
    if jobs == [] then (s, Gone)
    else
      var i := jobs[|jobs| - 1];
      match Delete(s, i, None)
      case Ok(t) => DeleteNewest(t, jobs[..|jobs| - 1], deleted + [i])
      case Err(Absent) => DeleteNewest(s, jobs[..|jobs| - 1], deleted)
      case Err(_) => (s, StillRunning(deleted))
  }

  function AnalysisOf(s: Store, run: JobId): seq<JobId>
    requires Ordered(s)
  {
    if Held(s, run) then Members(s, |s|, Root(s, run)) else []
  }

  predicate AllEnded(s: Store, jobs: seq<JobId>) {
    forall i | i in jobs :: i < |s| && Ended(s[i])
  }

  function DeletedAnalysis(s: Store, run: JobId): (Store, Outcome)
    requires Ordered(s)
  {
    var group := AnalysisOf(s, run);
    if group == [] then (s, NoSuchRun)
    else if !AllEnded(s, group) then (s, StillRunning([]))
    else DeleteNewest(s, group, [])
  }

  method Analysis(s: Store, run: JobId) returns (group: seq<JobId>)
    requires Ordered(s)
    ensures group == AnalysisOf(s, run)
  {
    group := [];
    if !Held(s, run) { return; }
    var root := WorkspaceId(s, run);
    var i: nat := 0;
    while i < |s|
      invariant i <= |s| && group == Members(s, i, root)
    {
      if s[i].held {
        var other := WorkspaceId(s, i);
        if other == root { group := group + [i]; }
      }
      i := i + 1;
    }
  }

  class Routes {
    var store: Store

    constructor (store: Store)
      ensures this.store == store
    {
      this.store := store;
    }

    method DeleteAnalysis(run: JobId) returns (outcome: Outcome)
      requires Ordered(store)
      modifies this
      ensures (store, outcome) == DeletedAnalysis(old(store), run)
    {
      var group := Analysis(store, run);
      if group == [] { return NoSuchRun; }
      if !AllEnded(store, group) { return StillRunning([]); }
      var deleted, n: nat := [], |group|;
      assert group[..n] == group;
      while n > 0
        invariant n <= |group| && DeleteNewest(store, group[..n], deleted) == DeleteNewest(old(store), group, [])
      {
        n := n - 1;
        assert group[..n + 1][..n] == group[..n];
        var removed := Delete(store, group[n], None);
        if removed.Ok? {
          store := removed.value;
          deleted := deleted + [group[n]];
        } else if removed.error != Absent {
          return StillRunning(deleted);
        }
      }
      outcome := Gone;
    }
  }

  /** Beside jobs of the list that are gone, nothing changed. */
  ghost predicate OnlyGone(s: Store, t: Store, jobs: seq<JobId>) {
    |t| == |s| && forall i | 0 <= i < |s| :: t[i] == s[i] || (i in jobs && t[i] == s[i].(held := false))
  }

  /** The store keeps the job at `k`, every newer one is gone, and every older one is as it was. */
  ghost predicate StoppedAt(s: Store, t: Store, jobs: seq<JobId>, k: nat) {
    && k < |jobs| && Held(t, jobs[k]) && Delete(t, jobs[k], None).Err?
    && (forall j | k < j < |jobs| :: !Held(t, jobs[j]))
    && forall j | 0 <= j < k && jobs[j] < |s| && jobs[j] < |t| :: t[jobs[j]] == s[jobs[j]]
  }

  lemma OneNewer(s: Store, u: Store, t: Store, jobs: seq<JobId>, k: nat)
    requires jobs != [] && Increasing(jobs) && |u| == |s| && OnlyGone(u, t, jobs[..|jobs| - 1])
    requires !Held(u, jobs[|jobs| - 1]) && (u == s || (jobs[|jobs| - 1] < |s| && u == s[jobs[|jobs| - 1] := s[jobs[|jobs| - 1]].(held := false)]))
    ensures OnlyGone(s, t, jobs) && !Held(t, jobs[|jobs| - 1])
    ensures (forall i | i in jobs[..|jobs| - 1] :: !Held(t, i)) ==> forall i | i in jobs :: !Held(t, i)
    ensures StoppedAt(u, t, jobs[..|jobs| - 1], k) ==> StoppedAt(s, t, jobs, k)
  {
    var n := |jobs| - 1;
    assert jobs == jobs[..n] + [jobs[n]];
    hide Delete;
  }

  /**
   Where the deletes stop: at the newest job that is held and that the store keeps,
   with every newer one gone and every older one as it was; or nowhere, with every
   job of the list gone. A job that is gone already stops nothing.
   */
  lemma {:induction false} StopsAtNewest(s: Store, jobs: seq<JobId>, deleted: seq<JobId>) returns (k: nat)
    requires Increasing(jobs)
    ensures var (t, outcome) := DeleteNewest(s, jobs, deleted);
            && OnlyGone(s, t, jobs) && outcome != NoSuchRun
            && (outcome == Gone ==> forall i | i in jobs :: !Held(t, i))
            && (outcome.StillRunning? ==> StoppedAt(s, t, jobs, k))
    decreases |jobs|
  {
    k := 0;
    if jobs != [] {
      var n := |jobs| - 1;
      var i, rest := jobs[n], jobs[..n];
      DeleteWhen(s, i, None);
      var u := if Delete(s, i, None).Ok? then Delete(s, i, None).value else s;
      if Delete(s, i, None).Ok? || Delete(s, i, None).error == Absent {
        assert DeleteNewest(s, jobs, deleted) == DeleteNewest(u, rest, if Delete(s, i, None).Ok? then deleted + [i] else deleted);
        assert !Held(u, i);
        hide Delete, DeleteNewest, OnlyGone, StoppedAt;
        k := StopsAtNewest(u, rest, if Delete(s, i, None).Ok? then deleted + [i] else deleted);
        OneNewer(s, u, DeleteNewest(s, jobs, deleted).0, jobs, k);
      } else {
        k := n;
        hide Delete;
      }
    }
  }

  /** The jobs of `jobs` can all go: each has ended and no running job needs one. */
  ghost predicate Loose(s: Store, jobs: seq<JobId>) {
    forall i | i in jobs :: Held(s, i) && Ended(s[i]) && forall c | 0 <= c < |s| && HoldsSlot(s[c]) :: Parent(s[c]) != Some(i)
  }

  lemma LooseRest(s: Store, jobs: seq<JobId>)
    requires jobs != [] && Increasing(jobs) && Loose(s, jobs)
    ensures var n := |jobs| - 1;
            && Delete(s, jobs[n], None) == Ok(Deleted(s, {jobs[n]}))
            && Increasing(jobs[..n]) && Loose(Deleted(s, {jobs[n]}), jobs[..n])
  {
    var n := |jobs| - 1;
    var i, t := jobs[n], Deleted(s, {jobs[n]});
    assert i in jobs;
    assert t == s[i := s[i].(held := false)];
    forall k | k in jobs[..n] ensures Held(t, k) && Ended(t[k]) && forall c | 0 <= c < |t| && HoldsSlot(t[c]) :: Parent(t[c]) != Some(k) {
      assert k in jobs;
      assert forall c | 0 <= c < |t| && HoldsSlot(t[c]) :: HoldsSlot(s[c]) && Parent(t[c]) == Parent(s[c]);
    }
  }

  lemma DeletedTwice(s: Store, i: JobId, rest: set<JobId>)
    ensures Deleted(Deleted(s, {i}), rest) == Deleted(s, {i} + rest)
  {
  }

  lemma NewestStep(s: Store, jobs: seq<JobId>, deleted: seq<JobId>, t: Store)
    requires jobs != [] && Delete(s, jobs[|jobs| - 1], None) == Ok(t)
    ensures DeleteNewest(s, jobs, deleted) == DeleteNewest(t, jobs[..|jobs| - 1], deleted + [jobs[|jobs| - 1]])
  {
  }

  lemma LastOut(s: Store, jobs: seq<JobId>)
    requires jobs != []
    ensures var n := |jobs| - 1;
            Deleted(Deleted(s, {jobs[n]}), set i | i in jobs[..n]) == Deleted(s, set i | i in jobs)
  {
    var n := |jobs| - 1;
    DeletedTwice(s, jobs[n], set i | i in jobs[..n]);
    assert jobs == jobs[..n] + [jobs[n]];
    assert (set i | i in jobs) == {jobs[n]} + set i | i in jobs[..n];
  }

  lemma {:induction false} AllGo(s: Store, jobs: seq<JobId>, deleted: seq<JobId>)
    requires Increasing(jobs) && Loose(s, jobs)
    ensures DeleteNewest(s, jobs, deleted) == (Deleted(s, set i | i in jobs), Gone)
    decreases |jobs|
  {
    if jobs == [] {
      assert Deleted(s, set i | i in jobs) == s;
    } else {
      var n := |jobs| - 1;
      var t := Deleted(s, {jobs[n]});
      LooseRest(s, jobs);
      NewestStep(s, jobs, deleted, t);
      AllGo(t, jobs[..n], deleted + [jobs[n]]);
      LastOut(s, jobs);
    }
  }

  /** A running job is in the group of its parent. */
  lemma RunningInGroup(s: Store, i: JobId, c: JobId)
    requires Ordered(s) && Held(s, i) && c < |s| && HoldsSlot(s[c]) && Parent(s[c]) == Some(i)
    ensures Root(s, c) == Root(s, i)
  {
  }

  /**
   Deleting an analysis with no other step in between deletes every job of it
   where each has ended, and nothing else: no job of another analysis goes, and
   none changes its group. Where one still runs, nothing goes.
   */
  lemma AnalysisGoesWhole(s: Store, run: JobId)
    requires Ordered(s) && Held(s, run)
    ensures var group := AnalysisOf(s, run);
            var (t, outcome) := DeletedAnalysis(s, run);
            if AllEnded(s, group) then outcome == Gone && t == Deleted(s, set i | i in group)
            else outcome == StillRunning([]) && t == s
    ensures Ordered(DeletedAnalysis(s, run).0)
    ensures forall k: JobId | Held(s, k) && Root(s, k) != Root(s, run) ::
              Held(DeletedAnalysis(s, run).0, k) && Root(DeletedAnalysis(s, run).0, k) == Root(s, k)
  {
    var group := AnalysisOf(s, run);
    var root := Root(s, run);
    MembersAre(s, |s|, root);
    assert run in group;
    if AllEnded(s, group) {
      forall i | i in group ensures Held(s, i) && Ended(s[i]) && forall c | 0 <= c < |s| && HoldsSlot(s[c]) :: Parent(s[c]) != Some(i) {
        forall c | 0 <= c < |s| && HoldsSlot(s[c]) ensures Parent(s[c]) != Some(i) {
          if Parent(s[c]) == Some(i) { RunningInGroup(s, i, c); }
        }
      }
      AllGo(s, group, []);
      var ids := set i | i in group;
      DeletedOrdered(s, ids);
      forall k: JobId | Held(s, k) && Root(s, k) != root ensures Held(Deleted(s, ids), k) && Root(Deleted(s, ids), k) == Root(s, k) {
        OthersStay(s, ids, root, k);
      }
    }
  }

  /** A job whose chain meets no deleted job keeps its group. */
  lemma {:induction false} OthersStay(s: Store, ids: set<JobId>, root: JobId, k: JobId)
    requires Ordered(s) && k < |s| && Root(s, k) != root && Ordered(Deleted(s, ids))
    requires forall i: JobId :: i in ids ==> Held(s, i) && Root(s, i) == root
    ensures k !in ids && Root(Deleted(s, ids), k) == Root(s, k)
  {
    match ListedParent(s[k])
    case None =>
    case Some(p) =>
      if Held(s, p) { OthersStay(s, ids, root, p); }
  }

  // ---- The job that an analysis shows ----

  lemma {:induction false} ShownWaits(s: Store, jobs: seq<JobId>, last: JobId)
    ensures var shown := Shown(s, jobs, last);
            if exists i | i in jobs :: Held(s, i) && Waiting(s, i) then shown in jobs && Held(s, shown) && Waiting(s, shown) else shown == last
  {
    if jobs != [] {
      var n := |jobs| - 1;
      assert jobs == jobs[..n] + [jobs[n]];
      ShownWaits(s, jobs[..n], last);
    }
  }

  /** The listed root is on the job's whole chain. */
  lemma {:induction false} RootOnChain(s: Store, i: JobId)
    requires Ordered(s) && Chains.ParentsOlder(s) && i < |s|
    ensures Root(s, i) <= i && Chains.RootRow(s, Root(s, i)) == Chains.RootRow(s, i)
  {
    match ListedParent(s[i])
    case None =>
    case Some(p) =>
      assert Parent(s[i]) == Some(p);
      if Held(s, p) { RootOnChain(s, p); }
  }

  /** Where a job of an analysis waits for answers, it is the only one, and the listing shows it. */
  lemma {:induction false} ShownIsTheOneThatWaits(s: Store, g: Group, i: JobId)
    requires Ordered(s) && Chains.Inv(s) && g in Grouped(s, |s|) && i in g.jobs && Held(s, i) && Waiting(s, i)
    ensures g.jobs != [] && SnapshotOf(s, g).shown == i
  {
    GroupsPartition(s, |s|);
    MembersAre(s, |s|, g.root);
    ShownWaits(s, g.jobs, g.jobs[|g.jobs| - 1]);
    var shown := SnapshotOf(s, g).shown;
    RootOnChain(s, i);
    RootOnChain(s, shown);
    Chains.OneWaits(s, shown, i);
  }
}
