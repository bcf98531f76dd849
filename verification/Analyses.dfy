/** Jobs grouped into analyses by the root of their parent chain, and the deletion of an analysis. */
module Analyses {
  import opened Results
  import opened JobStore

  /** The parent that a listing reads: a record it cannot read names the job it amends at most. */
  function ListedParent(r: Row): Option<JobId> {
    match r.form
    case Current => Parent(r)
    case OtherSchema => r.amends
    case Unparsed => None
  }

  /** A parent is an earlier job, and a job resumes one or amends one. */
  ghost predicate Ordered(s: Store) {
    forall i | 0 <= i < |s| ::
      && (s[i].resumes.Some? ==> s[i].resumes.value < i && s[i].amends.None?)
      && (s[i].amends.Some? ==> s[i].amends.value < i)
  }

  /** The analysis of job `i`: the root of its chain, also where the root or a job below it was deleted. */
  function Root(s: Store, i: JobId): JobId
    requires i < |s| && Ordered(s)
  {
    match ListedParent(s[i])
    case None => i
    case Some(p) => if Held(s, p) then Root(s, p) else p
  }

  /** The record names `p` as its parent: one of this version by the job it resumes or else amends, one of another version by the job it amends. */
  predicate NamesParent(r: Row, p: JobId) {
    || (r.form == Current && (r.resumes == Some(p) || (r.resumes == None && r.amends == Some(p))))
    || (r.form == OtherSchema && r.amends == Some(p))
  }

  /** From job `i` up, each is the parent that the one before it names; the last is the first that is gone or names none. */
  ghost predicate LeadsUp(s: Store, chain: seq<JobId>, i: JobId, root: JobId) {
    && chain != [] && chain[0] == i && chain[|chain| - 1] == root
    && (forall k | 0 <= k < |chain| - 1 :: chain[k] < |s| && (k > 0 ==> s[chain[k]].held) && NamesParent(s[chain[k]], chain[k + 1]))
    && ((|chain| > 1 && !Held(s, root)) || (root < |s| && forall p :: !NamesParent(s[root], p)))
  }

  lemma {:induction false} RootIs(s: Store, i: JobId) returns (chain: seq<JobId>)
    requires i < |s| && Ordered(s)
    ensures LeadsUp(s, chain, i, Root(s, i))
  {
    match ListedParent(s[i])
    case None => chain := [i];
    case Some(p) =>
      if Held(s, p) {
        var above := RootIs(s, p);
        chain := [i] + above;
        assert forall k | 0 < k < |chain| :: chain[k] == above[k - 1];
      } else {
        chain := [i, p];
      }
  }

  /** The walk of the source, which ends because each parent is older than its child. */
  method WorkspaceId(s: Store, i: JobId) returns (root: JobId)
    requires i < |s| && Ordered(s)
    ensures root == Root(s, i)
  {
    var current: JobId := i;
    while ListedParent(s[current]).Some?
      invariant current < |s|
      invariant Root(s, current) == Root(s, i)
      decreases current
    {
      var parent := ListedParent(s[current]).value;
      if !Held(s, parent) { return parent; }
      current := parent;
    }
    root := current;
  }

  // ---- Groups ----

  datatype Group = Group(root: JobId, jobs: seq<JobId>)

  function AddTo(groups: seq<Group>, root: JobId, i: JobId): seq<Group> {
    if groups == [] then [Group(root, [i])]
    else if groups[0].root == root then [Group(root, groups[0].jobs + [i])] + groups[1..]
    else [groups[0]] + AddTo(groups[1..], root, i)
  }

  /** The held jobs before row `n`, by analysis, in the order their first jobs came. */
  function Grouped(s: Store, n: nat): seq<Group>
    requires n <= |s| && Ordered(s)
  {
    if n == 0 then []
    else if s[n - 1].held then AddTo(Grouped(s, n - 1), Root(s, n - 1), n - 1)
    else Grouped(s, n - 1)
  }

  /** The held jobs before row `n` of one analysis, oldest first. */
  function Members(s: Store, n: nat, root: JobId): seq<JobId>
    requires n <= |s| && Ordered(s)
  {
    if n == 0 then []
    else Members(s, n - 1, root) + (if s[n - 1].held && Root(s, n - 1) == root then [n - 1] else [])
  }

  ghost predicate DistinctRoots(groups: seq<Group>) {
    forall a, b | 0 <= a < b < |groups| :: groups[a].root != groups[b].root
  }

  ghost predicate EachIs(s: Store, n: nat, groups: seq<Group>)
    requires n <= |s| && Ordered(s)
  {
    forall g | g in groups :: g.jobs == Members(s, n, g.root) && g.jobs != []
  }

  ghost predicate AllIn(s: Store, n: nat, groups: seq<Group>)
    requires n <= |s| && Ordered(s)
  {
    forall root: JobId | Members(s, n, root) != [] :: HasRoot(groups, root)
  }

  /** Each analysis has one group, which holds exactly its jobs. */
  ghost predicate Partition(s: Store, n: nat, groups: seq<Group>)
    requires n <= |s| && Ordered(s)
  {
    DistinctRoots(groups) && EachIs(s, n, groups) && AllIn(s, n, groups)
  }

  ghost predicate HasRoot(groups: seq<Group>, root: JobId) { exists g | g in groups :: g.root == root }

  lemma {:induction false} AddToIs(groups: seq<Group>, root: JobId, i: JobId)
    requires DistinctRoots(groups)
    ensures var out := AddTo(groups, root, i);
            && |groups| <= |out| <= |groups| + 1
            && (forall k | 0 <= k < |groups| :: out[k] == if groups[k].root == root then Group(root, groups[k].jobs + [i]) else groups[k])
            && (HasRoot(groups, root) ==> |out| == |groups|)
            && (!HasRoot(groups, root) ==> |out| == |groups| + 1 && out[|groups|] == Group(root, [i]))
  {
    if groups != [] {
      assert groups == [groups[0]] + groups[1..];
      if groups[0].root == root {
        assert groups[0] in groups;
      } else {
        AddToIs(groups[1..], root, i);
        assert HasRoot(groups, root) <==> HasRoot(groups[1..], root);
      }
    }
  }

  lemma {:induction false} GroupsPartition(s: Store, n: nat)
    requires n <= |s| && Ordered(s)
    ensures Partition(s, n, Grouped(s, n))
  {
    if n > 0 {
      GroupsPartition(s, n - 1);
      if s[n - 1].held { AddPartition(s, n, Grouped(s, n - 1)); }
    }
  }

  lemma AddDistinct(groups: seq<Group>, root: JobId, i: JobId)
    requires DistinctRoots(groups)
    ensures DistinctRoots(AddTo(groups, root, i))
  {
    var out := AddTo(groups, root, i);
    AddToIs(groups, root, i);
    forall a, b | 0 <= a < b < |out| ensures out[a].root != out[b].root {
      assert a < |groups| && out[a].root == groups[a].root && groups[a] in groups;
    }
  }

  lemma AddEach(s: Store, n: nat, groups: seq<Group>)
    requires 0 < n <= |s| && Ordered(s) && s[n - 1].held && Partition(s, n - 1, groups)
    ensures EachIs(s, n, AddTo(groups, Root(s, n - 1), n - 1))
  {
    hide Ordered, AddTo, Root;
    var root, i := Root(s, n - 1), n - 1;
    var out := AddTo(groups, root, i);
    AddToIs(groups, root, i);
    forall g | g in out ensures g.jobs == Members(s, n, g.root) && g.jobs != [] {
      var k :| 0 <= k < |out| && out[k] == g;
      if k < |groups| { assert groups[k] in groups; }
    }
  }

  lemma AddAllIn(s: Store, n: nat, groups: seq<Group>)
    requires 0 < n <= |s| && Ordered(s) && s[n - 1].held && Partition(s, n - 1, groups)
    ensures AllIn(s, n, AddTo(groups, Root(s, n - 1), n - 1))
  {
    var root, i := Root(s, n - 1), n - 1;
    var out := AddTo(groups, root, i);
    AddToIs(groups, root, i);
    forall r: JobId | Members(s, n, r) != [] ensures HasRoot(out, r) {
      if r == root {
        RootAdded(groups, root, i);
      } else {
        assert Members(s, i, r) != [] && HasRoot(groups, r);
        var g :| g in groups && g.root == r;
        var k :| 0 <= k < |groups| && groups[k] == g;
        assert out[k] in out;
      }
    }
  }

  lemma AddPartition(s: Store, n: nat, groups: seq<Group>)
    requires 0 < n <= |s| && Ordered(s) && s[n - 1].held && Partition(s, n - 1, groups)
    ensures Partition(s, n, AddTo(groups, Root(s, n - 1), n - 1))
  {
    AddDistinct(groups, Root(s, n - 1), n - 1);
    AddEach(s, n, groups);
    AddAllIn(s, n, groups);
  }

  lemma {:induction false} RootAdded(groups: seq<Group>, root: JobId, i: JobId)
    ensures HasRoot(AddTo(groups, root, i), root)
  {
    var out := AddTo(groups, root, i);
    if groups == [] || groups[0].root == root {
      assert out[0] in out;
    } else {
      RootAdded(groups[1..], root, i);
      var g :| g in AddTo(groups[1..], root, i) && g.root == root;
      assert g in out;
    }
  }

  // ---- The listing ----

  /** The job that a group shows: its latest that waits for answers, else its latest. */
  function Shown(s: Store, jobs: seq<JobId>, last: JobId): JobId {
    if jobs == [] then last
    else if Held(s, jobs[|jobs| - 1]) && Waiting(s, jobs[|jobs| - 1]) then jobs[|jobs| - 1]
    else Shown(s, jobs[..|jobs| - 1], last)
  }

  datatype Snapshot = Snapshot(root: JobId, shown: JobId, jobs: seq<JobId>)

  function SnapshotOf(s: Store, g: Group): Snapshot
    requires g.jobs != []
  {
    Snapshot(g.root, Shown(s, g.jobs, g.jobs[|g.jobs| - 1]), g.jobs)
  }

  ghost predicate Filled(groups: seq<Group>) { forall g | g in groups :: g.jobs != [] }

  function NewestFirst(s: Store, groups: seq<Group>): seq<Snapshot>
    requires Filled(groups)
  {
    if groups == [] then []
    else
      var n := |groups| - 1;
      assert groups[n] in groups && forall g | g in groups[..n] :: g in groups;
      [SnapshotOf(s, groups[n])] + NewestFirst(s, groups[..n])
  }

  method GroupJobs(s: Store) returns (grouped: seq<Group>)
    requires Ordered(s)
    ensures grouped == Grouped(s, |s|)
  {
    grouped := [];
    var i: nat := 0;
    while i < |s|
      invariant i <= |s| && grouped == Grouped(s, i)
    {
      if s[i].held {
        var root := WorkspaceId(s, i);
        grouped := AddTo(grouped, root, i);
      }
      i := i + 1;
    }
  }

  method ShownJob(s: Store, records: seq<JobId>) returns (shown: JobId)
    requires records != []
    ensures shown == Shown(s, records, records[|records| - 1])
  {
    shown := records[|records| - 1];
    ghost var last := shown;
    var r: nat := |records|;
    assert records[..r] == records;
    while r > 0
      invariant r <= |records| && shown == last
      invariant Shown(s, records[..r], last) == Shown(s, records, last)
    {
      r := r - 1;
      assert records[..r + 1][..r] == records[..r];
      if Held(s, records[r]) && Waiting(s, records[r]) { return records[r]; }
    }
  }

  lemma OneMore(s: Store, groups: seq<Group>, n: nat)
    requires n < |groups| && Filled(groups)
    ensures groups[n].jobs != [] && Filled(groups[..n]) && Filled(groups[..n + 1])
    ensures NewestFirst(s, groups[..n + 1]) == [SnapshotOf(s, groups[n])] + NewestFirst(s, groups[..n])
  {
    assert forall g | g in groups[..n + 1] :: g in groups;
    assert forall g | g in groups[..n] :: g in groups;
    assert groups[..n + 1][..n] == groups[..n] && groups[n] in groups;
  }

  /** The listing: one snapshot for each analysis, the newest analysis first. */
  method Snapshots(s: Store) returns (snapshots: seq<Snapshot>)
    requires Ordered(s)
    ensures Filled(Grouped(s, |s|)) && snapshots == NewestFirst(s, Grouped(s, |s|))
  {
    GroupsPartition(s, |s|);
    var grouped := GroupJobs(s);
    snapshots := [];
    var n: nat := |grouped|;
    assert grouped[..n] == grouped;
    while n > 0
      invariant n <= |grouped| && Filled(grouped[..n]) && Filled(grouped)
      invariant snapshots + NewestFirst(s, grouped[..n]) == NewestFirst(s, grouped)
    {
      n := n - 1;
      OneMore(s, grouped, n);
      var shown := ShownJob(s, grouped[n].jobs);
      snapshots := snapshots + [Snapshot(grouped[n].root, shown, grouped[n].jobs)];
    }
  }
}
