/** What holds of a draft over every sequence of requests, corpus edits and merges. */
module SittingRuns {
  import opened Results
  import opened SittingDraft

  datatype Action =
    | Asks(p: Prepared, route: Route)
    | AskFails(p: Prepared, route: Route, saves: nat)
    | Cleans(p: Prepared)
    | CleanFails
    | Edits(disk: Digests)
    | Merges(merged: Option<Merged>)

  /** The desk where only the first `saves` writes of a request reach the store. */
  function Partly(d: Desk, p: Prepared, route: Route, saves: nat): Desk {
    if saves == 0 || Held(d, p).None? then d
    else
      var e := Held(d, p).value;
      if saves > 1 && route.Reset? && e.draft.Some? && e.draft.value.finished then Withdrawn(e) else e
  }

  ghost predicate Next(d: Desk, a: Action, t: Desk) {
    match a
    case Asks(p, route) => p.Valid() && t == Request(d, p, route).0
    case AskFails(p, route, saves) => t == Partly(d, p, route, saves)
    case Cleans(p) => Contribution(d, p).Some? && t == Cleaned(d)
    case CleanFails => d.draft.Some? && d.draft.value.finished && t == Withdrawn(d)
    case Edits(disk) => t == d.(disk := disk)
    case Merges(merged) => t == d.(merged := merged)
  }

  /** What was handed over under the draft is pinned as it was handed over, and a held-back case has an open draft. */
  ghost predicate Inv(d: Desk) {
    && (d.draft.None? ==> d.handed == map[])
    && (d.draft.Some? ==> forall f | f in d.handed :: f in d.draft.value.pins && d.draft.value.pins[f] == d.handed[f])
    && (d.dropped ==> d.draft.Some? && !d.draft.value.finished)
  }

  lemma HeldKeeps(d: Desk, p: Prepared)
    requires Inv(d) && Held(d, p).Some?
    ensures Inv(Held(d, p).value)
    ensures d.draft.Some? ==> Held(d, p).value == d
  {
  }

  lemma RespondKeeps(e: Desk, p: Prepared, route: Route)
    requires Inv(e) && p.Valid()
    ensures Inv(Respond(e, p, route).0)
  {
  }

  lemma StepKeeps(d: Desk, a: Action, t: Desk)
    requires Inv(d) && Next(d, a, t)
    ensures Inv(t)
  {
    match a
    case Asks(p, route) =>
      if Held(d, p).Some? {
        HeldKeeps(d, p);
        RespondKeeps(Held(d, p).value, p, route);
      }
    case AskFails(p, route, saves) =>
      if Held(d, p).Some? { HeldKeeps(d, p); }
    case _ =>
  }

  ghost predicate IsRun(run: seq<Desk>, actions: seq<Action>) {
    && |run| == |actions| + 1 && run[0].draft == None && !run[0].dropped && run[0].handed == map[]
    && forall k | 0 <= k < |actions| :: Next(run[k], actions[k], run[k + 1])
  }

  lemma {:induction false} RunKeeps(run: seq<Desk>, actions: seq<Action>, k: nat)
    requires IsRun(run, actions) && k < |run|
    ensures Inv(run[k])
  {
    if k > 0 {
      RunKeeps(run, actions, k - 1);
      StepKeeps(run[k - 1], actions[k - 1], run[k]);
    }
  }

  // ---- The own list ----

  lemma OwnListStays(d: Desk, a: Action, t: Desk)
    requires Next(d, a, t) && d.draft.Some? && t.draft.Some?
    ensures t.draft.value.ownList == d.draft.value.ownList
  {
    match a
    case Asks(p, route) => assert Held(d, p) == Some(d);
    case _ =>
  }

  /** Over every run, a draft's own list never changes while the draft is there. */
  lemma {:induction false} OwnListNeverChanges(run: seq<Desk>, actions: seq<Action>, i: nat, j: nat)
    requires IsRun(run, actions) && i <= j < |run| && forall k | i <= k <= j :: run[k].draft.Some?
    ensures run[j].draft.value.ownList == run[i].draft.value.ownList
  {
    if i < j {
      OwnListNeverChanges(run, actions, i, j - 1);
      OwnListStays(run[j - 1], actions[j - 1], run[j]);
    }
  }

  /** The step takes a draft in: an own list that says enough, or the list of the merged sitting. */
  ghost predicate TakesList(d: Desk, a: Action, t: Desk) {
    && d.draft.None? && t.draft.Some?
    && ((exists p, items :: a == Asks(p, OwnList(items)) && Typed(Written(items)) >= MIN_OWN_LIST && t.draft.value.ownList == Written(items))
        || (d.merged.Some? && t.draft.value.ownList == d.merged.value.ownList))
  }

  lemma DraftComesWithList(d: Desk, a: Action, t: Desk)
    requires Next(d, a, t) && d.draft.None? && t.draft.Some?
    ensures TakesList(d, a, t)
  {
    hide KnownMarks, CurrentMarks, Typed, Written;
  }

  /** The list came in at step `j`, and is still the draft's list in every state up to `k`. */
  ghost predicate ListSince(run: seq<Desk>, actions: seq<Action>, j: nat, k: nat) {
    && j < k < |run| == |actions| + 1
    && TakesList(run[j], actions[j], run[j + 1])
    && forall h | j < h <= k :: run[h].draft.Some? && run[h].draft.value.ownList == run[j + 1].draft.value.ownList
  }

  ghost predicate FollowsList(run: seq<Desk>, actions: seq<Action>, k: nat) {
    exists j: nat :: ListSince(run, actions, j, k)
  }

  lemma {:induction false} DraftHasList(run: seq<Desk>, actions: seq<Action>, k: nat)
    requires IsRun(run, actions) && k < |run| && run[k].draft.Some?
    ensures FollowsList(run, actions, k)
  {
    hide TakesList;
    if run[k - 1].draft.Some? {
      DraftHasList(run, actions, k - 1);
      var j: nat :| ListSince(run, actions, j, k - 1);
      OwnListStays(run[k - 1], actions[k - 1], run[k]);
      assert ListSince(run, actions, j, k);
    } else {
      DraftComesWithList(run[k - 1], actions[k - 1], run[k]);
      assert ListSince(run, actions, k - 1, k);
    }
  }

  /**
   Over every run, part two is served only after an own list that said enough
   was taken, or on the list of a merged sitting, and that list is the draft's
   own in every state since.
   */
  lemma PartTwoFollowsOwnList(run: seq<Desk>, actions: seq<Action>, k: nat, p: Prepared)
    requires IsRun(run, actions) && k < |actions| && p.Valid() && actions[k] == Asks(p, PartTwo) && Request(run[k], p, PartTwo).1.Served?
    ensures FollowsList(run, actions, k + 1)
  {
    assert Next(run[k], actions[k], run[k + 1]);
    PartTwoNeedsDraft(run[k], p);
    DraftHasList(run, actions, k + 1);
  }

  // ---- What is served, and what is signed ----

  /** Part two is served only where a draft is held, and is pinned as it is served. */
  lemma PartTwoNeedsDraft(d: Desk, p: Prepared)
    requires p.Valid() && Request(d, p, PartTwo).1.Served?
    ensures var t := Request(d, p, PartTwo).0;
            t.draft.Some? && forall f | f in p.claims :: f in t.draft.value.pins && t.draft.value.pins[f] == p.digests[f] == t.handed[f]
  {
  }

  /** In every run, what was last handed over under a draft is what the draft pins, and a held-back case has an open draft. */
  lemma PinsAreWhatWasHanded(run: seq<Desk>, actions: seq<Action>, k: nat)
    requires IsRun(run, actions) && k < |run|
    ensures forall f | f in run[k].handed :: run[k].draft.Some? && f in run[k].draft.value.pins && run[k].draft.value.pins[f] == run[k].handed[f]
    ensures run[k].dropped ==> run[k].draft.Some? && !run[k].draft.value.finished
  {
    RunKeeps(run, actions, k);
  }

  /** In every run, a sitting that is finished signs, of each file the case still lists, the bytes on disk, which are those last handed over. */
  lemma FinishSignsWhatWasHanded(run: seq<Desk>, actions: seq<Action>, k: nat, p: Prepared, work: Progress)
    requires IsRun(run, actions) && k < |run| && p.Valid() && Request(run[k], p, Finish(work)).1 == Done
    ensures var t := Request(run[k], p, Finish(work)).0;
            && t.draft.Some? && t.draft.value.finished && !t.dropped
            && (forall f | f in t.draft.value.pins && f in p.digests :: f in t.disk && t.disk[f] == t.draft.value.pins[f])
            && (forall f | f in t.handed && f in p.digests :: f in t.disk && t.disk[f] == t.handed[f])
  {
    RunKeeps(run, actions, k);
    HeldKeeps(run[k], p);
    var e := Held(run[k], p).value;
    assert forall f | f in e.draft.value.pins && f in p.digests :: f !in Moved(p, e.draft.value, e.disk);
  }

  /** The same of what is contributed, however it was recorded. */
  lemma ContributionSignsTheDisk(run: seq<Desk>, actions: seq<Action>, k: nat, p: Prepared)
    requires IsRun(run, actions) && k < |run| && Contribution(run[k], p).Some?
    ensures var draft := Contribution(run[k], p).value;
            && draft.finished
            && (forall f | f in draft.pins && f in p.digests :: f in run[k].disk && run[k].disk[f] == draft.pins[f])
            && (forall f | f in run[k].handed && f in p.digests :: f in run[k].disk && run[k].disk[f] == run[k].handed[f])
  {
    RunKeeps(run, actions, k);
    var draft := run[k].draft.value;
    assert forall f | f in draft.pins && f in p.digests :: f !in Moved(p, draft, run[k].disk);
  }

  /** What is held back and put back is as it was, where its marks still answer the findings. */
  lemma PutBackUndoesDrop(d: Desk, p: Prepared)
    requires p.Valid() && d.draft.Some? && d.draft.value.finished && !d.dropped && Marked(p, d.draft.value.marks)
    ensures var (held, a) := Request(d, p, Drop);
            a == Done && held.dropped && Contribution(held, p) == None && Request(held, p, PutBack) == (d, Done)
  {
    var held := Request(d, p, Drop).0;
    var draft := d.draft.value;
    assert draft.(finished := false).(finished := true, marks := draft.marks, missing := draft.missing, notes := draft.notes) == draft;
  }

  // ---- What the routes do not check ----

  /**
   Putting a case back looks at no file: it records what the draft pins, so what
   it records has a moved file exactly where the held-back draft had one.
   */
  lemma PutBackLooksAtNoFile(d: Desk, p: Prepared, disk: Digests)
    requires p.Valid() && Inv(d)
    ensures Request(d.(disk := disk), p, PutBack).1 == Request(d, p, PutBack).1
    ensures Request(d, p, PutBack).1 == Done <==> d.dropped && Marked(p, d.draft.value.marks)
    ensures Request(d, p, PutBack).1 == Done ==>
              Moved(p, Request(d, p, PutBack).0.draft.value, d.disk) == Moved(p, d.draft.value, d.disk)
  {
  }

  /**
   Part one pins nothing before the own list is in: the list pins the files as
   they are when it comes, and the sitting signs those, whatever part one showed.
   */
  lemma FirstListPinsItsOwnRead(d: Desk, shown: Prepared, p: Prepared, items: seq<string>, work: Progress)
    requires shown.Valid() && p.Valid() && d.draft == None && d.merged == None
    requires Typed(Written(items)) >= MIN_OWN_LIST && Marked(p, work.marks)
    requires forall f | f in p.digests :: f in d.disk && d.disk[f] == p.digests[f]
    ensures Request(d, shown, PartOne) == (d, Served(shown.shared))
    ensures var (listed, a) := Request(d, p, OwnList(items));
            var (recorded, b) := Request(listed, p, Finish(work));
            a == Done && b == Done && recorded.draft.value.pins == p.digests
  {
    var listed := Request(d, p, OwnList(items)).0;
    assert Moved(p, listed.draft.value, listed.disk) == {};
  }
}
