/** The routes of a sitting as the source runs them, on the fields of one reader's desk, and what each gives its caller. */
module CaseDesks {
  import opened Results
  import opened SittingDraft
  import opened SittingMarks
  import Blanks

  // ---- What the case opens on ----

  /** The case opens: a draft is there, none is needed, or the marks of the merged sitting do not contradict each other. */
  ghost predicate Opens(d: Desk, p: Prepared) {
    d.draft.Some? || d.merged.None? || Agree(p, d.merged.value.marks)
  }

  predicate HasWork(d: Desk) { d.draft.Some? || d.merged.Some? }

  /** The draft of a merged sitting: its list and what it says of the findings of today, pinned to the files of today. */
  ghost predicate Resumes(m: Merged, p: Prepared, draft: Draft) {
    && !draft.finished && draft.ownList == m.ownList && draft.missing == m.missing && draft.notes == "" && draft.pins == p.digests
    && forall key, mark :: MarkOf(draft.marks, key) == Some(mark) <==> IsKnown(p, key) && Says(p, m.marks, key, mark)
  }

  /** A desk without a draft opens on its merged sitting, and nothing else of it changes. */
  ghost predicate Opened(d: Desk, p: Prepared, e: Desk) {
    && d.draft.None? && d.merged.Some? && e.draft.Some? && Resumes(d.merged.value, p, e.draft.value)
    && e == d.(draft := e.draft, handed := map[])
  }

  lemma HeldOpens(d: Desk, p: Prepared)
    ensures Held(d, p).Some? <==> Opens(d, p)
    ensures Opens(d, p) && HasWork(d) && d.draft.None? ==> Opened(d, p, Held(d, p).value)
    ensures d.draft.Some? || d.merged.None? ==> Held(d, p) == Some(d)
  {
    if d.draft.None? && d.merged.Some? {
      MarksAre(p, d.merged.value.marks);
      if Opens(d, p) {
        var draft := Held(d, p).value.draft.value;
        forall key, mark ensures MarkOf(draft.marks, key) == Some(mark) <==> IsKnown(p, key) && Says(p, d.merged.value.marks, key, mark) {
          ResumedSaysTheSame(d, p, key, mark);
        }
      }
    }
  }

  /** The pins of the draft that a request finds. */
  function OpenPins(d: Desk, p: Prepared): Digests {
    if d.draft.Some? then d.draft.value.pins else p.digests
  }

  /** Each pinned file that the case lists holds on disk the bytes that are pinned. */
  ghost predicate OnDisk(p: Prepared, pins: Digests, disk: Digests) {
    forall f | f in pins && f in p.digests :: f in disk && disk[f] == pins[f]
  }

  lemma MovedNone(p: Prepared, draft: Draft, disk: Digests)
    ensures Moved(p, draft, disk) == {} <==> OnDisk(p, draft.pins, disk)
  {
    if Moved(p, draft, disk) == {} {
      forall f | f in draft.pins && f in p.digests ensures f in disk && disk[f] == draft.pins[f] {
        assert f !in Moved(p, draft, disk);
      }
    }
  }

  // ---- The routes ----

  class CaseDesk {
    var draft: Option<Draft>
    var dropped: bool
    var merged: Option<Merged>
    var disk: Digests
    ghost var handed: Digests

    constructor (merged: Option<Merged>, disk: Digests)
      ensures State() == Desk(None, false, merged, disk, map[])
    {
      this.draft, this.dropped, this.merged, this.disk, this.handed := None, false, merged, disk, map[];
    }

    ghost function State(): Desk
      reads this
    {
      Desk(draft, dropped, merged, disk, handed)
    }

    /** Finds the draft, and writes a resumed one the first time. */
    method HeldDraft(p: Prepared) returns (found: bool)
      modifies this`draft, this`handed
      ensures found <==> Opens(old(State()), p)
      ensures old(draft).Some? || merged.None? || !found ==> State() == old(State())
      ensures old(draft).None? && merged.Some? && found ==> Opened(old(State()), p, State())
      ensures Held(old(State()), p) == if found then Some(State()) else None
    {
      HeldOpens(State(), p);
      if draft.Some? || merged.None? { return true; }
      var current := CurrentMarks(p, merged.value.marks);
      if current.None? { return false; }
      draft := Some(Draft(false, merged.value.ownList, KnownMarks(p, current.value), merged.value.missing, "", p.digests));
      handed := map[];
      return true;
    }

    method ServeFiles(p: Prepared, files: seq<string>)
      requires p.Valid() && forall f | f in files :: f in p.digests
      modifies this`draft, this`handed
      ensures old(draft).None? ==> State() == old(State())
      ensures old(draft).Some? ==>
                && draft.Some? && draft.value == old(draft.value).(pins := draft.value.pins)
                && (forall f | f in files :: f in draft.value.pins && draft.value.pins[f] == p.digests[f])
                && (forall f | f !in files :: f in draft.value.pins <==> f in old(draft.value.pins))
                && (forall f | f !in files && f in old(draft.value.pins) :: draft.value.pins[f] == old(draft.value.pins)[f])
                && (forall f | f in files :: f in handed && handed[f] == p.digests[f])
      ensures State() == Serve(old(State()), p, files)
    {
      if draft.None? { return; }
      var shown := map f | f in files :: p.digests[f];
      handed := handed + shown;
      if forall f | f in files :: f in draft.value.pins && draft.value.pins[f] == shown[f] {
        assert draft.value.pins + shown == draft.value.pins;
        return;
      }
      draft := Some(draft.value.(pins := draft.value.pins + shown));
    }

    /** Records the work exactly where its marks answer the findings. */
    method RecordSitting(p: Prepared, work: Progress) returns (answer: Answer)
      requires draft.Some?
      modifies this`draft, this`dropped
      ensures answer == if Complete(p, work.marks) then Done else Refused
      ensures answer == Refused ==> State() == old(State())
      ensures answer == Done ==>
                && draft == Some(old(draft.value).(finished := true, marks := work.marks, missing := work.missing, notes := work.notes))
                && !dropped
      ensures (State(), answer) == Record(old(State()), p, work)
    {
      RecordedWhen(State(), p, work);
      if !Marked(p, work.marks) { return Refused; }
      draft := Some(draft.value.(finished := true, marks := work.marks, missing := work.missing, notes := work.notes));
      dropped := false;
      return Done;
    }

    /** Part one comes to every reader of a case that opens, and under a draft it is pinned as it is handed over. */
    method GetPartOne(p: Prepared) returns (answer: Answer)
      requires p.Valid()
      modifies this`draft, this`handed
      ensures answer == Served(p.shared) || answer == Refused
      ensures !HasWork(old(State())) ==> answer.Served? && State() == old(State())
      ensures old(draft).Some? ==> (answer.Served? <==> Agree(p, old(draft.value.marks)))
      ensures answer.Served? && draft.Some? ==> forall f | f in p.shared :: f in draft.value.pins && draft.value.pins[f] == p.digests[f]
      ensures old(draft).Some? ==> draft.Some? && draft.value == old(draft.value).(pins := draft.value.pins)
      ensures answer == Refused ==> State() == old(State()) || Opened(old(State()), p, State())
      ensures (State(), answer) == Request(old(State()), p, PartOne)
    {
      HeldOpens(State(), p);
      var found := HeldDraft(p);
      if !found { return Refused; }
      if draft.Some? { MarksAre(p, draft.value.marks); }
      if draft.Some? && CurrentMarks(p, draft.value.marks).None? { return Refused; }
      ServeFiles(p, p.shared);
      return Served(p.shared);
    }

    /** An own list is taken once, before any draft, and only where it says enough. */
    method PostOwnList(p: Prepared, items: seq<string>) returns (answer: Answer)
      requires p.Valid()
      modifies this`draft, this`handed
      ensures answer == if !HasWork(old(State())) && Typed(Written(items)) >= MIN_OWN_LIST then Done else Refused
      ensures answer == Done ==>
                && draft.Some? && !draft.value.finished && draft.value.marks == [] && draft.value.missing == [] && draft.value.notes == ""
                && draft.value.pins == p.digests && handed == map[]
                && forall item :: item in draft.value.ownList <==> item != "" && exists i | 0 <= i < |items| :: Blanks.Strip(items[i]) == item
      ensures answer == Refused ==> State() == old(State()) || Opened(old(State()), p, State())
      ensures (State(), answer) == Request(old(State()), p, OwnList(items))
    {
      var found := HeldDraft(p);
      if !found || draft.Some? { return Refused; }
      var written := Written(items);
      if Typed(written) < MIN_OWN_LIST { return Refused; }
      forall item ensures item in written <==> item != "" && exists i | 0 <= i < |items| :: Blanks.Strip(items[i]) == item {
        WrittenAre(items, item);
      }
      draft, handed := Some(Draft(false, written, [], [], "", p.digests)), map[];
      return Done;
    }

    /** Part two comes exactly to a reader with work on the case, and each file of it is pinned as it is handed over. */
    method GetPartTwo(p: Prepared) returns (answer: Answer)
      requires p.Valid()
      modifies this`draft, this`handed
      ensures answer == if Opens(old(State()), p) && HasWork(old(State())) then Served(p.claims) else Refused
      ensures answer.Served? ==> draft.Some? && forall f | f in p.claims ::
                f in draft.value.pins && draft.value.pins[f] == p.digests[f] && f in handed && handed[f] == p.digests[f]
      ensures old(draft).Some? ==> draft.Some? && draft.value == old(draft.value).(pins := draft.value.pins)
      ensures answer == Refused ==> State() == old(State())
      ensures (State(), answer) == Request(old(State()), p, PartTwo)
    {
      var found := HeldDraft(p);
      if !found || draft.None? { return Refused; }
      ServeFiles(p, p.claims);
      return Served(p.claims);
    }

    /** Progress replaces the marks, the missing threats and the notes, and touches neither the own list nor a pin. */
    method PostProgress(p: Prepared, work: Progress) returns (answer: Answer)
      requires p.Valid()
      modifies this`draft, this`handed
      ensures answer == if Opens(old(State()), p) && HasWork(old(State())) then Done else Refused
      ensures answer == Done ==> draft.Some? && Progress(draft.value.marks, draft.value.missing, draft.value.notes) == work
      ensures answer == Done && old(draft).Some? ==>
                && draft.value.ownList == old(draft.value.ownList) && draft.value.pins == old(draft.value.pins)
                && draft.value.finished == old(draft.value.finished) && handed == old(handed)
      ensures answer == Done && old(draft).None? ==>
                draft.value.ownList == merged.value.ownList && draft.value.pins == p.digests && !draft.value.finished
      ensures answer == Refused ==> State() == old(State())
      ensures (State(), answer) == Request(old(State()), p, SaveProgress(work))
    {
      var found := HeldDraft(p);
      if !found || draft.None? { return Refused; }
      draft := Some(draft.value.(marks := work.marks, missing := work.missing, notes := work.notes));
      return Done;
    }

    /** A sitting finishes exactly where its marks answer the findings and no pinned file that the case lists has moved. */
    method PostFinish(p: Prepared, work: Progress) returns (answer: Answer)
      requires p.Valid()
      modifies this`draft, this`handed, this`dropped
      ensures answer == if && Opens(old(State()), p) && HasWork(old(State()))
                           && OnDisk(p, OpenPins(old(State()), p), disk) && Complete(p, work.marks)
                        then Done else Refused
      ensures answer == Done ==>
                && draft.Some? && draft.value.finished && !dropped && draft.value.pins == OpenPins(old(State()), p)
                && Progress(draft.value.marks, draft.value.missing, draft.value.notes) == work
                && OnDisk(p, draft.value.pins, disk)
      ensures answer == Done && old(draft).Some? ==> draft.value.ownList == old(draft.value.ownList)
      ensures answer == Refused ==> State() == old(State()) || Opened(old(State()), p, State())
      ensures (State(), answer) == Request(old(State()), p, Finish(work))
    {
      hide Held, Record, Moved, Complete, OnDisk, Agree, Says, IsKnown;
      var found := HeldDraft(p);
      if !found || draft.None? { return Refused; }
      MovedNone(p, draft.value, disk);
      if Moved(p, draft.value, disk) != {} { return Refused; }
      answer := RecordSitting(p, work);
    }

    /** A recorded case is held back with every word of it, and only a recorded one. */
    method PostDrop(p: Prepared) returns (answer: Answer)
      requires p.Valid()
      modifies this`draft, this`handed, this`dropped
      ensures answer == if old(draft).Some? && old(draft.value.finished) then Done else Refused
      ensures answer == Done ==> dropped && draft == Some(old(draft.value).(finished := false)) && Contribution(State(), p) == None
      ensures answer == Refused ==> State() == old(State()) || Opened(old(State()), p, State())
      ensures (State(), answer) == Request(old(State()), p, Drop)
    {
      HeldOpens(State(), p);
      var found := HeldDraft(p);
      if !found || draft.None? || !draft.value.finished { return Refused; }
      draft := Some(draft.value.(finished := false));
      dropped := true;
      return Done;
    }

    /** A held-back case is recorded again exactly where its marks still answer the findings. */
    method PostPutBack(p: Prepared) returns (answer: Answer)
      requires p.Valid()
      modifies this`draft, this`handed, this`dropped
      ensures old(draft).Some? ==>
                (answer == Done <==> old(dropped) && !old(draft.value.finished) && Complete(p, old(draft.value.marks)))
      ensures answer == Done || answer == Refused
      ensures answer == Done ==> old(dropped) && !dropped && draft.Some? && draft.value.finished && Complete(p, draft.value.marks)
      ensures answer == Done && old(draft).Some? ==> draft.value == old(draft.value).(finished := true)
      ensures answer == Refused ==> State() == old(State()) || Opened(old(State()), p, State())
      ensures (State(), answer) == Request(old(State()), p, PutBack)
    {
      var found := HeldDraft(p);
      if !found || !dropped || draft.None? || draft.value.finished { return Refused; }
      answer := RecordSitting(p, Progress(draft.value.marks, draft.value.missing, draft.value.notes));
    }

    /** A reset clears the answers and keeps the own list and the pins. */
    method PostReset(p: Prepared) returns (answer: Answer)
      requires p.Valid()
      modifies this`draft, this`handed, this`dropped
      ensures answer == if Opens(old(State()), p) && HasWork(old(State())) then Done else Refused
      ensures answer == Done ==>
                && !dropped && draft.Some? && !draft.value.finished
                && draft.value.marks == [] && draft.value.missing == [] && draft.value.notes == ""
                && draft.value.pins == OpenPins(old(State()), p)
                && draft.value.ownList == if old(draft).Some? then old(draft.value.ownList) else merged.value.ownList
      ensures answer == Refused ==> State() == old(State())
      ensures (State(), answer) == Request(old(State()), p, Reset)
    {
      var found := HeldDraft(p);
      if !found || draft.None? { return Refused; }
      if draft.value.finished { draft := Some(draft.value.(finished := false)); }
      draft := Some(draft.value.(marks := [], missing := [], notes := ""));
      dropped := false;
      return Done;
    }

    method CleanLocalRecord()
      modifies this`draft, this`handed
      ensures draft == None && handed == map[]
      ensures State() == Cleaned(old(State()))
    {
      if draft.Some? && draft.value.finished { draft := Some(draft.value.(finished := false)); }
      draft, handed := None, map[];
    }
  }
}
