/**
 One reader's draft of one case: the routes that open, fill, record and take
 back a sitting, while the files of the case are edited underneath.
 */
module SittingDraft {
  import opened Results
  import Blanks

  const MIN_OWN_LIST := 10

  /** Each file of a case with the digest of its bytes; equal digests are equal bytes. */
  type Digests = map<string, string>

  datatype Entry = Entry(key: string, mark: string)

  /** A finding to mark, and the keys it had under earlier rules. */
  datatype Target = Target(key: string, aliases: seq<string>)

  /** The case as it was prepared for one request. */
  datatype Prepared = Prepared(shared: seq<string>, claims: seq<string>, digests: Digests, targets: seq<Target>) {
    ghost predicate Valid() {
      (forall f | f in shared :: f in digests) && (forall f | f in claims :: f in digests)
    }
  }

  datatype Draft = Draft(
    finished: bool, ownList: seq<string>, marks: seq<Entry>, missing: seq<string>, notes: string, pins: Digests)

  /** The newest merged sitting of the case. */
  datatype Merged = Merged(ownList: seq<string>, marks: seq<Entry>, missing: seq<string>)

  datatype Progress = Progress(marks: seq<Entry>, missing: seq<string>, notes: string)

  /** `handed` is what the draft's reader was last handed of each file; the routes do not read it. */
  datatype Desk = Desk(draft: Option<Draft>, dropped: bool, merged: Option<Merged>, disk: Digests, handed: Digests)

  datatype Answer = Refused | Done | Served(files: seq<string>)

  // ---- Marks ----

  /** The key that a mark's key stands for now; of two targets with one old key the last decides. */
  function CurrentKey(targets: seq<Target>, key: string): string {
    if targets == [] then key
    else if key in targets[|targets| - 1].aliases then targets[|targets| - 1].key
    else CurrentKey(targets[..|targets| - 1], key)
  }

  function MarkOf(marks: seq<Entry>, key: string): Option<string> {
    if marks == [] then None
    else if marks[0].key == key then Some(marks[0].mark)
    else MarkOf(marks[1..], key)
  }

  /** The marks under their current keys, or nothing where two of one finding disagree. */
  function CurrentMarks(p: Prepared, marks: seq<Entry>): Option<seq<Entry>> {
    if marks == [] then Some([])
    else
      var n := |marks| - 1;
      match CurrentMarks(p, marks[..n])
      case None => None
      case Some(folded) =>
        var key := CurrentKey(p.targets, marks[n].key);
        match MarkOf(folded, key)
        case None => Some(folded + [Entry(key, marks[n].mark)])
        case Some(mark) => if mark == marks[n].mark then Some(folded) else None
  }

  predicate IsKnown(p: Prepared, key: string) {
    exists i | 0 <= i < |p.targets| :: p.targets[i].key == key || key in p.targets[i].aliases
  }

  function KnownMarks(p: Prepared, marks: seq<Entry>): seq<Entry> {
    if marks == [] then []
    else KnownMarks(p, marks[..|marks| - 1]) + (if IsKnown(p, marks[|marks| - 1].key) then [marks[|marks| - 1]] else [])
  }

  /** Every mark names a finding, and every finding has one. */
  predicate Marked(p: Prepared, marks: seq<Entry>) {
    && (forall i | 0 <= i < |marks| :: IsKnown(p, marks[i].key))
    && CurrentMarks(p, marks).Some?
    && forall i | 0 <= i < |p.targets| :: MarkOf(CurrentMarks(p, marks).value, p.targets[i].key).Some?
  }

  function Written(items: seq<string>): seq<string> {
    if items == [] then []
    else
      var item := Blanks.Strip(items[|items| - 1]);
      Written(items[..|items| - 1]) + (if item != "" then [item] else [])
  }

  function Typed(items: seq<string>): nat {
    if items == [] then 0 else |items[0]| + Typed(items[1..])
  }

  // ---- What the routes share ----

  /** The reader's draft; a case that a merged sitting once covered opens on that sitting. */
  function Held(d: Desk, p: Prepared): Option<Desk> {
    if d.draft.Some? || d.merged.None? then Some(d)
    else
      match CurrentMarks(p, d.merged.value.marks)
      case None => None
      case Some(current) =>
        var m := d.merged.value;
        Some(d.(draft := Some(Draft(false, m.ownList, KnownMarks(p, current), m.missing, "", p.digests)), handed := map[]))
  }

  /** The pinned files of the case whose bytes are not the pinned ones any more. */
  function Moved(p: Prepared, draft: Draft, disk: Digests): set<string> {
    set f | f in draft.pins && f in p.digests && !(f in disk && disk[f] == draft.pins[f])
  }

  /** Hands files over and pins them as they are handed over. */
  function Serve(d: Desk, p: Prepared, files: seq<string>): Desk
    requires p.Valid() && forall f | f in files :: f in p.digests
  {
    if d.draft.None? then d
    else
      var shown := map f | f in files :: p.digests[f];
      d.(draft := Some(d.draft.value.(pins := d.draft.value.pins + shown)), handed := d.handed + shown)
  }

  function Record(d: Desk, p: Prepared, work: Progress): (Desk, Answer)
    requires d.draft.Some?
  {
    if !Marked(p, work.marks) then (d, Refused)
    else
      var draft := d.draft.value.(finished := true, marks := work.marks, missing := work.missing, notes := work.notes);
      (d.(draft := Some(draft), dropped := false), Done)
  }

  /** The recorded sitting taken back; every word of it stays. */
  function Withdrawn(d: Desk): Desk
    requires d.draft.Some?
  {
    d.(draft := Some(d.draft.value.(finished := false)))
  }

  // ---- The routes ----

  datatype Route =
    | PartOne
    | OwnList(items: seq<string>)
    | SaveProgress(work: Progress)
    | PartTwo
    | Finish(work: Progress)
    | Drop
    | PutBack
    | Reset

  /** A route over the draft that `Held` found. */
  function Respond(e: Desk, p: Prepared, route: Route): (Desk, Answer)
    requires p.Valid()
  {
    match route
    case PartOne =>
      if e.draft.Some? && CurrentMarks(p, e.draft.value.marks).None? then (e, Refused)
      else (Serve(e, p, p.shared), Served(p.shared))
    case OwnList(items) =>
      if e.draft.Some? || Typed(Written(items)) < MIN_OWN_LIST then (e, Refused)
      else (e.(draft := Some(Draft(false, Written(items), [], [], "", p.digests)), handed := map[]), Done)
    case SaveProgress(work) =>
      if e.draft.None? then (e, Refused)
      else (e.(draft := Some(e.draft.value.(marks := work.marks, missing := work.missing, notes := work.notes))), Done)
    case PartTwo =>
      if e.draft.None? then (e, Refused) else (Serve(e, p, p.claims), Served(p.claims))
    case Finish(work) =>
      if e.draft.None? || Moved(p, e.draft.value, e.disk) != {} then (e, Refused) else Record(e, p, work)
    case Drop =>
      if e.draft.None? || !e.draft.value.finished then (e, Refused) else (Withdrawn(e).(dropped := true), Done)
    case PutBack =>
      if !e.dropped || e.draft.None? || e.draft.value.finished then (e, Refused)
      else Record(e, p, Progress(e.draft.value.marks, e.draft.value.missing, e.draft.value.notes))
    case Reset =>
      if e.draft.None? then (e, Refused)
      else (e.(draft := Some(e.draft.value.(finished := false, marks := [], missing := [], notes := "")), dropped := false), Done)
  }

  /** A request that opens the case first; a refusal there changes nothing. */
  function Request(d: Desk, p: Prepared, route: Route): (Desk, Answer)
    requires p.Valid()
  {
    match Held(d, p)
    case None => (d, Refused)
    case Some(e) => Respond(e, p, route)
  }

  /** What a contribution carries of the case: a recorded draft of which no file moved. */
  function Contribution(d: Desk, p: Prepared): Option<Draft> {
    if d.draft.Some? && d.draft.value.finished && Moved(p, d.draft.value, d.disk) == {} then d.draft else None
  }

  /** The local record once its contribution is sent. */
  function Cleaned(d: Desk): Desk { d.(draft := None, handed := map[]) }
}
