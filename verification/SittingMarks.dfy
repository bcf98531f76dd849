/** What the marks of a sitting come to under the findings of today, and what the routes ask of them. */
module SittingMarks {
  import opened Results
  import opened SittingDraft
  import Blanks

  // ---- Keys ----

  /** The key names the last target that had it before, and itself where none had it. */
  lemma {:induction false} CurrentKeyIs(targets: seq<Target>, key: string, i: nat)
    requires i < |targets| ==> key in targets[i].aliases && forall j | i < j < |targets| :: key !in targets[j].aliases
    requires i >= |targets| ==> forall j | 0 <= j < |targets| :: key !in targets[j].aliases
    ensures CurrentKey(targets, key) == if i < |targets| then targets[i].key else key
  {
    if targets != [] {
      var n := |targets| - 1;
      if i != n {
        assert key !in targets[n].aliases;
        assert forall j | 0 <= j < n :: targets[..n][j] == targets[j];
        CurrentKeyIs(targets[..n], key, i);
      }
    }
  }

  lemma {:induction false} AliasOrSelf(targets: seq<Target>, key: string)
    ensures CurrentKey(targets, key) == key || exists i | 0 <= i < |targets| :: targets[i].key == CurrentKey(targets, key) && key in targets[i].aliases
    ensures (exists i | 0 <= i < |targets| :: key in targets[i].aliases) ==>
              exists i | 0 <= i < |targets| :: targets[i].key == CurrentKey(targets, key)
  {
    if targets != [] {
      var n := |targets| - 1;
      AliasOrSelf(targets[..n], key);
      assert forall i | 0 <= i < n :: targets[..n][i] == targets[i];
      if key !in targets[n].aliases {
        if i :| 0 <= i < n && targets[..n][i].key == CurrentKey(targets[..n], key) {
          assert targets[i].key == CurrentKey(targets, key);
        }
      }
    }
  }

  /** The key, as it reads now, is the key of a finding. */
  ghost predicate NamesFinding(p: Prepared, key: string) {
    exists i | 0 <= i < |p.targets| :: p.targets[i].key == CurrentKey(p.targets, key)
  }

  /** A mark names a finding exactly where its key, as it reads now, is the key of one. */
  lemma KnownIsCurrent(p: Prepared, key: string)
    ensures IsKnown(p, key) <==> NamesFinding(p, key)
  {
    AliasOrSelf(p.targets, key);
  }

  // ---- Folding ----

  /** No two marks of one finding disagree. */
  ghost predicate Agree(p: Prepared, marks: seq<Entry>) {
    forall i, j | 0 <= i < j < |marks| && CurrentKey(p.targets, marks[i].key) == CurrentKey(p.targets, marks[j].key) ::
      marks[i].mark == marks[j].mark
  }

  /** Some mark of the finding `key` says `mark`. */
  ghost predicate Says(p: Prepared, marks: seq<Entry>, key: string, mark: string) {
    exists i | 0 <= i < |marks| :: CurrentKey(p.targets, marks[i].key) == key && marks[i].mark == mark
  }

  lemma {:induction false} MarkOfAdded(marks: seq<Entry>, entry: Entry, key: string)
    ensures MarkOf(marks + [entry], key) ==
            if MarkOf(marks, key).Some? then MarkOf(marks, key) else if entry.key == key then Some(entry.mark) else None
  {
    if marks == [] {
      assert marks + [entry] == [entry];
    } else {
      assert (marks + [entry])[1..] == marks[1..] + [entry];
      MarkOfAdded(marks[1..], entry, key);
    }
  }

  lemma SaysMore(p: Prepared, marks: seq<Entry>, n: nat, key: string, mark: string)
    requires |marks| == n + 1
    ensures Says(p, marks, key, mark) <==>
              Says(p, marks[..n], key, mark) || (CurrentKey(p.targets, marks[n].key) == key && marks[n].mark == mark)
  {
    hide CurrentKey;
    assert forall i | 0 <= i < n :: marks[..n][i] == marks[i];
  }

  /** No mark of the finding `key` says anything but `mark`. */
  ghost predicate SaysOnly(p: Prepared, marks: seq<Entry>, key: string, mark: string) {
    forall i | 0 <= i < |marks| && CurrentKey(p.targets, marks[i].key) == key :: marks[i].mark == mark
  }

  lemma AgreeMore(p: Prepared, marks: seq<Entry>, n: nat)
    requires |marks| == n + 1
    ensures Agree(p, marks) <==>
              Agree(p, marks[..n]) && SaysOnly(p, marks[..n], CurrentKey(p.targets, marks[n].key), marks[n].mark)
  {
    hide CurrentKey;
    var key, before := CurrentKey(p.targets, marks[n].key), marks[..n];
    assert forall i | 0 <= i < n :: before[i] == marks[i];
    if Agree(p, before) && SaysOnly(p, before, key, marks[n].mark) {
      forall i, j | 0 <= i < j < |marks| && CurrentKey(p.targets, marks[i].key) == CurrentKey(p.targets, marks[j].key)
        ensures marks[i].mark == marks[j].mark
      {
        assert marks[i] == before[i];
        if j < n { assert marks[j] == before[j]; }
      }
    }
  }

  lemma SaysOnlyIs(p: Prepared, marks: seq<Entry>, key: string, mark: string)
    ensures SaysOnly(p, marks, key, mark) <==> forall other | Says(p, marks, key, other) :: other == mark
  {
    hide CurrentKey;
    if forall other | Says(p, marks, key, other) :: other == mark {
      forall i | 0 <= i < |marks| && CurrentKey(p.targets, marks[i].key) == key ensures marks[i].mark == mark {
        assert Says(p, marks, key, marks[i].mark);
      }
    }
  }

  /** The fold succeeds exactly where no two marks of one finding disagree, and then says of each finding what its marks say. */
  lemma {:induction false} MarksAre(p: Prepared, marks: seq<Entry>)
    ensures CurrentMarks(p, marks).Some? <==> Agree(p, marks)
    ensures Agree(p, marks) ==> forall key, mark ::
              MarkOf(CurrentMarks(p, marks).value, key) == Some(mark) <==> Says(p, marks, key, mark)
  {
    if marks != [] {
      var n := |marks| - 1;
      MarksAre(p, marks[..n]);
      AgreeMore(p, marks, n);
      var key := CurrentKey(p.targets, marks[n].key);
      SaysOnlyIs(p, marks[..n], key, marks[n].mark);
      hide CurrentKey, Says, SaysOnly, Agree;
      if Agree(p, marks[..n]) {
        var folded := CurrentMarks(p, marks[..n]).value;
        forall k, mark
          ensures Agree(p, marks) ==> (MarkOf(CurrentMarks(p, marks).value, k) == Some(mark) <==> Says(p, marks, k, mark))
        {
          SaysMore(p, marks, n, k, mark);
          MarkOfAdded(folded, Entry(key, marks[n].mark), k);
        }
      }
    }
  }

  ghost predicate Answered(p: Prepared, marks: seq<Entry>, key: string) {
    exists mark :: Says(p, marks, key, mark)
  }

  lemma SaysSome(p: Prepared, marks: seq<Entry>, key: string)
    requires Agree(p, marks)
    ensures CurrentMarks(p, marks).Some?
    ensures MarkOf(CurrentMarks(p, marks).value, key).Some? <==> Answered(p, marks, key)
  {
    hide Says, Agree;
    MarksAre(p, marks);
    var said := MarkOf(CurrentMarks(p, marks).value, key);
    if said.Some? { assert Says(p, marks, key, said.value); }
  }

  /** Every mark names a finding, no two marks of one finding disagree, and every finding has a mark. */
  ghost predicate Complete(p: Prepared, marks: seq<Entry>) {
    && (forall k | 0 <= k < |marks| :: NamesFinding(p, marks[k].key))
    && Agree(p, marks)
    && forall i | 0 <= i < |p.targets| :: Answered(p, marks, p.targets[i].key)
  }

  /**
   A sitting is recorded exactly where every mark names a finding of today, no
   two marks of one finding disagree, and every finding has a mark.
   */
  lemma RecordedWhen(d: Desk, p: Prepared, work: Progress)
    requires d.draft.Some?
    ensures Record(d, p, work).1 == Done <==> Complete(p, work.marks)
  {
    hide CurrentKey, IsKnown, CurrentMarks, Says, Agree, NamesFinding, Answered, MarkOf;
    forall k | 0 <= k < |work.marks| ensures IsKnown(p, work.marks[k].key) <==> NamesFinding(p, work.marks[k].key) {
      KnownIsCurrent(p, work.marks[k].key);
    }
    MarksAre(p, work.marks);
    if Agree(p, work.marks) {
      forall i | 0 <= i < |p.targets|
        ensures MarkOf(CurrentMarks(p, work.marks).value, p.targets[i].key).Some? <==> Answered(p, work.marks, p.targets[i].key)
      {
        SaysSome(p, work.marks, p.targets[i].key);
      }
    }
  }

  // ---- The draft of a merged sitting ----

  lemma {:induction false} KnownMarksAre(p: Prepared, marks: seq<Entry>, key: string)
    ensures MarkOf(KnownMarks(p, marks), key) == if IsKnown(p, key) then MarkOf(marks, key) else None
  {
    if marks != [] {
      var n := |marks| - 1;
      hide IsKnown;
      KnownMarksAre(p, marks[..n], key);
      assert marks == marks[..n] + [marks[n]];
      MarkOfAdded(marks[..n], marks[n], key);
      MarkOfAdded(KnownMarks(p, marks[..n]), marks[n], key);
      assert KnownMarks(p, marks[..n]) + [] == KnownMarks(p, marks[..n]);
    }
  }

  /** A draft opened on a merged sitting says of each finding of today what that sitting says, and nothing of any other. */
  lemma ResumedSaysTheSame(d: Desk, p: Prepared, key: string, mark: string)
    requires d.draft.None? && d.merged.Some? && Held(d, p).Some?
    ensures var draft, merged := Held(d, p).value.draft.value, d.merged.value;
            && draft.ownList == merged.ownList && draft.missing == merged.missing && !draft.finished && draft.pins == p.digests
            && (MarkOf(draft.marks, key) == Some(mark) <==> IsKnown(p, key) && Says(p, merged.marks, key, mark))
  {
    hide IsKnown, Says, Agree;
    MarksAre(p, d.merged.value.marks);
    KnownMarksAre(p, CurrentMarks(p, d.merged.value.marks).value, key);
  }

  // ---- The own list ----

  /** The items, one behind the other. */
  function Together(items: seq<string>): string {
    if items == [] then "" else Together(items[..|items| - 1]) + items[|items| - 1]
  }

  lemma {:induction false} TypedSnoc(items: seq<string>, item: string)
    ensures Typed(items + [item]) == Typed(items) + |item|
  {
    if items != [] {
      assert (items + [item])[1..] == items[1..] + [item];
      TypedSnoc(items[1..], item);
    } else {
      assert (items + [item])[1..] == [];
    }
  }

  /** How much a list says is how long its items are together. */
  lemma {:induction false} TypedIs(items: seq<string>)
    ensures Typed(items) == |Together(items)|
  {
    if items != [] {
      var n := |items| - 1;
      assert items == items[..n] + [items[n]];
      TypedIs(items[..n]);
      TypedSnoc(items[..n], items[n]);
    }
  }

  /** `kept` holds the items at the places `at`, in order and stripped, and at no other place is an item that is not blank. */
  ghost predicate KeptInOrder(items: seq<string>, kept: seq<string>, at: seq<nat>) {
    && |at| == |kept| && (forall j, k | 0 <= j < k < |at| :: at[j] < at[k])
    && (forall k | 0 <= k < |at| :: at[k] < |items| && kept[k] == Blanks.Strip(items[at[k]]) && kept[k] != "")
    && forall i: nat | i < |items| && i !in at :: Blanks.Strip(items[i]) == ""
  }

  lemma KeptMore(items: seq<string>, kept: seq<string>, at: seq<nat>, item: string)
    requires KeptInOrder(items, kept, at)
    ensures Blanks.Strip(item) == "" ==> KeptInOrder(items + [item], kept, at)
    ensures Blanks.Strip(item) != "" ==> KeptInOrder(items + [item], kept + [Blanks.Strip(item)], at + [|items|])
  {
    hide Blanks.Strip;
    assert forall i: nat | i < |items| :: (items + [item])[i] == items[i];
    assert forall i | i in at :: i in at + [|items|];
    assert |items| in at + [|items|];
  }

  /** The list that is kept holds the items that are not blank, in order, each without the blanks around it. */
  lemma {:induction false} WrittenInOrder(items: seq<string>) returns (at: seq<nat>)
    ensures KeptInOrder(items, Written(items), at)
  {
    at := [];
    if items != [] {
      var n := |items| - 1;
      hide KeptInOrder, Blanks.Strip;
      at := WrittenInOrder(items[..n]);
      KeptMore(items[..n], Written(items[..n]), at, items[n]);
      assert items[..n] + [items[n]] == items;
      assert Blanks.Strip(items[n]) == "" ==> Written(items[..n]) + [] == Written(items[..n]);
      if Blanks.Strip(items[n]) != "" { at := at + [n]; }
    }
  }

  /** The list that is kept: the items with something in them, without the blanks around them. */
  lemma {:induction false} WrittenAre(items: seq<string>, item: string)
    ensures item in Written(items) <==> item != "" && exists i | 0 <= i < |items| :: Blanks.Strip(items[i]) == item
  {
    if items != [] {
      var n := |items| - 1;
      WrittenAre(items[..n], item);
      assert forall i | 0 <= i < n :: items[..n][i] == items[i];
    }
  }
}
