/** Which sitting covers each framework of each case, and what the rail and the gate read off it. */
module ReviewCoverage {
  import opened Results
  import opened Filters
  import opened Ledger
  import opened LedgerLaws

  /**
   What the corpus answers: its cases, whether the files of a case load, the
   frameworks a case declares (none where it cannot be prepared), whether a sitting
   still stands against the files, and the frameworks it read (none where the case
   cannot be prepared).
   */
  datatype Corpus = Corpus(
    cases: seq<string>,
    loads: string -> bool,
    declared: string -> seq<string>,
    stands: Review -> bool,
    covers: Review -> seq<string>)

  type Covered = map<string, map<string, Review>>

  function InOrder(sorted: seq<Review>, r: Review): seq<Review> {
    if sorted == [] || Before(r, sorted[0]) then [r] + sorted else [sorted[0]] + InOrder(sorted[1..], r)
  }

  function SortedByOrder(reviews: seq<Review>): seq<Review> {
    if reviews == [] then [] else InOrder(SortedByOrder(reviews[..|reviews| - 1]), reviews[|reviews| - 1])
  }

  function Put(covered: Covered, r: Review, framework: string): Covered {
    var have := if r.caseId in covered then covered[r.caseId] else map[];
    covered[r.caseId := have[framework := r]]
  }

  function PutAll(covered: Covered, r: Review, frameworks: seq<string>): Covered {
    if frameworks == [] then covered
    else Put(PutAll(covered, r, frameworks[..|frameworks| - 1]), r, frameworks[|frameworks| - 1])
  }

  /** Later sittings over earlier ones, each over the frameworks it read. */
  function Cover(c: Corpus, sorted: seq<Review>): Covered {
    if sorted == [] then map[]
    else
      var n := |sorted| - 1;
      if c.stands(sorted[n]) then PutAll(Cover(c, sorted[..n]), sorted[n], c.covers(sorted[n])) else Cover(c, sorted[..n])
  }

  function Current(c: Corpus, reviews: seq<Review>): Covered {
    Cover(c, SortedByOrder(LiveSittingsOf(reviews)))
  }

  method CurrentReviews(c: Corpus, reviews: seq<Review>) returns (covered: Covered)
    ensures covered == Current(c, reviews) && Nonempty(covered)
  {
    var live, _ := LiveSittings(reviews);
    var sorted := SortedByOrder(live);
    covered := map[];
    var i := 0;
    while i < |sorted|
      invariant i <= |sorted| && covered == Cover(c, sorted[..i])
    {
      assert sorted[..i + 1][..i] == sorted[..i];
      var review := sorted[i];
      i := i + 1;
      if !c.stands(review) { continue; }
      var frameworks, f := c.covers(review), 0;
      ghost var before := covered;
      while f < |frameworks|
        invariant f <= |frameworks| && covered == PutAll(before, review, frameworks[..f])
      {
        assert frameworks[..f + 1][..f] == frameworks[..f];
        covered := Put(covered, review, frameworks[f]);
        f := f + 1;
      }
      assert frameworks[..f] == frameworks;
    }
    assert sorted[..i] == sorted;
    hide Cover, PutAll, SortedByOrder, LiveOf, Keys;
    CoverNonempty(c, sorted);
  }

  // ---- What the fold is ----

  function Lookup(covered: Covered, caseId: string, framework: string): Option<Review> {
    if caseId in covered && framework in covered[caseId] then Some(covered[caseId][framework]) else None
  }

  /** The sitting stands and read this framework of this case. */
  predicate Covers(c: Corpus, r: Review, caseId: string, framework: string) {
    r.caseId == caseId && c.stands(r) && framework in c.covers(r)
  }

  lemma PutIs(covered: Covered, r: Review, f: string, caseId: string, framework: string)
    ensures Lookup(Put(covered, r, f), caseId, framework) ==
            if r.caseId == caseId && framework == f then Some(r) else Lookup(covered, caseId, framework)
    ensures caseId in Put(covered, r, f) <==> caseId in covered || r.caseId == caseId
  {
  }

  lemma {:induction false} PutAllIs(covered: Covered, r: Review, frameworks: seq<string>, caseId: string, framework: string)
    ensures Lookup(PutAll(covered, r, frameworks), caseId, framework) ==
            if r.caseId == caseId && framework in frameworks then Some(r) else Lookup(covered, caseId, framework)
    ensures caseId in PutAll(covered, r, frameworks) <==> caseId in covered || (r.caseId == caseId && frameworks != [])
  {
    if frameworks != [] {
      var n := |frameworks| - 1;
      PutAllIs(covered, r, frameworks[..n], caseId, framework);
      PutIs(PutAll(covered, r, frameworks[..n]), r, frameworks[n], caseId, framework);
      hide Lookup, Put;
      assert frameworks == frameworks[..n] + [frameworks[n]];
    }
  }

  /** The last sitting of the list that covers the framework. */
  lemma {:induction false} CoverIs(c: Corpus, sorted: seq<Review>, caseId: string, framework: string)
    ensures match Lookup(Cover(c, sorted), caseId, framework)
            case None => forall i | 0 <= i < |sorted| :: !Covers(c, sorted[i], caseId, framework)
            case Some(_) => exists i | 0 <= i < |sorted| ::
              && sorted[i] == Lookup(Cover(c, sorted), caseId, framework).value && Covers(c, sorted[i], caseId, framework)
              && forall j | i < j < |sorted| :: !Covers(c, sorted[j], caseId, framework)
  {
    if sorted != [] {
      var n := |sorted| - 1;
      CoverIs(c, sorted[..n], caseId, framework);
      PutAllIs(Cover(c, sorted[..n]), sorted[n], c.covers(sorted[n]), caseId, framework);
      if Covers(c, sorted[n], caseId, framework) {
        assert sorted[n] == Lookup(Cover(c, sorted), caseId, framework).value;
      } else {
        assert Lookup(Cover(c, sorted), caseId, framework) == Lookup(Cover(c, sorted[..n]), caseId, framework);
        assert forall i | 0 <= i < n :: sorted[i] == sorted[..n][i];
      }
    }
  }

  ghost predicate Ordered(s: seq<Review>) { forall i, j | 0 <= i < j < |s| :: !Before(s[j], s[i]) }

  lemma {:induction false} InOrderIs(s: seq<Review>, r: Review)
    requires Ordered(s)
    ensures Ordered(InOrder(s, r)) && multiset(InOrder(s, r)) == multiset(s) + multiset{r}
  {
    BeforeTotal(r, r);
    if s == [] {
    } else if Before(r, s[0]) {
      InFront(s, r);
    } else {
      assert s == [s[0]] + s[1..];
      InOrderIs(s[1..], r);
      Behind(s, r);
    }
  }

  lemma InFront(s: seq<Review>, r: Review)
    requires Ordered(s) && s != [] && Before(r, s[0])
    ensures Ordered([r] + s) && multiset([r] + s) == multiset(s) + multiset{r}
  {
    forall j | 0 <= j < |s| ensures !Before(s[j], r) {
      if Before(s[j], r) {
        BeforeTrans(s[j], r, s[0]);
        BeforeTotal(s[0], s[0]);
      }
    }
  }

  lemma Behind(s: seq<Review>, r: Review)
    requires Ordered(s) && s != [] && !Before(r, s[0])
    requires Ordered(InOrder(s[1..], r)) && multiset(InOrder(s[1..], r)) == multiset(s[1..]) + multiset{r}
    ensures Ordered([s[0]] + InOrder(s[1..], r))
  {
    var rest := InOrder(s[1..], r);
    forall j | 0 <= j < |rest| ensures !Before(rest[j], s[0]) {
      assert rest[j] in multiset(rest);
      if rest[j] != r {
        assert rest[j] in s[1..];
        var k :| 0 <= k < |s[1..]| && s[1..][k] == rest[j];
        assert s[k + 1] == rest[j];
      }
    }
  }

  lemma {:induction false} SortIs(s: seq<Review>)
    ensures Ordered(SortedByOrder(s)) && multiset(SortedByOrder(s)) == multiset(s)
  {
    if s != [] {
      var n := |s| - 1;
      SortIs(s[..n]);
      InOrderIs(SortedByOrder(s[..n]), s[n]);
      assert s == s[..n] + [s[n]];
    }
  }

  /** One file holds one sitting of a case. */
  ghost predicate OneSittingAFile(reviews: seq<Review>) {
    forall a, b | a in reviews && b in reviews && a.file == b.file && a.caseId == b.caseId :: a == b
  }

  /** The live sitting that stands, read the framework, and is the last of those by stamp and file name. */
  ghost predicate IsCurrent(c: Corpus, reviews: seq<Review>, caseId: string, framework: string, r: Review) {
    && r in LiveSittingsOf(reviews) && Covers(c, r, caseId, framework)
    && forall q | q in LiveSittingsOf(reviews) && Covers(c, q, caseId, framework) && q != r :: Precedes(q, r)
  }

  lemma LiveIsReview(reviews: seq<Review>, r: Review)
    requires r in LiveSittingsOf(reviews)
    ensures r in reviews
  {
    LiveIs(reviews, r);
    OutcomeIs(KeyOf(r), Held(reviews, KeyOf(r)));
    HeldAre(reviews, KeyOf(r));
  }

  /** The fold gives each case and framework its current sitting, and nothing where none stands. */
  lemma CurrentIsMaximum(c: Corpus, reviews: seq<Review>, caseId: string, framework: string)
    requires OneSittingAFile(reviews)
    ensures match Lookup(Current(c, reviews), caseId, framework)
            case Some(r) => IsCurrent(c, reviews, caseId, framework, r)
            case None => forall r | r in LiveSittingsOf(reviews) :: !Covers(c, r, caseId, framework)
  {
    var live := LiveSittingsOf(reviews);
    var sorted := SortedByOrder(live);
    SortIs(live);
    CoverIs(c, sorted, caseId, framework);
    SameMembersSorted(live, sorted);
    hide Cover, SortedByOrder, Covers, LiveOf, Keys;
    var found := Lookup(Cover(c, sorted), caseId, framework);
    if found.Some? {
      var i :| 0 <= i < |sorted| && sorted[i] == found.value && Covers(c, sorted[i], caseId, framework)
               && forall j | i < j < |sorted| :: !Covers(c, sorted[j], caseId, framework);
      forall q | q in live && Covers(c, q, caseId, framework) && q != sorted[i] ensures Precedes(q, sorted[i]) {
        LastIsMaximum(c, reviews, sorted, i, q, caseId, framework);
        BeforeIs(q, sorted[i]);
      }
    } else {
      forall r | r in live ensures !Covers(c, r, caseId, framework) {
        var j :| 0 <= j < |sorted| && sorted[j] == r;
      }
    }
  }

  lemma SameMembersSorted(a: seq<Review>, b: seq<Review>)
    requires multiset(a) == multiset(b)
    ensures forall r :: r in a <==> r in b
  {
    assert forall r :: r in a <==> r in multiset(a);
    assert forall r :: r in b <==> r in multiset(b);
  }

  lemma LastIsMaximum(c: Corpus, reviews: seq<Review>, sorted: seq<Review>, i: nat, q: Review, caseId: string, framework: string)
    requires OneSittingAFile(reviews) && Ordered(sorted) && i < |sorted| && q in sorted && q != sorted[i]
    requires q in LiveSittingsOf(reviews) && sorted[i] in LiveSittingsOf(reviews)
    requires Covers(c, q, caseId, framework) && Covers(c, sorted[i], caseId, framework)
    requires forall j | i < j < |sorted| :: !Covers(c, sorted[j], caseId, framework)
    ensures Before(q, sorted[i])
  {
    var j :| 0 <= j < |sorted| && sorted[j] == q;
    BeforeTotal(q, sorted[i]);
    LiveIsReview(reviews, q);
    LiveIsReview(reviews, sorted[i]);
    assert j <= i;
  }

  // ---- The rail and the gate ----

  function WaitingIn(names: seq<string>, have: map<string, Review>): seq<string> {
    if names == [] then []
    else (if names[0] in have then [] else [names[0]]) + WaitingIn(names[1..], have)
  }

  /** The frameworks of a case that no current sitting covers. */
  function Waiting(c: Corpus, covered: Covered, caseId: string): seq<string> {
    WaitingIn(c.declared(caseId), if caseId in covered then covered[caseId] else map[])
  }

  /** The places of the waiting frameworks among those that the case declares: exactly where no current sitting covers one, in order. */
  lemma WaitingAre(c: Corpus, covered: Covered, caseId: string) returns (at: seq<nat>)
    ensures |at| == |Waiting(c, covered, caseId)| && forall j, k | 0 <= j < k < |at| :: at[j] < at[k]
    ensures forall k | 0 <= k < |at| :: at[k] < |c.declared(caseId)| && Waiting(c, covered, caseId)[k] == c.declared(caseId)[at[k]]
    ensures forall i: nat | i < |c.declared(caseId)| :: i in at <==> Lookup(covered, caseId, c.declared(caseId)[i]).None?
  {
    at := PlacesOf(c.declared(caseId), if caseId in covered then covered[caseId] else map[], 0);
  }

  lemma {:induction false} PlacesOf(names: seq<string>, have: map<string, Review>, from: nat) returns (at: seq<nat>)
    requires from <= |names|
    ensures |at| == |WaitingIn(names[from..], have)| && forall j, k | 0 <= j < k < |at| :: at[j] < at[k]
    ensures forall k | 0 <= k < |at| :: from <= at[k] < |names| && WaitingIn(names[from..], have)[k] == names[at[k]]
    ensures forall i: nat | from <= i < |names| :: i in at <==> names[i] !in have
    decreases |names| - from
  {
    at := [];
    if from < |names| {
      assert names[from..][1..] == names[from + 1..];
      at := PlacesOf(names, have, from + 1);
      if names[from] !in have { at := [from] + at; }
    }
  }

  method Last(reviews: map<string, Review>) returns (newest: Review)
    requires reviews != map[]
    ensures exists f | f in reviews :: newest == reviews[f]
    ensures forall f | f in reviews :: !Precedes(newest, reviews[f])
  {
    var first :| first in reviews;
    newest := reviews[first];
    BeforeTotal(newest, newest);
    var todo := reviews.Keys - {first};
    while todo != {}
      invariant todo <= reviews.Keys && exists f | f in reviews :: newest == reviews[f]
      invariant forall f | f in reviews && f !in todo :: !Before(newest, reviews[f])
    {
      var f :| f in todo;
      todo := todo - {f};
      if Before(newest, reviews[f]) {
        forall g | g in reviews && g !in todo ensures !Before(reviews[f], reviews[g]) {
          BeforeTotal(reviews[f], reviews[f]);
          if g != f && Before(reviews[f], reviews[g]) { BeforeTrans(newest, reviews[f], reviews[g]); }
        }
        newest := reviews[f];
      }
    }
    forall f | f in reviews ensures !Precedes(newest, reviews[f]) { BeforeIs(newest, reviews[f]); }
  }

  /** Every case a sitting covers has something in its entry. */
  ghost predicate Nonempty(covered: Covered) { forall caseId | caseId in covered :: covered[caseId] != map[] }

  lemma {:induction false} CoverNonempty(c: Corpus, sorted: seq<Review>)
    ensures Nonempty(Cover(c, sorted))
  {
    if sorted != [] {
      var n := |sorted| - 1;
      CoverNonempty(c, sorted[..n]);
      PutNonempty(Cover(c, sorted[..n]), sorted[n], c.covers(sorted[n]));
    }
  }

  lemma {:induction false} PutNonempty(covered: Covered, r: Review, frameworks: seq<string>)
    requires Nonempty(covered)
    ensures Nonempty(PutAll(covered, r, frameworks))
  {
    if frameworks != [] {
      var n := |frameworks| - 1;
      PutNonempty(covered, r, frameworks[..n]);
      var before := PutAll(covered, r, frameworks[..n]);
      var have := if r.caseId in before then before[r.caseId] else map[];
      assert frameworks[n] in have[frameworks[n] := r];
    }
  }

  /** The signature over a case: that of the newest sitting that covers a part of it. */
  ghost predicate SignedBy(covered: Covered, caseId: string, signature: string) {
    caseId in covered && exists f | f in covered[caseId] ::
      covered[caseId][f].signature == signature && forall g | g in covered[caseId] :: !Precedes(covered[caseId][f], covered[caseId][g])
  }

  /** Who cleared each fully covered case, and what each partly covered case waits for. */
  method RailSignatures(c: Corpus, covered: Covered) returns (signed: map<string, string>, partial: map<string, seq<string>>)
    requires Nonempty(covered)
    ensures signed.Keys == set caseId | caseId in covered && Waiting(c, covered, caseId) == []
    ensures partial.Keys == set caseId | caseId in covered && Waiting(c, covered, caseId) != []
    ensures forall caseId | caseId in signed :: SignedBy(covered, caseId, signed[caseId])
    ensures forall caseId | caseId in partial :: partial[caseId] == Waiting(c, covered, caseId)
  {
    signed, partial := map[], map[];
    var todo := covered.Keys;
    while todo != {}
      invariant todo <= covered.Keys
      invariant signed.Keys == set caseId | caseId in covered && caseId !in todo && Waiting(c, covered, caseId) == []
      invariant partial.Keys == set caseId | caseId in covered && caseId !in todo && Waiting(c, covered, caseId) != []
      invariant forall caseId | caseId in signed :: SignedBy(covered, caseId, signed[caseId])
      invariant forall caseId | caseId in partial :: partial[caseId] == Waiting(c, covered, caseId)
    {
      var caseId :| caseId in todo;
      todo := todo - {caseId};
      var left := Waiting(c, covered, caseId);
      if left != [] {
        partial := partial[caseId := left];
      } else {
        var newest := Last(covered[caseId]);
        signed := signed[caseId := newest.signature];
      }
    }
  }

  function UnreviewedFrom(c: Corpus, covered: Covered, cases: seq<string>): seq<string> {
    if cases == [] then []
    else (if Waiting(c, covered, cases[0]) != [] then [cases[0]] else []) + UnreviewedFrom(c, covered, cases[1..])
  }

  datatype CorpusError = NoCases | Unloadable(caseId: string)

  function FirstUnloadable(c: Corpus, cases: seq<string>): Option<string> {
    if cases == [] then None
    else if !c.loads(cases[0]) then Some(cases[0])
    else FirstUnloadable(c, cases[1..])
  }

  /** The cases that no merged sitting clears, in corpus order, or the corpus error of the first case that does not load. */
  function Unreviewed(c: Corpus, covered: Covered): Result<seq<string>, CorpusError> {
    if FirstUnloadable(c, c.cases).Some? then Err(Unloadable(FirstUnloadable(c, c.cases).value))
    else if c.cases == [] then Err(NoCases)
    else Ok(UnreviewedFrom(c, covered, c.cases))
  }

  lemma {:induction false} UnloadableIs(c: Corpus, cases: seq<string>)
    ensures FirstUnloadable(c, cases).None? <==> forall id | id in cases :: c.loads(id)
  {
    if cases != [] {
      assert cases == [cases[0]] + cases[1..];
      UnloadableIs(c, cases[1..]);
    }
  }

  /** The gate reports the first case that does not load, or a corpus without a case; otherwise it answers. */
  lemma GateFailsFor(c: Corpus, covered: Covered)
    ensures match Unreviewed(c, covered)
            case Ok(_) => c.cases != [] && forall id | id in c.cases :: c.loads(id)
            case Err(NoCases) => c.cases == []
            case Err(Unloadable(id)) =>
              exists i | 0 <= i < |c.cases| :: c.cases[i] == id && !c.loads(id) && forall k | 0 <= k < i :: c.loads(c.cases[k])
  {
    UnloadableIs(c, c.cases);
    if FirstUnloadable(c, c.cases).Some? {
      var i := FirstOne(c, c.cases, 0);
    }
  }

  lemma {:induction false} FirstOne(c: Corpus, cases: seq<string>, from: nat) returns (i: nat)
    requires from <= |cases| && FirstUnloadable(c, cases[from..]).Some?
    ensures from <= i < |cases| && FirstUnloadable(c, cases[from..]) == Some(cases[i]) && !c.loads(cases[i])
    ensures forall k | from <= k < i :: c.loads(cases[k])
    decreases |cases| - from
  {
    i := from;
    if c.loads(cases[from]) {
      assert cases[from..][1..] == cases[from + 1..];
      i := FirstOne(c, cases, from + 1);
    }
  }

  lemma {:induction false} UnreviewedAt(c: Corpus, covered: Covered, cases: seq<string>, n: nat) returns (at: seq<nat>)
    requires n <= |cases|
    ensures Picks(cases, (id: string) => Waiting(c, covered, id) != [], n, UnreviewedFrom(c, covered, cases[n..]), at)
    decreases |cases| - n
  {
    at := [];
    if n < |cases| {
      assert cases[n..][0] == cases[n] && cases[n..][1..] == cases[n + 1..];
      var waits := (id: string) => Waiting(c, covered, id) != [];
      var list := UnreviewedFrom(c, covered, cases[n + 1..]);
      assert UnreviewedFrom(c, covered, cases[n..]) == (if waits(cases[n]) then [cases[n]] else []) + list;
      assert [] + list == list;
      hide Waiting, UnreviewedFrom, Picks;
      at := UnreviewedAt(c, covered, cases, n + 1);
      PicksOneMore(cases, waits, n, list, at);
      if waits(cases[n]) { at := [n] + at; }
    }
  }

  /** The gate's list holds the cases that declare a framework no current sitting covers, in corpus order. */
  lemma GateListsInOrder(c: Corpus, covered: Covered) returns (at: seq<nat>)
    requires Unreviewed(c, covered).Ok?
    ensures var list := Unreviewed(c, covered).value;
            && |at| == |list| && (forall j, k | 0 <= j < k < |at| :: at[j] < at[k])
            && (forall k | 0 <= k < |at| :: at[k] < |c.cases| && list[k] == c.cases[at[k]])
            && forall i: nat | i < |c.cases| ::
                 i in at <==> exists name | name in c.declared(c.cases[i]) :: Lookup(covered, c.cases[i], name).None?
  {
    assert c.cases[0..] == c.cases;
    at := UnreviewedAt(c, covered, c.cases, 0);
    forall i: nat | i < |c.cases|
      ensures Waiting(c, covered, c.cases[i]) != [] <==> exists name | name in c.declared(c.cases[i]) :: Lookup(covered, c.cases[i], name).None?
    {
      WaitingIs(c.declared(c.cases[i]), if c.cases[i] in covered then covered[c.cases[i]] else map[]);
    }
  }

  predicate IsSigned(c: Corpus, covered: Covered, caseId: string) {
    caseId in covered && Waiting(c, covered, caseId) == []
  }

  lemma {:induction false} UnreviewedIs(c: Corpus, covered: Covered, cases: seq<string>, caseId: string)
    ensures caseId in UnreviewedFrom(c, covered, cases) <==> caseId in cases && Waiting(c, covered, caseId) != []
  {
    if cases != [] {
      assert cases == [cases[0]] + cases[1..];
      UnreviewedIs(c, covered, cases[1..], caseId);
    }
  }

  lemma {:induction false} WaitingIs(names: seq<string>, have: map<string, Review>)
    ensures WaitingIn(names, have) == [] <==> forall name | name in names :: name in have
  {
    if names != [] {
      assert names == [names[0]] + names[1..];
      WaitingIs(names[1..], have);
    }
  }

  /**
   The gate answers exactly where every case of the corpus loads. The rail and the
   gate then agree on a case exactly where it declares a framework or a sitting
   covers a part of it: a case that loads and cannot be prepared declares none, and
   the gate lists no work for it. A partly covered case is always unreviewed, and a
   reviewed one has every framework covered.
   */
  lemma RailAndGateAgree(c: Corpus, covered: Covered, caseId: string)
    requires Nonempty(covered) && caseId in c.cases
    ensures Unreviewed(c, covered).Ok? <==> forall id | id in c.cases :: c.loads(id)
    ensures Unreviewed(c, covered).Ok? ==>
              var unreviewed := Unreviewed(c, covered).value;
              && ((IsSigned(c, covered, caseId) <==> caseId !in unreviewed) <==> c.declared(caseId) != [] || caseId in covered)
              && (caseId in covered && !IsSigned(c, covered, caseId) ==> caseId in unreviewed)
              && (caseId !in unreviewed <==> forall name | name in c.declared(caseId) :: Lookup(covered, caseId, name).Some?)
  {
    UnloadableIs(c, c.cases);
    UnreviewedIs(c, covered, c.cases, caseId);
    var have := if caseId in covered then covered[caseId] else map[];
    WaitingIs(c.declared(caseId), have);
    if c.declared(caseId) != [] { assert c.declared(caseId)[0] in c.declared(caseId); }
  }

  /**
   A case that loads and cannot be prepared, for example one with a claim that no
   key can be made of: no sitting covers it, the rail does not sign it, and the gate
   lists no work for it.
   */
  lemma UnpreparedCaseIsNeither(c: Corpus, reviews: seq<Review>, caseId: string)
    requires caseId in c.cases && forall id | id in c.cases :: c.loads(id)
    requires c.declared(caseId) == [] && forall r | r in LiveSittingsOf(reviews) && r.caseId == caseId :: c.covers(r) == []
    ensures var covered := Current(c, reviews);
            && caseId !in covered && !IsSigned(c, covered, caseId)
            && Unreviewed(c, covered).Ok? && caseId !in Unreviewed(c, covered).value
  {
    var live := LiveSittingsOf(reviews);
    var sorted := SortedByOrder(live);
    var covered := Current(c, reviews);
    SortIs(live);
    SameMembersSorted(live, sorted);
    CoverNonempty(c, sorted);
    RailAndGateAgree(c, covered, caseId);
    hide Cover, SortedByOrder, LiveOf, Keys, Unreviewed;
    forall framework ensures Lookup(covered, caseId, framework).None? {
      CoverIs(c, sorted, caseId, framework);
    }
    EntryHasReview(covered, caseId);
  }

  lemma EntryHasReview(covered: Covered, caseId: string)
    requires Nonempty(covered)
    ensures caseId in covered ==> exists framework :: Lookup(covered, caseId, framework).Some?
  {
    if caseId in covered {
      var framework :| framework in covered[caseId];
      assert Lookup(covered, caseId, framework).Some?;
    }
  }
}
