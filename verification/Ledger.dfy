/** The merged sittings, reduced to one live sitting or one tie per case and signature. */
module Ledger {
  // ---- The order of strings ----

  predicate Less(a: string, b: string) {
    b != "" && (a == "" || a[0] < b[0] || (a[0] == b[0] && Less(a[1..], b[1..])))
  }

  /** Behind the same first `i` characters `a` ends, or has the smaller character. */
  predicate EarlierAt(a: string, b: string, i: nat) {
    i <= |a| && i < |b| && a[..i] == b[..i] && (i == |a| || a[i] < b[i])
  }

  ghost predicate Earlier(a: string, b: string) { exists i: nat :: EarlierAt(a, b, i) }

  lemma LessIs(a: string, b: string)
    ensures Less(a, b) <==> Earlier(a, b)
  {
    if Less(a, b) {
      var i := LessFrom(a, b);
    }
    if i: nat :| EarlierAt(a, b, i) {
      EarlierLess(a, b, i);
    }
  }

  lemma {:induction false} LessFrom(a: string, b: string) returns (i: nat)
    requires Less(a, b)
    ensures EarlierAt(a, b, i)
  {
    i := 0;
    if a != "" && a[0] == b[0] {
      i := LessFrom(a[1..], b[1..]);
      assert a[..i + 1] == [a[0]] + a[1..][..i] && b[..i + 1] == [b[0]] + b[1..][..i];
      i := i + 1;
    }
  }

  lemma {:induction false} EarlierLess(a: string, b: string, i: nat)
    requires EarlierAt(a, b, i)
    ensures Less(a, b)
  {
    if i > 0 {
      assert a[..i][0] == a[0] && b[..i][0] == b[0];
      assert a[..i][1..] == a[1..][..i - 1] && b[..i][1..] == b[1..][..i - 1];
      EarlierLess(a[1..], b[1..], i - 1);
    }
  }

  lemma {:induction false} LessTotal(a: string, b: string)
    ensures Less(a, b) || a == b || Less(b, a)
    ensures !(Less(a, b) && Less(b, a)) && (Less(a, b) ==> a != b)
  {
    if a != "" && b != "" && a[0] == b[0] {
      LessTotal(a[1..], b[1..]);
      assert a == [a[0]] + a[1..] && b == [b[0]] + b[1..];
    }
  }

  lemma {:induction false} LessTrans(a: string, b: string, c: string)
    requires Less(a, b) && Less(b, c)
    ensures Less(a, c)
  {
    if a != "" && a[0] == b[0] == c[0] { LessTrans(a[1..], b[1..], c[1..]); }
  }

  // ---- Reviews ----

  /** One case of one merged sitting. */
  datatype Review = Review(file: string, caseId: string, signature: string, generated: string, answers: string)

  datatype Key = Key(caseId: string, signature: string)

  function KeyOf(r: Review): Key { Key(r.caseId, r.signature) }

  /** What "later" means: the stamp decides, and the file name between two stamps that are one. */
  predicate Before(a: Review, b: Review) {
    Less(a.generated, b.generated) || (a.generated == b.generated && Less(a.file, b.file))
  }

  /** The same said of the stamps and the names. */
  ghost predicate Precedes(a: Review, b: Review) {
    Earlier(a.generated, b.generated) || (a.generated == b.generated && Earlier(a.file, b.file))
  }

  lemma BeforeIs(a: Review, b: Review)
    ensures Before(a, b) <==> Precedes(a, b)
  {
    LessIs(a.generated, b.generated);
    LessIs(a.file, b.file);
  }

  lemma BeforeTotal(a: Review, b: Review)
    ensures Before(a, b) || Before(b, a) || (a.generated == b.generated && a.file == b.file)
    ensures !(Before(a, b) && Before(b, a))
  {
    LessTotal(a.generated, b.generated);
    LessTotal(a.file, b.file);
  }

  lemma BeforeTrans(a: Review, b: Review, c: Review)
    requires Before(a, b) && Before(b, c)
    ensures Before(a, c)
  {
    if Less(a.generated, b.generated) && Less(b.generated, c.generated) {
      LessTrans(a.generated, b.generated, c.generated);
    } else if a.generated == b.generated == c.generated {
      LessTrans(a.file, b.file, c.file);
    }
  }

  // ---- One group ----

  function Held(reviews: seq<Review>, k: Key): seq<Review> {
    if reviews == [] then []
    else
      var n := |reviews| - 1;
      Held(reviews[..n], k) + (if KeyOf(reviews[n]) == k then [reviews[n]] else [])
  }

  function Newest(held: seq<Review>): string
    requires held != []
  {
    if |held| == 1 then held[0].generated
    else
      var n := |held| - 1;
      var before := Newest(held[..n]);
      if Less(before, held[n].generated) then held[n].generated else before
  }

  /** The reviews of a group with the given stamp. */
  function Stamped(held: seq<Review>, stamp: string): seq<Review> {
    if held == [] then []
    else
      var n := |held| - 1;
      Stamped(held[..n], stamp) + (if held[n].generated == stamp then [held[n]] else [])
  }

  /** The last review by the order of sittings. */
  function Latest(held: seq<Review>): Review
    requires held != []
  {
    if |held| == 1 then held[0]
    else
      var n := |held| - 1;
      if Before(Latest(held[..n]), held[n]) then held[n] else Latest(held[..n])
  }

  /** The sittings of a group that nothing orders; the source names their files. */
  datatype Tie = Tie(key: Key, generated: string, sittings: multiset<Review>)

  datatype Outcome = Live(review: Review) | Tied(tie: Tie)

  /** What a group comes to: its newest sitting, or the tie of those with its newest stamp. */
  function OutcomeOf(k: Key, held: seq<Review>): Outcome
    requires held != []
  {
    var tied := Stamped(held, Newest(held));
    if |tied| == 1 then Live(Latest(held)) else Tied(Tie(k, Newest(held), multiset(tied)))
  }

  // ---- All groups ----

  /** The keys in the order of their first reviews. */
  function Keys(reviews: seq<Review>): seq<Key> {
    if reviews == [] then []
    else
      var n := |reviews| - 1;
      var before := Keys(reviews[..n]);
      if KeyOf(reviews[n]) in before then before else before + [KeyOf(reviews[n])]
  }

  function LiveOf(reviews: seq<Review>, keys: seq<Key>): seq<Review> {
    if keys == [] then []
    else
      var n := |keys| - 1;
      var held := Held(reviews, keys[n]);
      LiveOf(reviews, keys[..n]) + (if held != [] && OutcomeOf(keys[n], held).Live? then [OutcomeOf(keys[n], held).review] else [])
  }

  function TiesOf(reviews: seq<Review>, keys: seq<Key>): seq<Tie> {
    if keys == [] then []
    else
      var n := |keys| - 1;
      var held := Held(reviews, keys[n]);
      TiesOf(reviews, keys[..n]) + (if held != [] && OutcomeOf(keys[n], held).Tied? then [OutcomeOf(keys[n], held).tie] else [])
  }

  lemma {:induction false} KeysAre(reviews: seq<Review>)
    ensures forall k :: k in Keys(reviews) <==> Held(reviews, k) != []
    ensures forall a, b | 0 <= a < b < |Keys(reviews)| :: Keys(reviews)[a] != Keys(reviews)[b]
  {
    if reviews != [] { KeysAre(reviews[..|reviews| - 1]); }
  }

  lemma {:induction false} HeldAre(reviews: seq<Review>, k: Key)
    ensures forall r :: r in Held(reviews, k) <==> r in reviews && KeyOf(r) == k
  {
    if reviews != [] {
      var n := |reviews| - 1;
      HeldAre(reviews[..n], k);
      assert reviews == reviews[..n] + [reviews[n]];
    }
  }

  lemma OneGroupMore(reviews: seq<Review>, keys: seq<Key>, i: nat)
    requires i < |keys| && Held(reviews, keys[i]) != []
    ensures var outcome := OutcomeOf(keys[i], Held(reviews, keys[i]));
            && LiveOf(reviews, keys[..i + 1]) == LiveOf(reviews, keys[..i]) + (if outcome.Live? then [outcome.review] else [])
            && TiesOf(reviews, keys[..i + 1]) == TiesOf(reviews, keys[..i]) + (if outcome.Tied? then [outcome.tie] else [])
  {
    hide OutcomeOf, Held;
    assert keys[..i + 1][..i] == keys[..i];
  }

  /** The grouping and the choice, as the source makes them. */
  method LiveSittings(reviews: seq<Review>) returns (live: seq<Review>, ties: seq<Tie>)
    ensures live == LiveOf(reviews, Keys(reviews)) && ties == TiesOf(reviews, Keys(reviews))
  {
    var keys, grouped := GroupReviews(reviews);
    KeysAre(reviews);
    live, ties := [], [];
    var i := 0;
    while i < |keys|
      invariant i <= |keys|
      invariant live == LiveOf(reviews, keys[..i]) && ties == TiesOf(reviews, keys[..i])
    {
      hide LiveOf, TiesOf, Held, Newest, Stamped, Latest, Keys;
      assert keys[i] in keys;
      OneGroupMore(reviews, keys, i);
      var held := grouped[keys[i]];
      var newest := MaxStamp(held);
      var tied := Stamped(held, newest);
      if |tied| == 1 {
        live := live + [Latest(held)];
      } else {
        ties := ties + [Tie(keys[i], newest, multiset(tied))];
      }
      i := i + 1;
    }
    assert keys[..i] == keys;
  }

  method MaxStamp(held: seq<Review>) returns (newest: string)
    requires held != []
    ensures newest == Newest(held)
  {
    newest := held[0].generated;
    var i := 1;
    while i < |held|
      invariant 1 <= i <= |held| && newest == Newest(held[..i])
    {
      assert held[..i + 1][..i] == held[..i];
      if Less(newest, held[i].generated) { newest := held[i].generated; }
      i := i + 1;
    }
    assert held[..i] == held;
  }

  method GroupReviews(reviews: seq<Review>) returns (keys: seq<Key>, grouped: map<Key, seq<Review>>)
    ensures keys == Keys(reviews) && forall k :: k in grouped <==> k in keys
    ensures forall k | k in grouped :: grouped[k] == Held(reviews, k)
  {
    keys, grouped := [], map[];
    var i := 0;
    while i < |reviews|
      invariant i <= |reviews| && keys == Keys(reviews[..i])
      invariant forall k :: k in grouped <==> k in keys
      invariant forall k | k in grouped :: grouped[k] == Held(reviews[..i], k)
    {
      assert reviews[..i + 1][..i] == reviews[..i];
      KeysAre(reviews[..i]);
      var k := KeyOf(reviews[i]);
      if k in grouped {
        grouped := grouped[k := grouped[k] + [reviews[i]]];
      } else {
        keys, grouped := keys + [k], grouped[k := [reviews[i]]];
      }
      i := i + 1;
    }
    assert reviews[..i] == reviews;
  }
}
