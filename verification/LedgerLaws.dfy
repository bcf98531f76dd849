/** What the live sittings and the ties are, in whatever order the files are read. */
module LedgerLaws {
  import opened Results
  import opened Ledger

  function Count(s: seq<Review>, r: Review): nat { multiset(s)[r] }

  /** Two lists that hold each sitting as often are one up to order. */
  lemma SameCounts(a: seq<Review>, b: seq<Review>)
    requires forall r :: Count(a, r) == Count(b, r)
    ensures multiset(a) == multiset(b)
  {
    assert forall r :: multiset(a)[r] == Count(a, r) && multiset(b)[r] == Count(b, r);
  }

  // ---- One group ----

  lemma {:induction false} NewestIs(held: seq<Review>)
    requires held != []
    ensures exists r | r in held :: r.generated == Newest(held)
    ensures forall r | r in held :: !Less(Newest(held), r.generated)
  {
    var n := |held| - 1;
    assert held == held[..n] + [held[n]];
    if |held| > 1 {
      NewestIs(held[..n]);
      var before, last := Newest(held[..n]), held[n].generated;
      LessTotal(before, last);
      if Less(before, last) {
        assert held[n] in held;
        LessTotal(last, last);
        forall r | r in held[..n] ensures !Less(last, r.generated) {
          if Less(last, r.generated) { LessTrans(before, last, r.generated); }
        }
      }
    } else {
      assert held[0] in held;
      LessTotal(held[0].generated, held[0].generated);
    }
  }

  lemma {:induction false} StampedAre(held: seq<Review>, stamp: string)
    ensures forall r :: Count(Stamped(held, stamp), r) == if r.generated == stamp then Count(held, r) else 0
    ensures forall r :: r in Stamped(held, stamp) <==> r in held && r.generated == stamp
  {
    if held != [] {
      var n := |held| - 1;
      StampedAre(held[..n], stamp);
      assert held == held[..n] + [held[n]];
    }
  }

  lemma {:induction false} LatestIs(held: seq<Review>)
    requires held != []
    ensures Latest(held) in held && forall r | r in held :: !Before(Latest(held), r)
  {
    var n := |held| - 1;
    assert held == held[..n] + [held[n]];
    BeforeTotal(held[n], held[n]);
    if |held| > 1 {
      LatestIs(held[..n]);
      var before, last := Latest(held[..n]), held[n];
      BeforeTotal(before, last);
      if Before(before, last) {
        forall r | r in held[..n] ensures !Before(last, r) {
          if Before(last, r) { BeforeTrans(before, last, r); }
        }
      }
    }
  }

  lemma LatestHasNewest(held: seq<Review>)
    requires held != []
    ensures Latest(held) in held && Latest(held).generated == Newest(held)
  {
    NewestIs(held);
    LatestIs(held);
    var r :| r in held && r.generated == Newest(held);
    hide Newest, Latest, Less;
    LessTotal(Latest(held).generated, r.generated);
  }

  lemma OneStamped(held: seq<Review>)
    requires held != [] && |Stamped(held, Newest(held))| == 1
    ensures Stamped(held, Newest(held)) == [Latest(held)]
  {
    LatestHasNewest(held);
    StampedAre(held, Newest(held));
    hide Newest, Stamped, Latest;
    assert Latest(held) in Stamped(held, Newest(held));
  }

  /** The strictly newest sitting of the group. */
  ghost predicate IsNewest(held: seq<Review>, r: Review) {
    r in held && Count(held, r) == 1 && forall q | q in held && q != r :: Earlier(q.generated, r.generated)
  }

  /** At least two sittings with the newest stamp of the group, and all of those. */
  ghost predicate IsTieOf(held: seq<Review>, t: Tie) {
    && |t.sittings| >= 2
    && (forall q | q in t.sittings :: q in held && q.generated == t.generated)
    && forall q | q in held && q !in t.sittings :: Earlier(q.generated, t.generated)
  }

  /** A group comes to its strictly newest sitting, or to a tie of at least two with its newest stamp. */
  lemma {:induction false} OutcomeIs(k: Key, held: seq<Review>)
    requires held != []
    ensures OutcomeOf(k, held).Live? ==> IsNewest(held, OutcomeOf(k, held).review)
    ensures OutcomeOf(k, held).Tied? ==> IsTieOf(held, OutcomeOf(k, held).tie) && OutcomeOf(k, held).tie.key == k
  {
    NewestIs(held);
    var tied := Stamped(held, Newest(held));
    StampedAre(held, Newest(held));
    forall q | q in held && q !in tied ensures Earlier(q.generated, Newest(held)) {
      LessTotal(q.generated, Newest(held));
      LessIs(q.generated, Newest(held));
    }
    if |tied| == 1 {
      OneStamped(held);
      var r := Latest(held);
      assert Count(held, r) == Count(tied, r) == multiset([r])[r] == 1;
    } else {
      var r :| r in held && r.generated == Newest(held);
      assert r in tied;
    }
  }

  /** What a group comes to does not depend on the order of its sittings. */
  lemma OutcomeOfAnyOrder(k: Key, a: seq<Review>, b: seq<Review>)
    requires a != [] && multiset(a) == multiset(b)
    ensures b != [] && OutcomeOf(k, a) == OutcomeOf(k, b)
  {
    SameElements(a, b);
    SameNewest(a, b);
    var s, t := Stamped(a, Newest(a)), Stamped(b, Newest(b));
    StampedAre(a, Newest(a));
    StampedAre(b, Newest(b));
    SameCounts(s, t) by { assert forall r :: Count(a, r) == Count(b, r); }
    assert |s| == |multiset(s)| == |multiset(t)| == |t|;
    if |s| == 1 {
      OneStamped(a);
      OneStamped(b);
      assert Latest(a) in multiset(t);
    }
  }

  ghost predicate SameMembers(a: seq<Review>, b: seq<Review>) { forall r :: r in a <==> r in b }

  lemma SameElements(a: seq<Review>, b: seq<Review>)
    requires a != [] && multiset(a) == multiset(b)
    ensures b != [] && SameMembers(a, b)
  {
    assert a[0] in multiset(b);
    assert forall r :: r in a <==> r in multiset(a);
    assert forall r :: r in b <==> r in multiset(b);
  }

  lemma SameNewest(a: seq<Review>, b: seq<Review>)
    requires a != [] && b != [] && SameMembers(a, b)
    ensures Newest(a) == Newest(b)
  {
    NewestIs(a);
    NewestIs(b);
    LessTotal(Newest(a), Newest(b));
    var r :| r in a && r.generated == Newest(a);
    var q :| q in b && q.generated == Newest(b);
  }

  // ---- All groups ----

  lemma {:induction false} HeldCount(reviews: seq<Review>, k: Key)
    ensures forall r :: Count(Held(reviews, k), r) == if KeyOf(r) == k then Count(reviews, r) else 0
  {
    if reviews != [] {
      var n := |reviews| - 1;
      HeldCount(reviews[..n], k);
      assert reviews == reviews[..n] + [reviews[n]];
    }
  }

  predicate ComesTo(reviews: seq<Review>, k: Key, outcome: Outcome) {
    Held(reviews, k) != [] && OutcomeOf(k, Held(reviews, k)) == outcome
  }

  lemma {:induction false} LiveStep(reviews: seq<Review>, keys: seq<Key>, r: Review)
    requires keys != []
    ensures r in LiveOf(reviews, keys) <==> r in LiveOf(reviews, keys[..|keys| - 1]) || ComesTo(reviews, keys[|keys| - 1], Live(r))
  {
  }

  ghost predicate SomeComesTo(reviews: seq<Review>, keys: seq<Key>, outcome: Outcome) {
    exists k | k in keys :: ComesTo(reviews, k, outcome)
  }

  lemma {:induction false} OneMoreKey(reviews: seq<Review>, keys: seq<Key>, outcome: Outcome)
    requires keys != []
    ensures var n := |keys| - 1;
            SomeComesTo(reviews, keys, outcome) <==> SomeComesTo(reviews, keys[..n], outcome) || ComesTo(reviews, keys[n], outcome)
  {
    var n := |keys| - 1;
    assert keys == keys[..n] + [keys[n]];
    assert keys[n] in keys && forall k | k in keys[..n] :: k in keys;
  }

  lemma {:induction false} InLive(reviews: seq<Review>, keys: seq<Key>, r: Review)
    ensures r in LiveOf(reviews, keys) <==> SomeComesTo(reviews, keys, Live(r))
  {
    if keys != [] {
      InLive(reviews, keys[..|keys| - 1], r);
      LiveStep(reviews, keys, r);
      OneMoreKey(reviews, keys, Live(r));
    }
  }

  lemma {:induction false} TieStep(reviews: seq<Review>, keys: seq<Key>, t: Tie)
    requires keys != []
    ensures t in TiesOf(reviews, keys) <==> t in TiesOf(reviews, keys[..|keys| - 1]) || ComesTo(reviews, keys[|keys| - 1], Tied(t))
  {
  }

  lemma {:induction false} InTies(reviews: seq<Review>, keys: seq<Key>, t: Tie)
    ensures t in TiesOf(reviews, keys) <==> SomeComesTo(reviews, keys, Tied(t))
  {
    if keys != [] {
      InTies(reviews, keys[..|keys| - 1], t);
      TieStep(reviews, keys, t);
      OneMoreKey(reviews, keys, Tied(t));
    }
  }

  function LiveSittingsOf(reviews: seq<Review>): seq<Review> { LiveOf(reviews, Keys(reviews)) }

  function AllTies(reviews: seq<Review>): seq<Tie> { TiesOf(reviews, Keys(reviews)) }

  /** A sitting is live exactly where it is what its own group comes to; a tie is what its key's group comes to. */
  lemma LiveIs(reviews: seq<Review>, r: Review)
    ensures r in LiveSittingsOf(reviews) <==> ComesTo(reviews, KeyOf(r), Live(r))
  {
    InLive(reviews, Keys(reviews), r);
    KeysAre(reviews);
    forall k | k in Keys(reviews) && ComesTo(reviews, k, Live(r)) ensures k == KeyOf(r) {
      OutcomeIs(k, Held(reviews, k));
      HeldAre(reviews, k);
    }
  }

  lemma TieIs(reviews: seq<Review>, t: Tie)
    ensures t in AllTies(reviews) <==> ComesTo(reviews, t.key, Tied(t))
  {
    InTies(reviews, Keys(reviews), t);
    KeysAre(reviews);
    forall k | k in Keys(reviews) && ComesTo(reviews, k, Tied(t)) ensures k == t.key {
      OutcomeIs(k, Held(reviews, k));
    }
  }

  /** Neither the live sittings nor the ties depend on the order in which the submissions are read. */
  lemma AnyOrder(a: seq<Review>, b: seq<Review>)
    requires multiset(a) == multiset(b)
    ensures forall r :: r in LiveSittingsOf(a) <==> r in LiveSittingsOf(b)
    ensures forall t :: t in AllTies(a) <==> t in AllTies(b)
  {
    forall r ensures r in LiveSittingsOf(a) <==> r in LiveSittingsOf(b) {
      LiveIs(a, r);
      LiveIs(b, r);
      SameOutcome(a, b, KeyOf(r));
    }
    forall t ensures t in AllTies(a) <==> t in AllTies(b) {
      TieIs(a, t);
      TieIs(b, t);
      SameOutcome(a, b, t.key);
    }
  }

  lemma SameOutcome(a: seq<Review>, b: seq<Review>, k: Key)
    requires multiset(a) == multiset(b)
    ensures Held(a, k) == [] <==> Held(b, k) == []
    ensures Held(a, k) != [] ==> OutcomeOf(k, Held(a, k)) == OutcomeOf(k, Held(b, k))
  {
    HeldCount(a, k);
    HeldCount(b, k);
    SameCounts(Held(a, k), Held(b, k)) by { assert forall r :: Count(a, r) == Count(b, r); }
    if Held(a, k) != [] {
      OutcomeOfAnyOrder(k, Held(a, k), Held(b, k));
    } else if Held(b, k) != [] {
      SameElements(Held(b, k), Held(a, k));
    }
  }

  /** Sittings of one case by one signature. */
  predicate SameGroup(q: Review, r: Review) { q.caseId == r.caseId && q.signature == r.signature }

  /**
   A sitting is live exactly where it is there once, and every other sitting of its
   case by its signature has an earlier stamp.
   */
  lemma LiveExactly(reviews: seq<Review>, r: Review)
    ensures r in LiveSittingsOf(reviews) <==>
              r in reviews && Count(reviews, r) == 1 && forall q | q in reviews && q != r && SameGroup(q, r) :: Earlier(q.generated, r.generated)
  {
    var k := KeyOf(r);
    var held := Held(reviews, k);
    LiveIs(reviews, r);
    HeldAre(reviews, k);
    HeldCount(reviews, k);
    if held != [] {
      OutcomeIs(k, held);
      if IsNewest(held, r) { NewestIsLive(k, held, r); }
    }
  }

  lemma NewestIsLive(k: Key, held: seq<Review>, r: Review)
    requires held != [] && IsNewest(held, r)
    ensures OutcomeOf(k, held) == Live(r)
  {
    OutcomeIs(k, held);
    match OutcomeOf(k, held)
    case Live(q) => if q != r { Asymmetric(q.generated, r.generated); }
    case Tied(t) =>
      StampedAre(held, Newest(held));
      NewestIs(held);
      var q :| q in held && q.generated == Newest(held);
      LessIs(Newest(held), r.generated);
      assert q == r;
      var tied := Stamped(held, Newest(held));
      forall p | p in tied ensures p == r { Asymmetric(p.generated, r.generated); }
      OnlyOne(tied, r);
  }

  lemma Asymmetric(a: string, b: string)
    ensures !(Earlier(a, b) && Earlier(b, a)) && !Earlier(a, a)
  {
    LessIs(a, b);
    LessIs(b, a);
    LessIs(a, a);
    LessTotal(a, b);
    LessTotal(a, a);
  }

  /** A list of one sitting alone that holds it once. */
  lemma {:induction false} OnlyOne(s: seq<Review>, r: Review)
    requires forall p | p in s :: p == r
    ensures |s| == Count(s, r)
  {
    if s != [] {
      var n := |s| - 1;
      assert s == s[..n] + [s[n]] && s[n] in s;
      assert forall p | p in s[..n] :: p in s;
      OnlyOne(s[..n], r);
    }
  }

  predicate InGroup(k: Key, q: Review) { q.caseId == k.caseId && q.signature == k.signature }

  /** At least two sittings: all of the group with the stamp, and every other sitting of the group has an earlier one. */
  ghost predicate TieOfStamp(reviews: seq<Review>, t: Tie) {
    && |t.sittings| >= 2
    && (forall q :: t.sittings[q] == if InGroup(t.key, q) && q.generated == t.generated then Count(reviews, q) else 0)
    && forall q | q in reviews && InGroup(t.key, q) && q.generated != t.generated :: Earlier(q.generated, t.generated)
  }

  /** The ties are exactly these. */
  lemma TiedExactly(reviews: seq<Review>, t: Tie)
    ensures t in AllTies(reviews) <==> TieOfStamp(reviews, t)
  {
    TieIs(reviews, t);
    HeldAre(reviews, t.key);
    HeldCount(reviews, t.key);
    if Held(reviews, t.key) != [] {
      if ComesTo(reviews, t.key, Tied(t)) { TieIsOfStamp(reviews, t); }
      if TieOfStamp(reviews, t) { StampIsTie(reviews, t); }
    }
  }

  lemma TieIsOfStamp(reviews: seq<Review>, t: Tie)
    requires ComesTo(reviews, t.key, Tied(t))
    ensures TieOfStamp(reviews, t)
  {
    var held := Held(reviews, t.key);
    var tied := Stamped(held, Newest(held));
    OutcomeIs(t.key, held);
    HeldAre(reviews, t.key);
    HeldCount(reviews, t.key);
    StampedAre(held, Newest(held));
    hide Held, Newest, Stamped, Latest, Less, Earlier;
    forall q ensures t.sittings[q] == if InGroup(t.key, q) && q.generated == t.generated then Count(reviews, q) else 0 {
      assert multiset(tied)[q] == Count(tied, q);
    }
    forall q | q in reviews && InGroup(t.key, q) && q.generated != t.generated ensures Earlier(q.generated, t.generated) {
      assert q in held;
    }
  }

  lemma StampIsTie(reviews: seq<Review>, t: Tie)
    requires TieOfStamp(reviews, t) && Held(reviews, t.key) != []
    ensures ComesTo(reviews, t.key, Tied(t))
  {
    var held := Held(reviews, t.key);
    HeldAre(reviews, t.key);
    HeldCount(reviews, t.key);
    var q :| q in t.sittings;
    assert Count(reviews, q) > 0 && q in held;
    NewestIsStamp(held, t.generated);
    StampedAre(held, t.generated);
    hide Held, Newest, Stamped, Latest, Less, Earlier;
    var tied := Stamped(held, t.generated);
    assert multiset(tied) == t.sittings by {
      forall p ensures multiset(tied)[p] == t.sittings[p] { assert multiset(tied)[p] == Count(tied, p); }
    }
    assert |tied| == |multiset(tied)|;
  }

  lemma NewestIsStamp(held: seq<Review>, stamp: string)
    requires held != [] && (exists q | q in held :: q.generated == stamp)
    requires forall q | q in held && q.generated != stamp :: Earlier(q.generated, stamp)
    ensures Newest(held) == stamp
  {
    NewestIs(held);
    var q :| q in held && q.generated == stamp;
    var p :| p in held && p.generated == Newest(held);
    if Newest(held) != stamp { LessIs(Newest(held), stamp); }
  }

  /** Each case and signature with a sitting has exactly one of a live sitting and a tie. */
  lemma LiveOrTied(reviews: seq<Review>, k: Key)
    requires Held(reviews, k) != []
    ensures (exists r | r in LiveSittingsOf(reviews) :: KeyOf(r) == k) <==> !(exists t | t in AllTies(reviews) :: t.key == k)
    ensures forall r, q | r in LiveSittingsOf(reviews) && q in LiveSittingsOf(reviews) && KeyOf(r) == k && KeyOf(q) == k :: r == q
  {
    HeldAre(reviews, k);
    OutcomeIs(k, Held(reviews, k));
    forall r ensures r in LiveSittingsOf(reviews) && KeyOf(r) == k <==> OutcomeOf(k, Held(reviews, k)) == Live(r) {
      LiveIs(reviews, r);
    }
    forall t: Tie | t.key == k ensures t in AllTies(reviews) <==> OutcomeOf(k, Held(reviews, k)) == Tied(t) {
      TieIs(reviews, t);
    }
    match OutcomeOf(k, Held(reviews, k))
    case Live(r) => assert r in LiveSittingsOf(reviews);
    case Tied(t) => assert t in AllTies(reviews);
  }

  // ---- One more sitting ----

  lemma HeldMore(reviews: seq<Review>, r: Review, k: Key)
    ensures Held(reviews + [r], k) == Held(reviews, k) + (if KeyOf(r) == k then [r] else [])
  {
    assert (reviews + [r])[..|reviews|] == reviews;
  }

  lemma NewestMore(held: seq<Review>, r: Review)
    ensures held == [] ==> Newest(held + [r]) == r.generated
    ensures held != [] ==> Newest(held + [r]) == if Less(Newest(held), r.generated) then r.generated else Newest(held)
    ensures held == [] ==> Latest(held + [r]) == r
    ensures held != [] ==> Latest(held + [r]) == if Before(Latest(held), r) then r else Latest(held)
    ensures forall stamp :: Stamped(held + [r], stamp) == Stamped(held, stamp) + (if r.generated == stamp then [r] else [])
  {
    assert (held + [r])[..|held|] == held;
  }

  /** A later sitting becomes live and dissolves a tie. */
  lemma LaterWins(reviews: seq<Review>, r: Review)
    requires forall q | q in reviews && SameGroup(q, r) :: Earlier(q.generated, r.generated)
    ensures r in LiveSittingsOf(reviews + [r]) && forall t | t in AllTies(reviews + [r]) :: !InGroup(t.key, r)
  {
    Asymmetric(r.generated, r.generated);
    if r in reviews { assert SameGroup(r, r); }
    LiveExactly(reviews + [r], r);
    LiveOrTied(reviews + [r], KeyOf(r)) by { LiveIs(reviews + [r], r); }
  }

  lemma EarlierTrans(a: string, b: string, c: string)
    requires Earlier(a, b) && Earlier(b, c)
    ensures Earlier(a, c)
  {
    LessIs(a, b);
    LessIs(b, c);
    LessIs(a, c);
    LessTrans(a, b, c);
  }

  /** A sitting with an earlier stamp than another of its group changes nothing. */
  lemma OlderChangesNothing(reviews: seq<Review>, r: Review, q: Review)
    requires q in reviews && SameGroup(q, r) && Earlier(r.generated, q.generated)
    ensures forall x :: x in LiveSittingsOf(reviews + [r]) <==> x in LiveSittingsOf(reviews)
    ensures forall t :: t in AllTies(reviews + [r]) <==> t in AllTies(reviews)
  {
    Asymmetric(r.generated, q.generated);
    hide LiveOf, TiesOf, Keys, Earlier;
    forall x ensures x in LiveSittingsOf(reviews + [r]) <==> x in LiveSittingsOf(reviews) {
      LiveExactly(reviews + [r], x);
      LiveExactly(reviews, x);
      if x in LiveSittingsOf(reviews) && SameGroup(r, x) && q != x { EarlierTrans(r.generated, q.generated, x.generated); }
    }
    forall t ensures t in AllTies(reviews + [r]) <==> t in AllTies(reviews) {
      TiedExactly(reviews + [r], t);
      TiedExactly(reviews, t);
      OlderInTie(reviews, r, q, t);
    }
  }

  lemma OlderInTie(reviews: seq<Review>, r: Review, q: Review, t: Tie)
    requires q in reviews && SameGroup(q, r) && Earlier(r.generated, q.generated)
    ensures TieOfStamp(reviews + [r], t) <==> TieOfStamp(reviews, t)
  {
    hide Earlier;
    if InGroup(t.key, r) {
      if (TieOfStamp(reviews + [r], t) || TieOfStamp(reviews, t)) && q.generated != t.generated {
        EarlierTrans(r.generated, q.generated, t.generated);
      }
      Asymmetric(r.generated, t.generated);
    }
    assert forall x :: Count(reviews + [r], x) == Count(reviews, x) + if x == r then 1 else 0;
  }

  lemma EqualInGroup(k: Key, held: seq<Review>, r: Review)
    requires held != [] && r.generated == Newest(held)
    ensures OutcomeOf(k, held + [r]).Tied? && r in OutcomeOf(k, held + [r]).tie.sittings
  {
    NewestMore(held, r);
    LessTotal(r.generated, Newest(held));
    NewestIs(held);
    StampedAre(held, Newest(held));
    var q :| q in held && q.generated == Newest(held);
    assert q in Stamped(held, Newest(held));
  }

  /** A sitting with the newest stamp of its group takes the others out: the group is a tie of them. */
  lemma EqualStampTies(reviews: seq<Review>, r: Review)
    requires exists q | q in reviews :: SameGroup(q, r) && q.generated == r.generated
    requires forall q | q in reviews && SameGroup(q, r) && q.generated != r.generated :: Earlier(q.generated, r.generated)
    ensures (exists t | t in AllTies(reviews + [r]) :: InGroup(t.key, r) && r in t.sittings)
    ensures forall q | q in LiveSittingsOf(reviews + [r]) :: !SameGroup(q, r)
  {
    var k, held := KeyOf(r), Held(reviews, KeyOf(r));
    HeldAre(reviews, k);
    HeldMore(reviews, r, k);
    NewestIsStamp(held, r.generated);
    EqualInGroup(k, held, r);
    hide Newest, Stamped, Latest, Less, Held, Earlier;
    var tie := OutcomeOf(k, held + [r]).tie;
    OutcomeIs(k, held + [r]);
    TieIs(reviews + [r], tie);
    forall p | p in LiveSittingsOf(reviews + [r]) ensures !SameGroup(p, r) { LiveIs(reviews + [r], p); }
  }
}
