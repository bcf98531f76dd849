/** When a second rendering changes nothing, for every document, and when every rendering adds to the one before. */
module IncludeSettles {
  import opened Results
  import opened IncludeSync
  import opened IncludeProofs
  import opened IncludeRun

  // ---- What stays behind ----

  /** No include opens in `body` behind its first closing fence. */
  predicate LeavesNoOpen(x: Syntax, body: string) {
    forall k | Find(x.close, body, 0) + |x.close| <= k <= |body| :: !At(body, k, x.open)
  }

  /** No text that the document pulls in opens an include behind its first closing fence. */
  ghost predicate NothingOpens(r: Repo, doc: string) {
    forall p | p in Scan(r.marks, doc) && p.Include? && Extract(r, p.source, p.region).Ok? ::
      LeavesNoOpen(r.marks, WithNewline(Extract(r, p.source, p.region).value))
  }

  function Plains(s: string): seq<Piece> {
    seq(|s|, i requires 0 <= i < |s| => Plain(s[i]))
  }

  /** What the cut leaves of a printed include: the body behind its first closing fence, and the printed fence. */
  function Rest(x: Syntax, body: string): string
    requires !Clean(x, body)
  {
    body[Find(x.close, body, 0) + |x.close|..] + x.close
  }

  function Part(x: Syntax, p: Piece): Piece
    requires p.Include?
  {
    p.(body := p.body[..Find(x.close, p.body, 0)])
  }

  /** The pieces that one printed piece scans as. */
  function Cuts(x: Syntax, p: Piece): seq<Piece> {
    if p.Plain? || Clean(x, p.body) then [p] else [Part(x, p)] + Plains(Rest(x, p.body))
  }

  function AllCuts(x: Syntax, pieces: seq<Piece>): seq<Piece> {
    if pieces == [] then [] else Cuts(x, pieces[0]) + AllCuts(x, pieces[1..])
  }

  // ---- The second scan ----

  lemma OpensNoneAcross(x: Syntax, left: string, after: string, k: nat)
    requires x.Sound() && k < |left| < k + |x.open|
    ensures !At(left + x.close + after, k, x.open)
  {
    var t, i := left + x.close + after, |left| - k;
    Letters(t, k, x.open);
    assert x.open[i] in x.open && t[k + i] == x.close[0];
  }

  lemma OpensNoneInFence(x: Syntax, left: string, after: string, j: nat)
    requires x.Sound() && j < |x.close|
    ensures !At(left + x.close + after, |left| + j, x.open)
  {
    var t := left + x.close + after;
    Letters(t, |left| + j, x.open);
    assert t[|left| + j + 0] == x.close[j];
    if x.close[j] == '<' { assert t[|left| + j + 5] == x.close[j + 5]; }
  }

  lemma AtSlice(s: string, from: nat, rest: string, k: nat, a: string)
    requires from <= |s| && k + |a| <= |s| - from
    ensures At(s[from..] + rest, k, a) ==> At(s, from + k, a)
  {
    assert (s[from..] + rest)[k..k + |a|] == s[from + k..from + k + |a|];
  }

  /** No include opens in the rest of a body, in the fence behind it, or across the two. */
  lemma RestOpensNone(x: Syntax, body: string, after: string, k: nat)
    requires x.Sound() && !Clean(x, body) && LeavesNoOpen(x, body) && k < |Rest(x, body)|
    ensures !At(Rest(x, body) + after, k, x.open)
  {
    var from := Find(x.close, body, 0) + |x.close|;
    var left := body[from..];
    if k + |x.open| <= |left| {
      AtSlice(body, from, x.close + after, k, x.open);
      assert left + x.close + after == left + (x.close + after);
    } else if k < |left| {
      OpensNoneAcross(x, left, after, k);
    } else {
      OpensNoneInFence(x, left, after, k - |left|);
    }
  }

  lemma Letters(s: string, k: nat, a: string)
    ensures At(s, k, a) ==> forall i | 0 <= i < |a| :: s[k + i] == a[i]
  {
    if At(s, k, a) {
      forall i | 0 <= i < |a| ensures s[k + i] == a[i] { assert s[k..k + |a|][i] == s[k + i]; }
    }
  }

  lemma ScanChar(x: Syntax, t: string)
    requires t != "" && !At(t, 0, x.open)
    ensures Scan(x, t) == [Plain(t[0])] + Scan(x, t[1..])
  {
  }

  lemma {:induction false} ScanPlains(x: Syntax, w: string, after: string)
    requires forall k | 0 <= k < |w| :: !At(w + after, k, x.open)
    ensures Scan(x, w + after) == Plains(w) + Scan(x, after)
  {
    hide Scan, At;
    if w == "" {
      assert w + after == after;
    } else {
      var v := w[1..];
      assert (w + after)[1..] == v + after;
      ScanChar(x, w + after);
      forall k | 0 <= k < |v| ensures !At(v + after, k, x.open) { AtShift(w + after, k, x.open); }
      ScanPlains(x, v, after);
      assert Plains(w) == [Plain(w[0])] + Plains(v);
    }
  }

  lemma AtShift(t: string, k: nat, a: string)
    requires t != ""
    ensures At(t[1..], k, a) <==> At(t, k + 1, a)
  {
    if k + 1 + |a| <= |t| { assert t[1..][k..k + |a|] == t[k + 1..k + 1 + |a|]; }
  }

  lemma AtPrefix(s: string, n: nat, q: nat, a: string)
    requires n <= |s|
    ensures At(s[..n], q, a) ==> At(s, q, a)
  {
    if q + |a| <= n { assert s[..n][q..q + |a|] == s[q..q + |a|]; }
  }

  lemma CleanPrefix(a: string, s: string)
    requires a != ""
    ensures Find(a, s[..Find(a, s, 0)], 0) == Find(a, s, 0)
  {
    var at := Find(a, s, 0);
    var body := s[..at];
    var q := Find(a, body, 0);
    AtPrefix(s, at, q, a);
  }

  lemma Joined(h: string, b: string, c: string, k: string, rest: string)
    ensures h + (b + c + k) + c + rest == (h + b + c) + ((k + c) + rest)
  {
  }

  lemma PartIs(x: Syntax, p: Piece, rest: string)
    requires x.Sound() && p.Include? && WellFormed(x, p) && !Clean(x, p.body)
    ensures WellFormed(x, Part(x, p)) && Clean(x, Part(x, p).body)
    ensures Text(x, p) + rest == Text(x, Part(x, p)) + (Rest(x, p.body) + rest)
  {
    var at := Find(x.close, p.body, 0);
    var body, back := p.body[..at], p.body[at + |x.close|..];
    CleanPrefix(x.close, p.body);
    hide AllIn, Head, Anchor;
    assert p.body == body + x.close + back;
    assert Head(x, Part(x, p)) == Head(x, p) by { HeadSame(x, p); }
    Joined(Head(x, p), body, x.close, back, rest);
  }

  lemma HeadSame(x: Syntax, p: Piece)
    requires p.Include?
    ensures Head(x, Part(x, p)) == Head(x, p)
  {
  }

  /** One printed include scans as its cuts, and the scan goes on behind it. */
  lemma CutScans(x: Syntax, p: Piece, after: string)
    requires x.Sound() && p.Include? && WellFormed(x, p) && LeavesNoOpen(x, p.body)
    ensures Scan(x, Text(x, p) + after) == Cuts(x, p) + Scan(x, after)
  {
    hide Scan, Text, WellFormed, MatchAt, LeavesNoOpen;
    if Clean(x, p.body) {
      TextMatches(x, p, after);
      ScanFirst(x, p, after);
    } else {
      var part, w := Part(x, p), Rest(x, p.body);
      PartIs(x, p, after);
      TextMatches(x, part, w + after);
      ScanFirst(x, part, w + after);
      forall k | 0 <= k < |w| ensures !At(w + after, k, x.open) { RestOpensNone(x, p.body, after, k); }
      ScanPlains(x, w, after);
    }
  }

  ghost predicate Leaves(x: Syntax, filled: seq<Piece>) {
    forall p | p in filled :: WellFormed(x, p) && (p.Include? ==> LeavesNoOpen(x, p.body))
  }

  /** What a filled scan prints scans as the cuts of its pieces. */
  lemma {:induction false} ScanFilledCuts(x: Syntax, s: string, filled: seq<Piece>)
    requires x.Sound() && SameShape(Scan(x, s), filled) && Leaves(x, filled)
    ensures Scan(x, Print(x, filled)) == AllCuts(x, filled)
    decreases |s|
  {
    if s != "" {
      var p, n := ScanStep(x, s);
      var pieces, first, rest := Scan(x, s[n..]), filled[0], filled[1..];
      assert ([p] + pieces)[1..] == pieces;
      assert SameKind(p, first) && SameShape(pieces, rest);
      assert first in filled && forall q | q in rest :: q in filled;
      ScanFilledCuts(x, s[n..], rest);
      hide Scan, LeavesNoOpen, WellFormed, MatchAt, Cuts;
      if p.Plain? {
        PlainStays(x, s, p, n, pieces, first, rest);
      } else {
        CutScans(x, first, Print(x, rest));
      }
    }
  }

  lemma PlainStays(x: Syntax, s: string, p: Piece, n: nat, pieces: seq<Piece>, first: Piece, rest: seq<Piece>)
    requires x.Sound() && s != "" && Step(x, s, p) && p.Plain? && n == 1 && pieces == Scan(x, s[n..])
    requires first == p && SameShape(pieces, rest)
    ensures Scan(x, Text(x, first) + Print(x, rest)) == Cuts(x, first) + Scan(x, Print(x, rest))
  {
    ScanPrints(x, s[1..]);
    if MatchAt(x, s).Some? { MatchIsText(x, s); }
    hide Scan, MatchAt, Print, SameShape;
    assert s == [p.c] + Print(x, pieces);
    NoStraddle(x, p.c, pieces, rest);
    assert Text(x, first) == [p.c];
    ScanFirst(x, first, Print(x, rest));
  }

  // ---- The second fill ----

  lemma {:induction false} FillConcat(r: Repo, a: seq<Piece>, b: seq<Piece>)
    requires FillAll(r, a).Ok? && FillAll(r, b).Ok?
    ensures FillAll(r, a + b) == Ok(FillAll(r, a).value + FillAll(r, b).value)
  {
    if a == [] {
      assert a + b == b;
      assert FillAll(r, b).value == [] + FillAll(r, b).value;
    } else {
      assert (a + b)[1..] == a[1..] + b;
      FillConcat(r, a[1..], b);
      var first, rest := Fill(r, a[0]).value, FillAll(r, a[1..]).value;
      assert ([first] + rest) + FillAll(r, b).value == [first] + (rest + FillAll(r, b).value);
    }
  }

  lemma {:induction false} PrintConcat(x: Syntax, a: seq<Piece>, b: seq<Piece>)
    ensures Print(x, a + b) == Print(x, a) + Print(x, b)
  {
    if a == [] {
      assert a + b == b;
    } else {
      assert (a + b)[1..] == a[1..] + b;
      PrintConcat(x, a[1..], b);
    }
  }

  lemma {:induction false} PrintPlains(x: Syntax, w: string)
    ensures Print(x, Plains(w)) == w
  {
    if w != "" {
      assert Plains(w)[1..] == Plains(w[1..]);
      PrintPlains(x, w[1..]);
    }
  }

  lemma {:induction false} FillPlains(r: Repo, w: string)
    ensures FillAll(r, Plains(w)) == Ok(Plains(w))
  {
    FillAgain(r, Plains(w));
  }

  /** What the cuts of one filled piece fill as: the piece, and what the cut left behind it. */
  function Refilled(x: Syntax, p: Piece): seq<Piece> {
    if p.Plain? || Clean(x, p.body) then [p] else [p] + Plains(Rest(x, p.body))
  }

  lemma CutsFill(r: Repo, p: Piece)
    requires Fill(r, p) == Ok(p)
    ensures FillAll(r, Cuts(r.marks, p)) == Ok(Refilled(r.marks, p))
    ensures Print(r.marks, Refilled(r.marks, p)) ==
            Text(r.marks, p) + if p.Plain? || Clean(r.marks, p.body) then "" else Rest(r.marks, p.body)
  {
    var x := r.marks;
    PrintCons(x, p, []);
    assert [p] + [] == [p];
    if p.Plain? || Clean(x, p.body) {
      FillOne(r, p, p);
    } else {
      var w := Rest(x, p.body);
      FillOne(r, Part(x, p), p);
      FillPlains(r, w);
      FillConcat(r, [Part(x, p)], Plains(w));
      PrintPlains(x, w);
      PrintCons(x, p, Plains(w));
    }
  }

  ghost predicate AllClean(x: Syntax, filled: seq<Piece>) {
    forall p | p in filled && p.Include? :: Clean(x, p.body)
  }

  /** The cuts fill, and what they print is longer by what the cuts left behind. */
  lemma {:induction false} AllCutsFill(r: Repo, filled: seq<Piece>)
    requires r.marks.Sound() && forall p | p in filled :: Fill(r, p) == Ok(p)
    ensures FillAll(r, AllCuts(r.marks, filled)).Ok?
    ensures var again := Print(r.marks, FillAll(r, AllCuts(r.marks, filled)).value);
            && |again| >= |Print(r.marks, filled)|
            && (|again| == |Print(r.marks, filled)| ==> AllClean(r.marks, filled))
            && (AllClean(r.marks, filled) ==> again == Print(r.marks, filled))
  {
    if filled != [] {
      var x, first, rest := r.marks, filled[0], filled[1..];
      assert filled == [first] + rest;
      assert first in filled && forall p | p in rest :: p in filled;
      AllCutsFill(r, rest);
      CutsFill(r, first);
      FillConcat(r, Cuts(x, first), AllCuts(x, rest));
      PrintConcat(x, Refilled(x, first), FillAll(r, AllCuts(x, rest)).value);
      hide FillAll, Fill, AllCuts, Cuts, Refilled, Print, Text, Clean;
      assert AllClean(x, filled) <==> (first.Plain? || Clean(x, first.body)) && AllClean(x, rest);
    }
  }

  // ---- The runs ----

  /** The filled pieces of a document, and what they take over from its scan. */
  lemma FilledLeaves(r: Repo, doc: string)
    requires r.marks.Sound() && FillAll(r, Scan(r.marks, doc)).Ok?
    ensures var filled := FillAll(r, Scan(r.marks, doc)).value;
            && SameShape(Scan(r.marks, doc), filled)
            && (forall p | p in filled :: Fill(r, p) == Ok(p))
            && (AllClean(r.marks, filled) <==> CleanSources(r, doc))
            && (NothingOpens(r, doc) ==> Leaves(r.marks, filled))
  {
    var pieces, filled := Scan(r.marks, doc), FillAll(r, Scan(r.marks, doc)).value;
    FillShape(r, pieces);
    ScanPrints(r.marks, doc);
    hide Scan, FillAll, Clean, LeavesNoOpen, WellFormed;
    forall i | 0 <= i < |pieces|
      ensures pieces[i] in pieces && filled[i] in filled && Fill(r, filled[i]) == Ok(filled[i]) && WellFormed(r.marks, filled[i])
      ensures pieces[i].Include? ==>
                && Extract(r, pieces[i].source, pieces[i].region).Ok? && filled[i].Include?
                && filled[i].body == WithNewline(Extract(r, pieces[i].source, pieces[i].region).value)
      ensures pieces[i].Plain? ==> filled[i].Plain?
    {
      FilledPiece(r, pieces[i]);
    }
    forall p | p in pieces && p.Include? && Extract(r, p.source, p.region).Ok?
      ensures exists q :: q in filled && q.Include? && q.body == WithNewline(Extract(r, p.source, p.region).value)
    {
      var i :| 0 <= i < |pieces| && pieces[i] == p;
      assert filled[i] in filled;
    }
    forall q | q in filled
      ensures Fill(r, q) == Ok(q) && WellFormed(r.marks, q)
      ensures q.Include? ==> exists p :: p in pieces && p.Include? && Extract(r, p.source, p.region).Ok?
                                         && q.body == WithNewline(Extract(r, p.source, p.region).value)
    {
      var i :| 0 <= i < |filled| && filled[i] == q;
      assert pieces[i] in pieces;
    }
  }

  lemma FilledPiece(r: Repo, p: Piece)
    requires Fill(r, p).Ok? && WellFormed(r.marks, p)
    ensures var q := Fill(r, p).value;
            && Fill(r, q) == Ok(q) && WellFormed(r.marks, q) && (q.Include? <==> p.Include?)
            && (p.Include? ==> Extract(r, p.source, p.region).Ok? && q.body == WithNewline(Extract(r, p.source, p.region).value))
  {
    if p.Include? { LanguageIsWord(r.marks, p.source); }
  }

  /**
   Where nothing that a document pulls in opens an include behind a closing fence
   of its own, a second rendering changes nothing exactly where none of it holds
   such a fence at all. Else the second rendering resolves and is longer than the first.
   */
  lemma SettlesExactly(r: Repo, doc: string)
    requires r.marks.Sound() && NothingOpens(r, doc) && Render(r, doc).Ok?
    ensures Render(r, Render(r, doc).value).Ok?
    ensures Render(r, Render(r, doc).value) == Render(r, doc) <==> CleanSources(r, doc)
    ensures !CleanSources(r, doc) ==> |Render(r, Render(r, doc).value).value| > |Render(r, doc).value|
  {
    var filled := FillAll(r, Scan(r.marks, doc)).value;
    FilledLeaves(r, doc);
    ScanFilledCuts(r.marks, doc, filled);
    AllCutsFill(r, filled);
  }

  // ---- Any number of runs ----

  /** What `n` runs make of a document. */
  function Times(r: Repo, doc: string, n: nat): Result<string, IncludeError> {
    if n == 0 then Ok(doc)
    else
      match Times(r, doc, n - 1)
      case Err(e) => Err(e)
      case Ok(t) => Render(r, t)
  }

  ghost predicate SameTarget(p: Piece, q: Piece) {
    p.Include? && q.Include? && p.source == q.source && p.region == q.region
  }

  /** Each include of one list has one with its target in the other. */
  ghost predicate TargetsIn(a: seq<Piece>, b: seq<Piece>) {
    forall p | p in a && p.Include? :: exists q :: q in b && SameTarget(p, q)
  }

  lemma CutsTarget(x: Syntax, p: Piece)
    ensures TargetsIn(Cuts(x, p), [p]) && TargetsIn([p], Cuts(x, p))
  {
    if p.Include? {
      assert Cuts(x, p)[0] in Cuts(x, p) && SameTarget(p, Cuts(x, p)[0]);
      assert p in [p];
    }
  }

  lemma TargetsConcat(a: seq<Piece>, b: seq<Piece>, c: seq<Piece>, d: seq<Piece>)
    requires TargetsIn(a, c) && TargetsIn(b, d)
    ensures TargetsIn(a + b, c + d)
  {
    forall p | p in a + b && p.Include? ensures exists q :: q in c + d && SameTarget(p, q) {
      if p in a {
        var q :| q in c && SameTarget(p, q);
        assert q in c + d;
      } else {
        var q :| q in d && SameTarget(p, q);
        assert q in c + d;
      }
    }
  }

  lemma TargetsBoth(a: seq<Piece>, b: seq<Piece>, c: seq<Piece>, d: seq<Piece>)
    requires TargetsIn(a, c) && TargetsIn(c, a) && TargetsIn(b, d) && TargetsIn(d, b)
    ensures TargetsIn(a + b, c + d) && TargetsIn(c + d, a + b)
  {
    hide TargetsIn;
    TargetsConcat(a, b, c, d);
    TargetsConcat(c, d, a, b);
  }

  lemma {:induction false} CutTargets(x: Syntax, filled: seq<Piece>)
    ensures TargetsIn(AllCuts(x, filled), filled) && TargetsIn(filled, AllCuts(x, filled))
  {
    if filled != [] {
      hide Cuts, TargetsIn;
      CutTargets(x, filled[1..]);
      CutsTarget(x, filled[0]);
      TargetsBoth(Cuts(x, filled[0]), AllCuts(x, filled[1..]), [filled[0]], filled[1..]);
      assert filled == [filled[0]] + filled[1..];
    } else {
      assert AllCuts(x, filled) == [];
    }
  }

  lemma ShapeTargets(a: seq<Piece>, b: seq<Piece>)
    requires SameShape(a, b)
    ensures TargetsIn(a, b) && TargetsIn(b, a)
  {
    forall p | p in a && p.Include? ensures exists q :: q in b && SameTarget(p, q) {
      var i :| 0 <= i < |a| && a[i] == p;
      assert SameKind(a[i], b[i]) && b[i] in b;
    }
    forall p | p in b && p.Include? ensures exists q :: q in a && SameTarget(p, q) {
      var i :| 0 <= i < |b| && b[i] == p;
      assert SameKind(a[i], b[i]) && a[i] in a;
    }
  }

  lemma TargetsThrough(a: seq<Piece>, b: seq<Piece>, c: seq<Piece>)
    requires TargetsIn(a, b) && TargetsIn(b, c)
    ensures TargetsIn(a, c)
  {
    forall p | p in a && p.Include? ensures exists q :: q in c && SameTarget(p, q) {
      var m :| m in b && SameTarget(p, m);
      var q :| q in c && SameTarget(m, q);
      assert SameTarget(p, q);
    }
  }

  /** A rendering pulls in what the document pulled in. */
  lemma RenderedTargets(r: Repo, doc: string)
    requires r.marks.Sound() && NothingOpens(r, doc) && Render(r, doc).Ok?
    ensures TargetsIn(Scan(r.marks, Render(r, doc).value), Scan(r.marks, doc))
    ensures TargetsIn(Scan(r.marks, doc), Scan(r.marks, Render(r, doc).value))
  {
    var pieces, filled := Scan(r.marks, doc), FillAll(r, Scan(r.marks, doc)).value;
    FilledLeaves(r, doc);
    ScanFilledCuts(r.marks, doc, filled);
    hide NothingOpens, SameShape, TargetsIn, Leaves;
    CutTargets(r.marks, filled);
    ShapeTargets(pieces, filled);
    TargetsThrough(AllCuts(r.marks, filled), filled, pieces);
    TargetsThrough(pieces, filled, AllCuts(r.marks, filled));
  }

  lemma RenderedStays(r: Repo, doc: string)
    requires r.marks.Sound() && NothingOpens(r, doc) && Render(r, doc).Ok?
    ensures NothingOpens(r, Render(r, doc).value)
    ensures CleanSources(r, Render(r, doc).value) <==> CleanSources(r, doc)
  {
    RenderedTargets(r, doc);
    hide Scan, Render, Clean, LeavesNoOpen;
  }

  /** One text with a closing fence in it makes a document that no number of runs settles: each run adds to it. */
  lemma {:induction false} NeverSettles(r: Repo, doc: string, n: nat)
    requires r.marks.Sound() && NothingOpens(r, doc) && Render(r, doc).Ok? && !CleanSources(r, doc) && 0 < n
    ensures Times(r, doc, n).Ok? && Times(r, doc, n + 1).Ok?
    ensures |Times(r, doc, n + 1).value| > |Times(r, doc, n).value|
    ensures NothingOpens(r, Times(r, doc, n).value) && !CleanSources(r, Times(r, doc, n).value)
  {
    if n == 1 {
      assert Times(r, doc, 0) == Ok(doc);
      RenderedStays(r, doc);
      SettlesExactly(r, doc);
    } else {
      NeverSettles(r, doc, n - 1);
      RenderedStays(r, Times(r, doc, n - 1).value);
      SettlesExactly(r, Times(r, doc, n - 1).value);
    }
  }

  // ---- An include that opens behind a closing fence ----

  /**
   A pulled-in text that holds a closing fence and then the first line of an
   include leaves that line behind. The printed fence completes it, and it takes
   the include that follows into its body.
   */
  lemma LeftHeaderTakesNext(x: Syntax, fence: string, line: string, mark: string, a: Piece, b: Piece)
    requires x.Sound() && x.close == fence + "\n" + mark && x.arrow == line + fence
    requires a.Include? && b.Include? && WellFormed(x, a) && WellFormed(x, b) && b.region.None?
    requires a.body == x.close + (x.open + b.source + line) && Clean(x, mark + Head(x, b) + b.body)
    ensures Scan(x, Text(x, a) + Text(x, b)) ==
            [a.(body := ""), Include(b.source, None, "", mark + Head(x, b) + b.body)]
  {
    var first, second := a.(body := ""), Include(b.source, None, "", mark + Head(x, b) + b.body);
    assert Head(x, first) == Head(x, a) && Head(x, second) == (x.open + b.source) + (line + fence) + "" + "\n";
    LeftChars(Head(x, a), x.open + b.source, line, fence, mark, Head(x, b) + b.body);
    assert mark + Head(x, b) + b.body == mark + (Head(x, b) + b.body);
    assert Head(x, a) + "" + x.close == Head(x, a) + x.close;
    assert Clean(x, "") && WellFormed(x, first) && WellFormed(x, second);
    hide Head, WellFormed, Clean, Scan, MatchAt;
    assert Text(x, a) + Text(x, b) == Text(x, first) + Text(x, second);
    TextMatches(x, first, Text(x, second));
    ScanFirst(x, first, Text(x, second));
    ScanOne(x, second);
  }

  /** The same characters, as two includes and as the two that they scan as. */
  lemma LeftChars(head: string, target: string, line: string, fence: string, mark: string, next: string)
    ensures var close := fence + "\n" + mark;
            (head + (close + (target + line)) + close) + (next + close)
            == (head + close) + ((target + (line + fence) + "" + "\n") + (mark + next) + close)
  {
    var close, left := fence + "\n" + mark, target + line;
    Regroup(head + close, left, close, next + close);
    assert head + (close + left) == (head + close) + left;
    assert left + (close + (next + close)) == left + close + next + close;
    assert left + close == (target + (line + fence) + "" + "\n") + mark;
    assert (target + (line + fence) + "" + "\n") + mark + next == (target + (line + fence) + "" + "\n") + (mark + next);
  }

  /** A closing fence, and the first line of an include of `s.md`. */
  function LeftText(x: Syntax): string { x.close + (x.open + "s.md" + LINE) }

  function LeftRepo(letters: set<char>): Repo {
    var x := Includes(letters);
    Repo(map["a.md" := LeftText(x), "s.md" := "S\n"], x)
  }

  function LeftDoc(letters: set<char>): string {
    var x := Includes(letters);
    Text(x, Include("a.md", None, "", "")) + Text(x, Include("s.md", None, "", ""))
  }

  lemma MarkdownFence(stem: char)
    requires 'a' <= stem <= 'z'
    ensures FenceLanguage([stem] + ".md") == Ok("text")
  {
    var source := [stem] + ".md";
    assert source == [stem, '.', 'm', 'd'];
    assert source[..3] == [stem, '.', 'm'] && source[..3][..2] == [stem, '.'] && source[..2] == [stem, '.'];
    assert LastIndex(source[..2], '.') == 1;
    assert LastIndex(source[..3], '.') == 1;
    assert LastIndex(source, '.') == 1;
    assert source[..1] == [stem] && source[..2][..1] == [stem] && [stem][..0] == [];
    assert LastIndex([stem], '/') == -1;
    assert LastIndex(source[..2], '/') == -1;
    assert LastIndex(source[..3], '/') == -1;
    assert LastIndex(source, '/') == -1;
    assert Name(source) == source;
    assert source[1..] == ".md";
  }

  lemma AtBehind(u: string, v: string, q: nat, a: string)
    requires |u| <= q && At(u + v, q, a)
    ensures At(v, q - |u|, a)
  {
    assert (u + v)[q..q + |a|] == v[q - |u|..q - |u| + |a|];
  }

  /** A mark that starts with a character that `u` lacks starts behind `u`. */
  lemma NoneInFront(u: string, v: string, mark: string)
    requires mark != "" && mark[0] !in u && forall q | 0 <= q <= |v| :: !At(v, q, mark)
    ensures Find(mark, u + v, 0) == |u + v|
  {
    var q := Find(mark, u + v, 0);
    if q < |u| {
      Letters(u + v, q, mark);
    } else if q < |u + v| {
      AtBehind(u, v, q, mark);
    }
  }

  lemma CleanFence(mark: string)
    requires 3 < |mark| && mark[0] == '`' && mark[3] == '\n'
    ensures forall q | 0 <= q <= |FENCE + "text\nS\n"| :: !At(FENCE + "text\nS\n", q, mark)
  {
    var v := FENCE + "text\nS\n";
    assert v == "```text\nS\n";
    forall q | 0 <= q <= |v| ensures !At(v, q, mark) {
      Letters(v, q, mark);
    }
  }

  lemma SecondText(open: string, arrow: string)
    requires arrow == LINE + FENCE
    ensures MARK + (open + "s.md" + arrow + "text" + "\n") + "S\n" == (MARK + open + "s.md" + LINE) + (FENCE + "text\nS\n")
  {
    var front := MARK + open + "s.md";
    assert "text" + "\n" + "S\n" == "text\nS\n";
    hide MARK, LINE, FENCE;
    assert MARK + (open + "s.md" + arrow + "text" + "\n") + "S\n" == front + (LINE + FENCE) + ("text" + "\n" + "S\n");
  }

  lemma NoTickInFront(open: string)
    requires '`' !in open
    ensures '`' !in MARK + open + "s.md" + LINE
  {
    assert '`' !in MARK && '`' !in "s.md" && '`' !in LINE;
  }

  lemma SecondIsClean(letters: set<char>)
    ensures var x := Includes(letters); Clean(x, MARK + Head(x, Include("s.md", None, "text", "S\n")) + "S\n")
  {
    var x := Includes(letters);
    assert '`' !in x.open && x.arrow == LINE + FENCE && 3 < |x.close| && x.close[0] == '`' && x.close[3] == '\n';
    hide Includes, MARK, LINE, FENCE;
    CleanFence(x.close);
    NoTickInFront(x.open);
    SecondText(x.open, x.arrow);
    NoneInFront(MARK + x.open + "s.md" + LINE, FENCE + "text\nS\n", x.close);
  }

  lemma FillOf(r: Repo, source: string, lang: string, body: string)
    requires source in r.files && r.files[source] != "" && r.files[source][|r.files[source]| - 1] == '\n'
    requires FenceLanguage(source) == Ok("text")
    ensures Fill(r, Include(source, None, lang, body)) == Ok(Include(source, None, "text", r.files[source]))
  {
  }

  lemma LeftFiles(letters: set<char>)
    ensures var r := LeftRepo(letters);
            && r.marks == Includes(letters) && "a.md" in r.files && "s.md" in r.files
            && r.files["a.md"] == LeftText(Includes(letters)) && r.files["s.md"] == "S\n"
  {
    hide Includes, LeftText;
    assert "a.md"[0] != "s.md"[0];
  }

  lemma LeftEnds(x: Syntax)
    ensures LeftText(x) != "" && LeftText(x)[|LeftText(x)| - 1] == '\n'
  {
    assert LINE[|LINE| - 1] == '\n' && |LINE| > 0;
    hide LINE;
  }

  lemma LeftFills(letters: set<char>, lang: string, body: string)
    ensures var r := LeftRepo(letters);
            && "a.md" in r.files
            && Fill(r, Include("a.md", None, lang, body)) == Ok(Include("a.md", None, "text", r.files["a.md"]))
            && Fill(r, Include("s.md", None, lang, body)) == Ok(Include("s.md", None, "text", "S\n"))
  {
    LeftFiles(letters);
    LeftEnds(Includes(letters));
    hide Includes, FenceLanguage, LeftRepo, LeftText, Fill;
    MarkdownFence('a');
    MarkdownFence('s');
    assert ['a'] + ".md" == "a.md" && ['s'] + ".md" == "s.md";
    FillOf(LeftRepo(letters), "a.md", lang, body);
    FillOf(LeftRepo(letters), "s.md", lang, body);
  }

  lemma LeftWellFormed(x: Syntax, lang: string, body: string)
    requires lang == "" || lang == "text"
    ensures WellFormed(x, Include("a.md", None, lang, body)) && WellFormed(x, Include("s.md", None, lang, body))
  {
    assert forall i | 0 <= i < 4 :: "a.md"[i] in {'a', '.', 'm', 'd'} && "s.md"[i] in {'s', '.', 'm', 'd'};
    assert forall i | 0 <= i < |lang| :: lang[i] in {'t', 'e', 'x'};
  }

  /** Two includes in a row, and nothing else. */
  lemma TwoScanned(x: Syntax, p: Piece, q: Piece)
    requires x.Sound() && p.Include? && q.Include? && WellFormed(x, p) && WellFormed(x, q) && Clean(x, p.body) && Clean(x, q.body)
    ensures Scan(x, Text(x, p) + Text(x, q)) == [p, q]
  {
    hide WellFormed, Clean, Text, Scan, MatchAt;
    TextMatches(x, p, Text(x, q));
    ScanFirst(x, p, Text(x, q));
    ScanOne(x, q);
  }

  lemma TwoFilled(r: Repo, doc: string, p: Piece, q: Piece, f: Piece, g: Piece)
    requires Scan(r.marks, doc) == [p, q] && Fill(r, p) == Ok(f) && Fill(r, q) == Ok(g)
    ensures Render(r, doc) == Ok(Text(r.marks, f) + Text(r.marks, g))
  {
    hide Fill, Text;
    assert [p, q][1..] == [q];
    FillOne(r, q, g);
    assert FillAll(r, [p, q]) == Ok([f] + [g]);
    PrintCons(r.marks, f, [g]);
    PrintCons(r.marks, g, []);
    assert [g] + [] == [g] && Text(r.marks, g) + "" == Text(r.marks, g);
  }

  /**
   The documents' own marks: a text that holds a closing fence and behind it the
   first line of an include can settle all the same.
   */
  lemma UncleanCanSettle(letters: set<char>)
    requires forall c | c in letters :: '\U{80}' <= c
    ensures var r, doc := LeftRepo(letters), LeftDoc(letters);
            && r.marks.Sound() && !CleanSources(r, doc) && !NothingOpens(r, doc)
            && Render(r, doc).Ok? && Render(r, Render(r, doc).value) == Render(r, doc)
  {
    var r, doc := LeftRepo(letters), LeftDoc(letters);
    var x := r.marks;
    IncludesSound(letters);
    LeftFiles(letters);
    var text := LeftText(x);
    var a, b := Include("a.md", None, "text", text), Include("s.md", None, "text", "S\n");
    var a0, b0 := Include("a.md", None, "", ""), Include("s.md", None, "", "");
    LeftFills(letters, "", "");
    LeftWellFormed(x, "", "");
    TwoScanned(x, a0, b0);
    TwoFilled(r, doc, a0, b0, a, b);
    LeftIsUnclean(letters);
    assert a0 in Scan(x, doc);
    SecondIsClean(letters);
    LeftWellFormed(x, "text", text);
    LeftWellFormed(x, "text", "S\n");
    hide Includes, Scan, Text, WellFormed, Clean, Head, LeftText, MARK, LINE, FENCE, Render;
    LeftScans(x, a, b);
    LeftFills(letters, "text", "");
    LeftFills(letters, "", MARK + Head(x, b) + b.body);
    TwoFilled(r, Text(x, a) + Text(x, b), a.(body := ""), Include("s.md", None, "", MARK + Head(x, b) + b.body), a, b);
  }

  lemma LeftScans(x: Syntax, a: Piece, b: Piece)
    requires x.Sound() && x.close == FENCE + "\n" + MARK && x.arrow == LINE + FENCE
    requires a.Include? && b.Include? && WellFormed(x, a) && WellFormed(x, b)
    requires b.source == "s.md" && b.region.None? && a.body == LeftText(x) && Clean(x, MARK + Head(x, b) + b.body)
    ensures Scan(x, Text(x, a) + Text(x, b)) == [a.(body := ""), Include("s.md", None, "", MARK + Head(x, b) + b.body)]
  {
    hide Scan, Text, WellFormed, Clean, Head, MARK, LINE, FENCE;
    LeftHeaderTakesNext(x, FENCE, LINE, MARK, a, b);
  }

  lemma LeftIsUnclean(letters: set<char>)
    requires Includes(letters).Sound()
    ensures var x := Includes(letters);
            var text := LeftText(x);
            WithNewline(text) == text && !Clean(x, text) && !LeavesNoOpen(x, text)
  {
    var x := Includes(letters);
    var text := LeftText(x);
    var n := |x.close|;
    assert text[|text| - 1] == LINE[|LINE| - 1] == '\n';
    hide Includes, LINE;
    assert text[0..n] == x.close && text[n..n + |x.open|] == x.open;
    assert At(text, 0, x.close) && At(text, n, x.open);
  }
}
