/** Rendering is idempotent: what it writes scans as the pieces it wrote. */
module IncludeProofs {
  import opened Results
  import opened Blanks
  import opened IncludeSync

  ghost predicate Agree(s: string, t: string, n: nat) {
    n <= |s| && n <= |t| && forall i | 0 <= i < n :: s[i] == t[i]
  }

  lemma SpanIs(x: Syntax, k: Class, s: string, at: nat, e: nat)
    requires at <= e < |s| && !In(x, k, s[e]) && forall i | at <= i < e :: In(x, k, s[i])
    ensures SpanEnd(x, k, s, at) == e
  {
  }

  lemma AtLocal(s: string, t: string, n: nat, i: nat, a: string)
    requires Agree(s, t, n) && i + |a| <= n && At(s, i, a)
    ensures At(t, i, a)
  {
  }

  /** The closing mark has one `<`, which starts it. */
  lemma MarkParts()
    ensures 6 < |MARK| && MARK[0] == '<' && MARK[5] == '/' && forall i | 0 < i < |MARK| :: MARK[i] != '<'
    ensures forall i | 0 <= i < |MARK| :: MARK[i] != '`'
  {
  }

  lemma CloseSound(letters: set<char>)
    ensures var close := Includes(letters).close;
            && close != "" && close[0] == '`'
            && (forall k | 0 < k < |close| :: !(close[k..] <= close))
            && forall k | 0 <= k < |close| && close[k] == '<' :: k + 5 < |close| && close[k + 5] == '/'
  {
    MarkParts();
    hide MARK;
    var close := Includes(letters).close;
    assert FENCE[0] == FENCE[1] == FENCE[2] == '`' && |FENCE| == 3;
    assert forall i | 0 <= i < |MARK| :: close[4 + i] == MARK[i];
    forall k | 0 < k < |close| ensures !(close[k..] <= close) {
      if k < 3 {
        Differs(close, k, 3 - k);
      } else {
        assert k == 3 || close[4 + (k - 4)] == MARK[k - 4];
        Differs(close, k, 0);
      }
    }
  }

  lemma OpenHas(letters: set<char>)
    ensures Includes(letters).open[5] == 'd' && '`' !in Includes(letters).open
  {
  }

  lemma OpenSound(letters: set<char>)
    ensures var open := Includes(letters).open;
            && 5 < |open| && open[0] == '<' && (forall i | 0 < i < |open| :: open[i] != '<')
            && (forall i | 0 < i < 4 :: !IsSpace(open[i]) && open[i] != '#') && open[4] == ' ' && open[5] == 'd'
  {
  }

  /** The marks of the documents meet what the proofs need of them. */
  lemma IncludesSound(letters: set<char>)
    requires forall c | c in letters :: '\U{80}' <= c
    ensures Includes(letters).Sound()
  {
    CloseSound(letters);
    OpenHas(letters);
    OpenSound(letters);
    assert Includes(letters).arrow == LINE + FENCE && LINE[0] == ' ' && LINE[1] == '-' && |LINE| > 1 && '<' !in LINE && '<' !in FENCE;
    hide Includes, IsSpace, LINE, FENCE, MARK;
  }

  lemma Differs(a: string, k: nat, j: nat)
    requires k + j < |a| && a[k + j] != a[j]
    ensures !(a[k..] <= a)
  {
    assert a[k..][j] == a[k + j];
  }

  lemma SourceLocal(x: Syntax, s: string, t: string)
    requires HasHeader(x, s) && Agree(s, t, LangEnd(x, s) + 1)
    ensures SourceEnd(x, t) == SourceEnd(x, s) && (HasHash(x, t) <==> HasHash(x, s))
  {
    SourceStops(x, s);
    SpanIs(x, SourceChar, t, |x.open|, SourceEnd(x, s));
  }

  lemma AnchorLocal(x: Syntax, s: string, t: string)
    requires HasHeader(x, s) && Agree(s, t, LangEnd(x, s) + 1)
    ensures |x.open| <= |t| && AnchorEnd(x, t) == AnchorEnd(x, s)
  {
    SourceLocal(x, s, t);
    if HasHash(x, s) {
      RegionStops(x, s);
      SpanIs(x, RegionChar, t, SourceEnd(x, s) + 1, AnchorEnd(x, s));
    }
  }

  /** A header reads no character after its end. */
  lemma HeaderLocal(x: Syntax, s: string, t: string)
    requires HasHeader(x, s) && Agree(s, t, LangEnd(x, s) + 1)
    ensures HasHeader(x, t) && LangEnd(x, t) == LangEnd(x, s)
  {
    hide In;
    SourceLocal(x, s, t);
    AnchorLocal(x, s, t);
    var n, c := LangEnd(x, s) + 1, AnchorEnd(x, s);
    AtLocal(s, t, n, 0, x.open);
    AtLocal(s, t, n, c, x.arrow);
    LangStops(x, s);
    SpanIs(x, LangChar, t, c + |x.arrow|, n - 1);
  }

  lemma LangStops(x: Syntax, s: string)
    requires HasHeader(x, s)
    ensures !In(x, LangChar, s[LangEnd(x, s)]) && forall i | AnchorEnd(x, s) + |x.arrow| <= i < LangEnd(x, s) :: In(x, LangChar, s[i])
  {
  }

  lemma SourceStops(x: Syntax, s: string)
    requires HasHeader(x, s)
    ensures SourceEnd(x, s) < |s| && !In(x, SourceChar, s[SourceEnd(x, s)])
  {
  }

  lemma RegionStops(x: Syntax, s: string)
    requires HasHeader(x, s) && HasHash(x, s)
    ensures AnchorEnd(x, s) < |s| && !In(x, RegionChar, s[AnchorEnd(x, s)])
  {
  }

  /** The first characters of an include, up to the one after its first space. */
  ghost predicate OpensAt(x: Syntax, s: string, k: nat)
    requires x.Sound()
  {
    && k + 5 < |s| && s[k] == '<' && s[k + 4] == ' ' && s[k + 5] == x.open[5]
    && forall i | k < i < k + 4 :: s[i] == x.open[i - k]
  }

  lemma OpeningIs(x: Syntax, s: string, k: nat)
    requires x.Sound() && At(s, k, x.open)
    ensures OpensAt(x, s, k)
  {
    assert forall i | k <= i < k + 6 :: s[i] == x.open[i - k];
  }

  /** No include opens inside a header: the source would end at a space that no arrow follows. */
  lemma NoInnerOpen(x: Syntax, s: string, k: nat)
    requires x.Sound() && HasHeader(x, s) && 0 < k <= LangEnd(x, s)
    ensures !At(s, k, x.open)
  {
    if At(s, k, x.open) { OpeningIs(x, s, k); }
    if k + 5 < |s| && s[k] == '<' && s[k + 4] == ' ' && forall i | k < i < k + 4 :: s[i] == x.open[i - k] {
      OpensInSource(x, s, k);
      SpaceThenDash(x, s, k);
    }
  }

  /** The only `<` past the start of a header is in its source. */
  lemma OpensInSource(x: Syntax, s: string, k: nat)
    requires x.Sound() && HasHeader(x, s) && 0 < k <= LangEnd(x, s) && s[k] == '<'
    ensures |x.open| <= k < SourceEnd(x, s)
  {
    if k < |x.open| { NotInOpen(x, s, k); }
    if SourceEnd(x, s) < k < AnchorEnd(x, s) { NotInRegion(x, s, k); }
    if AnchorEnd(x, s) <= k < AnchorEnd(x, s) + |x.arrow| { NotInArrow(x, s, k); }
    if AnchorEnd(x, s) + |x.arrow| <= k { NotInLang(x, s, k); }
  }

  lemma NotInOpen(x: Syntax, s: string, k: nat)
    requires x.Sound() && HasHeader(x, s) && 0 < k < |x.open|
    ensures s[k] != '<'
  {
    assert s[k] == x.open[k];
  }

  lemma NotInRegion(x: Syntax, s: string, k: nat)
    requires x.Sound() && HasHeader(x, s) && SourceEnd(x, s) < k < AnchorEnd(x, s)
    ensures s[k] != '<'
  {
    assert In(x, RegionChar, s[k]);
  }

  lemma NotInArrow(x: Syntax, s: string, k: nat)
    requires x.Sound() && HasHeader(x, s) && AnchorEnd(x, s) <= k < AnchorEnd(x, s) + |x.arrow|
    ensures s[k] != '<'
  {
    assert s[k] == x.arrow[k - AnchorEnd(x, s)];
  }

  lemma NotInLang(x: Syntax, s: string, k: nat)
    requires x.Sound() && HasHeader(x, s) && AnchorEnd(x, s) + |x.arrow| <= k <= LangEnd(x, s)
    ensures s[k] != '<'
  {
    if k < LangEnd(x, s) { assert In(x, LangChar, s[k]); }
  }

  /** A space in the source's line is the one that starts the arrow. */
  lemma SpaceThenDash(x: Syntax, s: string, k: nat)
    requires x.Sound() && HasHeader(x, s) && |x.open| <= k < SourceEnd(x, s) && k + 5 < |s|
    requires s[k + 4] == ' ' && forall i | k < i < k + 4 :: s[i] == x.open[i - k]
    ensures s[k + 5] == x.arrow[1]
  {
    var b := SourceEnd(x, s);
    assert !In(x, SourceChar, s[b]);
    assert s[AnchorEnd(x, s) + 1] == x.arrow[1];
  }

  // ---- The closing fence ----

  lemma AtInside(a: string, before: string, body: string, after: string, q: nat)
    requires q + |a| <= |body|
    ensures At(before + body + after, |before| + q, a) <==> At(body, q, a)
  {
    assert (before + body + after)[|before| + q..|before| + q + |a|] == body[q..q + |a|];
  }

  lemma Overlap(a: string, s: string, p: nat, q: nat)
    requires p < q < p + |a| && At(s, p, a) && At(s, q, a)
    ensures a[q - p..] <= a
  {
    assert a[q - p..] == s[q..p + |a|];
    assert a[..p + |a| - q] == s[q..p + |a|];
  }

  /** Two closing fences do not overlap. */
  lemma NoHalfClose(x: Syntax, s: string, p: nat, q: nat)
    requires x.Sound() && p < q && At(s, p, x.close) && At(s, q, x.close)
    ensures p + |x.close| <= q
  {
    if q < p + |x.close| { Overlap(x.close, s, p, q); }
  }

  /**
   The body that a scan finds in front of a closing fence is the body that was
   printed exactly where that body holds no closing fence of its own.
   */
  lemma CloseAfter(x: Syntax, head: string, body: string, after: string)
    requires x.Sound() && At(head + body + after, |head| + |body|, x.close)
    ensures Find(x.close, head + body + after, |head|) <= |head| + |body|
    ensures Find(x.close, head + body + after, |head|) == |head| + |body| <==> Clean(x, body)
  {
    var s := head + body + after;
    var p := Find(x.close, s, |head|);
    if p < |head| + |body| {
      NoHalfClose(x, s, p, |head| + |body|);
      AtInside(x.close, head, body, after, p - |head|);
    } else {
      var q := Find(x.close, body, 0);
      if q < |body| {
        AtInside(x.close, head, body, after, q);
      }
    }
  }

  // ---- Reading back what was printed ----

  ghost predicate AllIn(x: Syntax, k: Class, s: string) {
    forall i | 0 <= i < |s| :: In(x, k, s[i])
  }

  /** A piece whose parts the pattern can read back. */
  ghost predicate WellFormed(x: Syntax, p: Piece) {
    p.Include? ==>
      && p.source != "" && AllIn(x, SourceChar, p.source)
      && (p.region.Some? ==> p.region.value != "" && AllIn(x, RegionChar, p.region.value))
      && AllIn(x, LangChar, p.lang)
  }

  lemma SpanPrinted(x: Syntax, k: Class, before: string, s: string, rest: string)
    requires AllIn(x, k, s) && rest != "" && !In(x, k, rest[0])
    ensures SpanEnd(x, k, before + s + rest, |before|) == |before| + |s|
  {
    hide In;
    var t := before + s + rest;
    assert forall i | |before| <= i < |before| + |s| :: t[i] == s[i - |before|];
    assert t[|before| + |s|] == rest[0];
    SpanIs(x, k, t, |before|, |before| + |s|);
  }

  lemma SourceReads(x: Syntax, p: Piece, rest: string)
    requires x.Sound() && p.Include? && WellFormed(x, p)
    ensures var s := Head(x, p) + rest;
            && At(s, 0, x.open) && SourceEnd(x, s) == |x.open| + |p.source|
            && s[|x.open|..SourceEnd(x, s)] == p.source
            && (HasHash(x, s) <==> p.region.Some?)
  {
    var s := Head(x, p) + rest;
    var tail := x.arrow + p.lang + "\n" + rest;
    var more := if p.region.Some? then "#" + p.region.value + tail else tail;
    assert s == x.open + p.source + more;
    SpanPrinted(x, SourceChar, x.open, p.source, more);
  }

  lemma RegionReads(x: Syntax, p: Piece, rest: string)
    requires x.Sound() && p.Include? && WellFormed(x, p)
    ensures var s := Head(x, p) + rest;
            && AnchorEnd(x, s) == |x.open + Anchor(p)|
            && (p.region.Some? ==> HasHash(x, s) && s[SourceEnd(x, s) + 1..AnchorEnd(x, s)] == p.region.value)
  {
    SourceReads(x, p, rest);
    if p.region.Some? {
      var s := Head(x, p) + rest;
      var tail := x.arrow + p.lang + "\n" + rest;
      var before := x.open + p.source + "#";
      assert s == before + p.region.value + tail;
      SpanPrinted(x, RegionChar, before, p.region.value, tail);
    }
  }

  lemma Middle(a: string, b: string, c: string)
    ensures (a + b + c)[|a|..|a| + |b|] == b
  {
  }

  lemma LangReads(x: Syntax, p: Piece, rest: string)
    requires x.Sound() && p.Include? && WellFormed(x, p)
    ensures var s := Head(x, p) + rest;
            && At(s, AnchorEnd(x, s), x.arrow)
            && LangEnd(x, s) + 1 == |Head(x, p)| && s[LangEnd(x, s)] == '\n'
            && s[AnchorEnd(x, s) + |x.arrow|..LangEnd(x, s)] == p.lang
  {
    hide HasHash, SourceEnd;
    var s := Head(x, p) + rest;
    RegionReads(x, p, rest);
    var anchor, end := x.open + Anchor(p), "\n" + rest;
    assert s == anchor + x.arrow + (p.lang + end);
    Middle(anchor, x.arrow, p.lang + end);
    assert s == (anchor + x.arrow) + p.lang + end;
    Middle(anchor + x.arrow, p.lang, end);
    SpanPrinted(x, LangChar, anchor + x.arrow, p.lang, end);
  }

  lemma HeadStands(x: Syntax, p: Piece, rest: string)
    requires x.Sound() && p.Include? && WellFormed(x, p)
    ensures HasHeader(x, Head(x, p) + rest) && LangEnd(x, Head(x, p) + rest) + 1 == |Head(x, p)|
  {
    SourceReads(x, p, rest);
    RegionReads(x, p, rest);
    LangReads(x, p, rest);
    hide SourceEnd, AnchorEnd, LangEnd, AllIn, HasHash;
  }

  lemma HeaderOfIs(x: Syntax, s: string, p: Piece, body: string)
    requires HasHeader(x, s) && p.Include?
    requires s[|x.open|..SourceEnd(x, s)] == p.source && (HasHash(x, s) <==> p.region.Some?)
    requires p.region.Some? ==> s[SourceEnd(x, s) + 1..AnchorEnd(x, s)] == p.region.value
    requires s[AnchorEnd(x, s) + |x.arrow|..LangEnd(x, s)] == p.lang
    ensures HeaderOf(x, s, body) == p.(body := body)
  {
    hide SourceEnd, AnchorEnd, LangEnd, HasHash;
  }

  lemma HeadReads(x: Syntax, p: Piece, rest: string, body: string)
    requires x.Sound() && p.Include? && WellFormed(x, p)
    ensures var s := Head(x, p) + rest;
            && HasHeader(x, s) && LangEnd(x, s) + 1 == |Head(x, p)|
            && HeaderOf(x, s, body) == p.(body := body)
  {
    hide Head, SourceEnd, AnchorEnd, LangEnd, AllIn, HasHash, WellFormed, HeaderOf;
    HeadStands(x, p, rest);
    SourceReads(x, p, rest);
    RegionReads(x, p, rest);
    LangReads(x, p, rest);
    HeaderOfIs(x, Head(x, p) + rest, p, body);
  }

  lemma Cut(s: string, i: nat, j: nat)
    requires i <= j <= |s|
    ensures s[..j] == s[..i] + s[i..j]
  {
  }

  lemma Regroup(a: string, b: string, c: string, d: string)
    ensures a + b + c + d == a + (b + c + d)
  {
  }

  lemma AnchorParts(x: Syntax, s: string, p: Piece)
    requires HasHeader(x, s) && p.Include? && p == HeaderOf(x, s, p.body)
    ensures s[..AnchorEnd(x, s)] == x.open + Anchor(p)
  {
    hide SpanEnd, In, HasHash;
    var b, c := SourceEnd(x, s), AnchorEnd(x, s);
    Cut(s, |x.open|, b);
    if p.region.Some? {
      HashAt(x, s);
      Cut(s, b, b + 1);
      Cut(s, b + 1, c);
      Regroup(x.open, p.source, "#", p.region.value);
    }
  }

  lemma HashAt(x: Syntax, s: string)
    requires HasHeader(x, s) && HasHash(x, s)
    ensures SourceEnd(x, s) < AnchorEnd(x, s) && s[SourceEnd(x, s)..SourceEnd(x, s) + 1] == "#"
  {
  }

  lemma HeaderWellFormed(x: Syntax, s: string, body: string)
    requires HasHeader(x, s)
    ensures WellFormed(x, HeaderOf(x, s, body)) && HeaderOf(x, s, body).Include? && HeaderOf(x, s, body).body == body
  {
    hide In;
    SourceStops(x, s);
    LangStops(x, s);
  }

  lemma HeadParts(x: Syntax, s: string, p: Piece)
    requires HasHeader(x, s) && p.Include? && p == HeaderOf(x, s, p.body)
    ensures s[..LangEnd(x, s) + 1] == Head(x, p)
  {
    hide SpanEnd, In, Anchor;
    var c, e := AnchorEnd(x, s), LangEnd(x, s);
    AnchorParts(x, s, p);
    Cut(s, c, c + |x.arrow|);
    Cut(s, c + |x.arrow|, e);
    Cut(s, e, e + 1);
    assert s[e..e + 1] == "\n";
  }

  lemma CloseParts(x: Syntax, s: string, n: nat, at: nat)
    requires n <= at && At(s, at, x.close)
    ensures s == s[..n] + s[n..at] + (x.close + s[at + |x.close|..])
    ensures s == (s[..n] + s[n..at] + x.close) + s[at + |x.close|..]
  {
    Cut(s, n, at);
    assert s == s[..at] + s[at..at + |x.close|] + s[at + |x.close|..];
  }

  lemma BodyIsClean(x: Syntax, s: string, n: nat)
    requires x.Sound() && n <= |s| && Find(x.close, s, n) < |s|
    ensures var at := Find(x.close, s, n);
            && at + |x.close| <= |s| && Clean(x, s[n..at])
            && s == (s[..n] + s[n..at] + x.close) + s[at + |x.close|..]
  {
    var at := Find(x.close, s, n);
    CloseParts(x, s, n, at);
    CloseAfter(x, s[..n], s[n..at], x.close + s[at + |x.close|..]);
  }

  /** A match is the printed text of its include, and the rest of the document follows it. */
  lemma MatchIsText(x: Syntax, s: string)
    requires x.Sound() && MatchAt(x, s).Some?
    ensures var p := MatchAt(x, s).value;
            && p.Include? && WellFormed(x, p) && Clean(x, p.body)
            && 0 < |Text(x, p)| <= |s| && s == Text(x, p) + s[|Text(x, p)|..]
  {
    hide SourceEnd, AnchorEnd, LangEnd, HeaderOf, Head, WellFormed, SpanEnd, Find, Clean;
    var n, p := LangEnd(x, s) + 1, MatchAt(x, s).value;
    var at := Find(x.close, s, n);
    HeaderWellFormed(x, s, s[n..at]);
    HeadParts(x, s, p);
    BodyIsClean(x, s, n);
    assert |Text(x, p)| == at + |x.close|;
  }

  /** Behind a printed header, a match takes the text up to the first closing fence. */
  lemma HeadMatches(x: Syntax, p: Piece, tail: string)
    requires x.Sound() && p.Include? && WellFormed(x, p)
    ensures var s, n := Head(x, p) + tail, |Head(x, p)|;
            var at := Find(x.close, s, n);
            MatchAt(x, s) == if at == |s| then None else Some(p.(body := s[n..at]))
  {
    hide SourceEnd, AnchorEnd, LangEnd, HeaderOf, Head, WellFormed;
    var s, n := Head(x, p) + tail, |Head(x, p)|;
    HeadReads(x, p, tail, s[n..Find(x.close, s, n)]);
  }

  lemma TextMatches(x: Syntax, p: Piece, rest: string)
    requires x.Sound() && p.Include? && WellFormed(x, p)
    ensures MatchAt(x, Text(x, p) + rest) == Some(p) <==> Clean(x, p.body)
  {
    hide MatchAt, Head, WellFormed, Clean;
    var s, n := Text(x, p) + rest, |Head(x, p)|;
    assert s == Head(x, p) + (p.body + x.close + rest);
    assert s == Head(x, p) + p.body + (x.close + rest);
    var at := Find(x.close, s, n);
    assert s[n + |p.body|..n + |p.body| + |x.close|] == x.close;
    CloseAfter(x, Head(x, p), p.body, x.close + rest);
    HeadMatches(x, p, p.body + x.close + rest);
    if at == n + |p.body| {
      assert s[n..at] == p.body;
    } else {
      assert |s[n..at]| != |p.body|;
    }
  }

  // ---- The scan ----

  ghost predicate Ready(x: Syntax, pieces: seq<Piece>) {
    forall p | p in pieces :: WellFormed(x, p) && (p.Include? ==> Clean(x, p.body))
  }

  /** One step of a scan: a match, or one plain character. */
  ghost predicate Step(x: Syntax, s: string, p: Piece) {
    if MatchAt(x, s).Some? then p == MatchAt(x, s).value else s != "" && p == Plain(s[0])
  }

  lemma ScanStep(x: Syntax, s: string) returns (p: Piece, n: nat)
    requires x.Sound() && s != ""
    ensures Step(x, s, p) && n == |Text(x, p)| && 0 < n <= |s| && s == Text(x, p) + s[n..]
    ensures WellFormed(x, p) && (p.Include? ==> Clean(x, p.body))
    ensures Scan(x, s) == [p] + Scan(x, s[n..])
  {
    if MatchAt(x, s).Some? {
      MatchIsText(x, s);
      p := MatchAt(x, s).value;
    } else {
      p := Plain(s[0]);
    }
    n := |Text(x, p)|;
  }

  /** The scan loses nothing: its pieces print as the document. */
  lemma {:induction false} ScanPrints(x: Syntax, s: string)
    requires x.Sound()
    ensures Print(x, Scan(x, s)) == s
    ensures Ready(x, Scan(x, s))
    decreases |s|
  {
    if s != "" {
      var p, n := ScanStep(x, s);
      ScanPrints(x, s[n..]);
      assert ([p] + Scan(x, s[n..]))[1..] == Scan(x, s[n..]);
    }
  }

  /** Two piece lists with the same plain characters, and includes of the same sources at the same places. */
  ghost predicate SameShape(a: seq<Piece>, b: seq<Piece>) {
    |a| == |b| && forall i | 0 <= i < |a| :: SameKind(a[i], b[i])
  }

  ghost predicate SameKind(a: Piece, b: Piece) {
    match a
    case Plain(_) => b == a
    case Include(source, region, _, _) => b.Include? && b.source == source && b.region == region
  }

  /** The number of plain pieces before the first include. */
  ghost function PlainRun(pieces: seq<Piece>): nat {
    if pieces == [] || pieces[0].Include? then 0 else 1 + PlainRun(pieces[1..])
  }

  lemma PrintCons(x: Syntax, p: Piece, pieces: seq<Piece>)
    ensures Print(x, [p] + pieces) == Text(x, p) + Print(x, pieces)
  {
    assert ([p] + pieces)[1..] == pieces;
  }

  /** The two texts agree up to `k`; if more follows, one opens an include there and the other has a closing fence. */
  ghost predicate SplitsAt(x: Syntax, s: string, t: string, k: nat, more: bool) {
    && Agree(s, t, k)
    && (more ==> At(t, k, x.open) && exists q :: k <= q && At(s, q, x.close))
  }

  lemma SplitsLater(x: Syntax, c: char, s: string, t: string, k: nat, more: bool)
    requires SplitsAt(x, s, t, k, more)
    ensures SplitsAt(x, [c] + s, [c] + t, k + 1, more)
  {
    AgreeLater(c, s, t, k);
    if more {
      AtLater(c, t, k, x.open);
      var q :| k <= q && At(s, q, x.close);
      AtLater(c, s, q, x.close);
    }
  }

  /** Up to the start of the first include, two lists of one shape print the same characters. */
  lemma {:induction false} SameStart(x: Syntax, a: seq<Piece>, b: seq<Piece>)
    requires SameShape(a, b)
    ensures PlainRun(a) <= |a|
    ensures PlainRun(a) == |a| ==> a == b
    ensures SplitsAt(x, Print(x, a), Print(x, b), PlainRun(a), PlainRun(a) < |a|)
  {
    if a == [] {
    } else if a[0].Include? {
      IncludeOpens(x, a, b);
    } else {
      assert SameKind(a[0], b[0]) && SameShape(a[1..], b[1..]);
      SameStart(x, a[1..], b[1..]);
      SplitsLater(x, a[0].c, Print(x, a[1..]), Print(x, b[1..]), PlainRun(a[1..]), PlainRun(a) < |a|);
      assert a == [a[0]] + a[1..] && b == [b[0]] + b[1..];
    }
  }

  lemma IncludeOpens(x: Syntax, a: seq<Piece>, b: seq<Piece>)
    requires a != [] && b != [] && a[0].Include? && b[0].Include?
    ensures SplitsAt(x, Print(x, a), Print(x, b), 0, true)
  {
    assert Text(x, b[0])[..|x.open|] == x.open;
    assert Print(x, b)[..|x.open|] == x.open;
    var q := |Head(x, a[0]) + a[0].body|;
    assert Text(x, a[0])[q..q + |x.close|] == x.close;
    assert Print(x, a)[q..q + |x.close|] == x.close;
    assert At(Print(x, a), q, x.close);
  }

  lemma AgreeLater(c: char, s: string, t: string, k: nat)
    requires Agree(s, t, k)
    ensures Agree([c] + s, [c] + t, k + 1)
  {
  }

  lemma AtLater(c: char, s: string, q: nat, a: string)
    requires At(s, q, a)
    ensures At([c] + s, q + 1, a)
  {
    assert ([c] + s)[q + 1..q + 1 + |a|] == s[q..q + |a|];
  }

  /** A plain character that starts no include starts none after the includes behind it are filled. */
  lemma NoStraddle(x: Syntax, c: char, a: seq<Piece>, b: seq<Piece>)
    requires x.Sound() && SameShape(a, b) && MatchAt(x, [c] + Print(x, a)).None?
    ensures MatchAt(x, [c] + Print(x, b)).None?
  {
    var s, t, k := [c] + Print(x, a), [c] + Print(x, b), PlainRun(a);
    SameStart(x, a, b);
    if k < |a| && HasHeader(x, t) {
      AtLater(c, Print(x, b), k, x.open);
      if k + 1 <= LangEnd(x, t) { NoInnerOpen(x, t, k + 1); }
      HeaderLocal(x, t, s);
      var q :| k <= q && At(Print(x, a), q, x.close);
      AtLater(c, Print(x, a), q, x.close);
    }
  }

  /** What a filled scan prints scans as itself. */
  lemma {:induction false} ScanFilled(x: Syntax, s: string, filled: seq<Piece>)
    requires x.Sound() && SameShape(Scan(x, s), filled) && Ready(x, filled)
    ensures Scan(x, Print(x, filled)) == filled
    decreases |s|
  {
    if s != "" {
      var p, n := ScanStep(x, s);
      var pieces, first, rest := Scan(x, s[n..]), filled[0], filled[1..];
      assert ([p] + pieces)[1..] == pieces;
      assert SameKind(p, first) && SameShape(pieces, rest);
      ScanFilled(x, s[n..], rest);
      assert filled == [first] + rest;
      if p.Plain? {
        ScanPrints(x, s[n..]);
        assert s == [p.c] + Print(x, pieces);
        NoStraddle(x, p.c, pieces, rest);
      } else {
        TextMatches(x, first, Print(x, rest));
      }
      ScanFirst(x, first, Print(x, rest));
    }
  }

  lemma ScanFirst(x: Syntax, p: Piece, rest: string)
    requires x.Sound() && Step(x, Text(x, p) + rest, p)
    ensures Scan(x, Text(x, p) + rest) == [p] + Scan(x, rest)
  {
    var q, n := ScanStep(x, Text(x, p) + rest);
    assert (Text(x, p) + rest)[n..] == rest;
  }

  // ---- The fill ----

  lemma {:induction false} FillShape(r: Repo, pieces: seq<Piece>)
    requires FillAll(r, pieces).Ok?
    ensures SameShape(pieces, FillAll(r, pieces).value)
    ensures forall i | 0 <= i < |pieces| :: Fill(r, pieces[i]) == Ok(FillAll(r, pieces).value[i])
  {
    if pieces != [] {
      FillShape(r, pieces[1..]);
      var filled := FillAll(r, pieces).value;
      forall i | 0 <= i < |pieces| ensures Fill(r, pieces[i]) == Ok(filled[i]) {
        if i > 0 { assert pieces[i] == pieces[1..][i - 1] && filled[i] == filled[1..][i - 1]; }
      }
    }
  }

  lemma {:induction false} FillAgain(r: Repo, pieces: seq<Piece>)
    requires forall p | p in pieces :: Fill(r, p) == Ok(p)
    ensures FillAll(r, pieces) == Ok(pieces)
  {
    if pieces != [] {
      assert pieces == [pieces[0]] + pieces[1..];
      assert pieces[0] in pieces && forall p | p in pieces[1..] :: p in pieces;
      FillAgain(r, pieces[1..]);
    }
  }

  lemma LanguageIsWord(x: Syntax, source: string)
    requires FenceLanguage(source).Ok?
    ensures AllIn(x, LangChar, FenceLanguage(source).value)
  {
  }

  lemma FilledReads(r: Repo, p: Piece)
    requires Fill(r, p).Ok? && WellFormed(r.marks, p)
    requires p.Include? && Extract(r, p.source, p.region).Ok? ==> Clean(r.marks, WithNewline(Extract(r, p.source, p.region).value))
    ensures var q := Fill(r, p).value;
            WellFormed(r.marks, q) && (q.Include? ==> Clean(r.marks, q.body)) && Fill(r, q) == Ok(q)
  {
    if p.Include? { LanguageIsWord(r.marks, p.source); }
  }

  /** The filled pieces read back, where no source holds a closing fence. */
  lemma FilledIsReady(r: Repo, doc: string)
    requires r.marks.Sound() && CleanSources(r, doc) && FillAll(r, Scan(r.marks, doc)).Ok?
    ensures Ready(r.marks, FillAll(r, Scan(r.marks, doc)).value)
    ensures forall p | p in FillAll(r, Scan(r.marks, doc)).value :: Fill(r, p) == Ok(p)
  {
    var pieces, filled := Scan(r.marks, doc), FillAll(r, Scan(r.marks, doc)).value;
    FillShape(r, pieces);
    ScanPrints(r.marks, doc);
    forall p | p in filled
      ensures WellFormed(r.marks, p) && (p.Include? ==> Clean(r.marks, p.body)) && Fill(r, p) == Ok(p)
    {
      var i :| 0 <= i < |filled| && filled[i] == p;
      assert pieces[i] in pieces;
      FilledReads(r, pieces[i]);
    }
  }

  /**
   Regeneration is idempotent. The text outside the includes and the source and
   region of every include stay, and a second run changes nothing.
   */
  lemma RenderIsIdempotent(r: Repo, doc: string)
    requires r.marks.Sound() && CleanSources(r, doc) && Render(r, doc).Ok?
    ensures SameShape(Scan(r.marks, doc), Scan(r.marks, Render(r, doc).value))
    ensures Render(r, Render(r, doc).value) == Render(r, doc)
  {
    var filled := FillAll(r, Scan(r.marks, doc)).value;
    FillShape(r, Scan(r.marks, doc));
    FilledIsReady(r, doc);
    ScanFilled(r.marks, doc, filled);
    FillAgain(r, filled);
  }
}
