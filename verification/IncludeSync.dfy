/**
 The generated code blocks of the documents: a leftmost, non-greedy
 substitution that fills each include from its source, and why filling twice
 changes nothing.
 */
module IncludeSync {
  import opened Results
  import opened Blanks

  /** The marks of an include, and the word characters beyond ASCII. */
  datatype Syntax = Syntax(open: string, arrow: string, close: string, letters: set<char>) {
    /** What the proofs need of the marks. */
    ghost predicate Sound() {
      && (forall c | c in letters :: '\U{80}' <= c)
      && 5 < |open| && open[0] == '<' && (forall i | 0 < i < |open| :: open[i] != '<')
      && (forall i | 0 < i < 4 :: !IsSpace(open[i]) && open[i] != '#') && open[4] == ' '
      && 1 < |arrow| && arrow[0] == ' ' && arrow[1] != open[5] && '<' !in arrow
      && close != "" && (forall k | 0 < k < |close| :: !(close[k..] <= close))
      && close[0] !in open && (forall k | 0 <= k < |close| && close[k] == '<' :: k + 5 < |close| && close[k + 5] != open[5])
    }
  }

  const FENCE := "```"
  const LINE := " -->\n"
  const MARK := "<!-- /docs-include -->"

  function Includes(letters: set<char>): Syntax {
    Syntax("<!-- docs-include: ", LINE + FENCE, FENCE + "\n" + MARK, letters)
  }

  /** The files by path, and the marks of an include. */
  datatype Repo = Repo(files: map<string, string>, marks: Syntax)

  // ---- Characters ----

  predicate IsWord(x: Syntax, c: char) {
    'a' <= c <= 'z' || 'A' <= c <= 'Z' || '0' <= c <= '9' || c == '_' || c in x.letters
  }

  datatype Class = SourceChar | RegionChar | LangChar

  predicate In(x: Syntax, k: Class, c: char) {
    match k
    case SourceChar => !IsSpace(c) && c != '#'
    case RegionChar => IsWord(x, c) || c == '.' || c == '/' || c == '-'
    case LangChar => IsWord(x, c) || c == '-'
  }

  /** The end of the longest run of the class in `s` from `at`. */
  function SpanEnd(x: Syntax, k: Class, s: string, at: nat): (e: nat)
    requires at <= |s|
    ensures at <= e <= |s|
    ensures forall i | at <= i < e :: In(x, k, s[i])
    ensures e < |s| ==> !In(x, k, s[e])
    decreases |s| - at
  {
    if at == |s| || !In(x, k, s[at]) then at else SpanEnd(x, k, s, at + 1)
  }

  predicate At(s: string, i: nat, a: string) {
    i + |a| <= |s| && s[i..i + |a|] == a
  }

  /** The first place of `a` in `s` from `at`, or the length of `s`. */
  function Find(a: string, s: string, at: nat): (p: nat)
    requires at <= |s|
    ensures at <= p <= |s|
    ensures p < |s| ==> At(s, p, a)
    ensures forall q | at <= q < p :: !At(s, q, a)
    decreases |s| - at
  {
    if at == |s| || At(s, at, a) then at else Find(a, s, at + 1)
  }

  // ---- One match of the pattern ----

  function SourceEnd(x: Syntax, s: string): (b: nat)
    requires |x.open| <= |s|
    ensures |x.open| <= b <= |s|
  {
    SpanEnd(x, SourceChar, s, |x.open|)
  }

  predicate HasHash(x: Syntax, s: string)
    requires |x.open| <= |s|
  {
    SourceEnd(x, s) < |s| && s[SourceEnd(x, s)] == '#'
  }

  function AnchorEnd(x: Syntax, s: string): (c: nat)
    requires |x.open| <= |s|
    ensures SourceEnd(x, s) <= c <= |s|
    ensures HasHash(x, s) ==> SourceEnd(x, s) < c
  {
    if HasHash(x, s) then SpanEnd(x, RegionChar, s, SourceEnd(x, s) + 1) else SourceEnd(x, s)
  }

  /** The end of the fence's language in `s`, before its line break. */
  function LangEnd(x: Syntax, s: string): (e: nat)
    requires |x.open| <= |s| && AnchorEnd(x, s) + |x.arrow| <= |s|
    ensures AnchorEnd(x, s) + |x.arrow| <= e <= |s|
  {
    SpanEnd(x, LangChar, s, AnchorEnd(x, s) + |x.arrow|)
  }

  /** The header of an include stands at the start of `s`, up to the line of its fence. */
  predicate HasHeader(x: Syntax, s: string) {
    && At(s, 0, x.open)
    && |x.open| < SourceEnd(x, s)
    && (HasHash(x, s) ==> SourceEnd(x, s) + 1 < AnchorEnd(x, s))
    && At(s, AnchorEnd(x, s), x.arrow)
    && LangEnd(x, s) < |s| && s[LangEnd(x, s)] == '\n'
  }

  datatype Piece =
    | Plain(c: char)
    | Include(source: string, region: Option<string>, lang: string, body: string)

  /** The include of the header at the start of `s`, with the given body. */
  function HeaderOf(x: Syntax, s: string, body: string): Piece
    requires HasHeader(x, s)
  {
    Include(s[|x.open|..SourceEnd(x, s)],
            if HasHash(x, s) then Some(s[SourceEnd(x, s) + 1..AnchorEnd(x, s)]) else None,
            s[AnchorEnd(x, s) + |x.arrow|..LangEnd(x, s)],
            body)
  }

  /** The include at the start of `s`, where the pattern matches there. */
  function MatchAt(x: Syntax, s: string): Option<Piece> {
    if !HasHeader(x, s) then None
    else
      var n := LangEnd(x, s) + 1;
      var p := Find(x.close, s, n);
      if p == |s| then None else Some(HeaderOf(x, s, s[n..p]))
  }

  function Anchor(p: Piece): string
    requires p.Include?
  {
    if p.region.Some? then p.source + "#" + p.region.value else p.source
  }

  function Head(x: Syntax, p: Piece): string
    requires p.Include?
  {
    x.open + Anchor(p) + x.arrow + p.lang + "\n"
  }

  function Text(x: Syntax, p: Piece): string {
    match p
    case Plain(c) => [c]
    case Include(_, _, _, body) => Head(x, p) + body + x.close
  }

  /** The leftmost matches of the document, one after the other, and the characters between them. */
  function Scan(x: Syntax, s: string): seq<Piece>
    decreases |s|
  {
    if s == "" then []
    else
      match MatchAt(x, s)
      case None => [Plain(s[0])] + Scan(x, s[1..])
      case Some(p) =>
        var n := |Text(x, p)|;
        if 0 < n <= |s| then [p] + Scan(x, s[n..]) else [Plain(s[0])] + Scan(x, s[1..])
  }

  function Print(x: Syntax, pieces: seq<Piece>): string {
    if pieces == [] then "" else Text(x, pieces[0]) + Print(x, pieces[1..])
  }

  // ---- Extraction ----

  datatype IncludeError = CannotRead(source: string) | Markers(source: string) | EndsBeforeStart(source: string) | NoLanguage(source: string)

  predicate IsBreak(c: char) {
    '\n' <= c <= '\r' || '\U{1c}' <= c <= '\U{1e}' || c == '\U{85}' || c == '\U{2028}' || c == '\U{2029}'
  }

  /** The length of the first line with its end. */
  function LineSize(s: string): (n: nat)
    requires s != ""
    ensures 0 < n <= |s|
  {
    if IsBreak(s[0]) then (if s[0] == '\r' && 1 < |s| && s[1] == '\n' then 2 else 1)
    else if |s| == 1 then 1
    else 1 + LineSize(s[1..])
  }

  function Lines(s: string): seq<string>
    decreases |s|
  {
    if s == "" then [] else [s[..LineSize(s)]] + Lines(s[LineSize(s)..])
  }

  function Join(lines: seq<string>): string {
    if lines == [] then "" else lines[0] + Join(lines[1..])
  }

  /** The indices of the lines that hold `marker` and nothing else. */
  function Marked(lines: seq<string>, marker: string): seq<nat> {
    if lines == [] then []
    else
      var n := |lines| - 1;
      Marked(lines[..n], marker) + (if Strip(lines[n]) == marker then [n] else [])
  }

  lemma {:induction false} MarkedAre(lines: seq<string>, marker: string)
    ensures forall i :: i in Marked(lines, marker) <==> 0 <= i < |lines| && Strip(lines[i]) == marker
    ensures forall i, j | 0 <= i < j < |Marked(lines, marker)| :: Marked(lines, marker)[i] < Marked(lines, marker)[j]
  {
    if lines != [] {
      var n := |lines| - 1;
      MarkedAre(lines[..n], marker);
      var before := Marked(lines[..n], marker);
      assert forall i | 0 <= i < |before| :: before[i] in before;
    }
  }

  function DropBlankTail(lines: seq<string>): seq<string> {
    if lines != [] && Strip(lines[|lines| - 1]) == "" then DropBlankTail(lines[..|lines| - 1]) else lines
  }

  function Region(source: string, lines: seq<string>, name: string): Result<string, IncludeError> {
    var starts, ends := Marked(lines, "# docs-region: " + name), Marked(lines, "# docs-region-end: " + name);
    MarkedAre(lines, "# docs-region: " + name);
    MarkedAre(lines, "# docs-region-end: " + name);
    if |starts| != 1 || |ends| != 1 then Err(Markers(source))
    else if ends[0] < starts[0] then Err(EndsBeforeStart(source))
    else
      assert starts[0] in starts && ends[0] in ends;
      assert ("# docs-region: " + name)[13] != ("# docs-region-end: " + name)[13];
      Ok(Join(DropBlankTail(lines[starts[0] + 1..ends[0]])))
  }

  /** The one line that holds the marker and nothing else. */
  ghost predicate OnlyLine(lines: seq<string>, marker: string, i: nat) {
    i < |lines| && Strip(lines[i]) == marker && forall j | 0 <= j < |lines| && j != i :: Strip(lines[j]) != marker
  }

  lemma {:induction false} OneMarked(lines: seq<string>, marker: string)
    ensures |Marked(lines, marker)| == 1 ==> OnlyLine(lines, marker, Marked(lines, marker)[0])
    ensures forall i: nat | OnlyLine(lines, marker, i) :: Marked(lines, marker) == [i]
  {
    MarkedAre(lines, marker);
    var marked := Marked(lines, marker);
    assert |marked| > 1 ==> marked[0] < marked[1];
    if |marked| == 1 {
      assert marked[0] in marked;
      assert forall j | j in marked :: j == marked[0];
    }
    forall i: nat | OnlyLine(lines, marker, i) ensures marked == [i] {
      assert i in marked && forall k | k in marked :: k == i;
      assert forall k | 0 <= k < |marked| :: marked[k] in marked;
    }
  }

  lemma {:induction false} TailIs(lines: seq<string>)
    ensures DropBlankTail(lines) <= lines
    ensures DropBlankTail(lines) != [] ==> Strip(DropBlankTail(lines)[|DropBlankTail(lines)| - 1]) != ""
    ensures forall i | |DropBlankTail(lines)| <= i < |lines| :: Strip(lines[i]) == ""
  {
    if lines != [] && Strip(lines[|lines| - 1]) == "" { TailIs(lines[..|lines| - 1]); }
  }

  /** The lines from `s + 1` to `k` lie between the markers, and what is left before the end marker is blank. */
  ghost predicate IsBody(lines: seq<string>, name: string, s: nat, k: nat, e: nat) {
    && OnlyLine(lines, "# docs-region: " + name, s) && OnlyLine(lines, "# docs-region-end: " + name, e)
    && s < k <= e && (s + 1 < k ==> Strip(lines[k - 1]) != "")
    && forall i | k <= i < e :: Strip(lines[i]) == ""
  }

  /**
   A region resolves exactly where each marker stands on one line, in order. It
   is the lines in between, up to the last that is not blank.
   */
  lemma {:induction false} RegionIs(source: string, lines: seq<string>, name: string)
    ensures Region(source, lines, name).Ok? <==>
              exists s: nat, e: nat :: OnlyLine(lines, "# docs-region: " + name, s) && OnlyLine(lines, "# docs-region-end: " + name, e) && s <= e
    ensures Region(source, lines, name).Ok? ==>
              exists s: nat, k: nat, e: nat :: IsBody(lines, name, s, k, e) && Region(source, lines, name) == Ok(Join(lines[s + 1..k]))
  {
    var start, end := "# docs-region: " + name, "# docs-region-end: " + name;
    OneMarked(lines, start);
    OneMarked(lines, end);
    if Region(source, lines, name).Ok? {
      var s, e := Marked(lines, start)[0], Marked(lines, end)[0];
      assert OnlyLine(lines, start, s) && OnlyLine(lines, end, e);
      assert start[13] != end[13];
      var body := lines[s + 1..e];
      TailIs(body);
      var k := s + 1 + |DropBlankTail(body)|;
      assert DropBlankTail(body) == lines[s + 1..k];
      assert forall i | k <= i < e :: lines[i] == body[i - s - 1];
      if s + 1 < k { assert lines[k - 1] == body[k - s - 2]; }
      assert IsBody(lines, name, s, k, e);
    }
  }

  /** What an include pulls in: a whole file, or one marked region of it. */
  function Extract(r: Repo, source: string, region: Option<string>): Result<string, IncludeError> {
    if source !in r.files then Err(CannotRead(source))
    else if region.None? then Ok(r.files[source])
    else Region(source, Lines(r.files[source]), region.value)
  }

  /** The source's own loop over the tail of a region. */
  method RegionBody(lines: seq<string>) returns (body: seq<string>)
    ensures body == DropBlankTail(lines)
    ensures body <= lines && (body != [] ==> Strip(body[|body| - 1]) != "")
    ensures forall i | |body| <= i < |lines| :: Strip(lines[i]) == ""
  {
    body := lines;
    while body != [] && Strip(body[|body| - 1]) == ""
      invariant body <= lines && DropBlankTail(body) == DropBlankTail(lines)
      invariant forall i | |body| <= i < |lines| :: Strip(lines[i]) == ""
    {
      body := body[..|body| - 1];
    }
  }

  function LastIndex(s: string, c: char): (i: int)
    ensures -1 <= i < |s|
  {
    if s == "" then -1 else if s[|s| - 1] == c then |s| - 1 else LastIndex(s[..|s| - 1], c)
  }

  /** The last component of a path, past any `/` and `/.` at its end. */
  function Name(source: string): string
    decreases |source|
  {
    var n := |source|;
    if 0 < n && source[n - 1] == '/' then Name(source[..n - 1])
    else if 1 < n && source[n - 2..] == "/." then Name(source[..n - 1])
    else if source == "." then ""
    else source[LastIndex(source, '/') + 1..]
  }

  function Suffix(source: string): string {
    var name := Name(source);
    var dot := LastIndex(name, '.');
    if 0 < dot < |name| - 1 then name[dot..] else ""
  }

  function FenceLanguage(source: string): Result<string, IncludeError> {
    var suffix := Suffix(source);
    if suffix == ".py" then Ok("python")
    else if suffix == ".md" then Ok("text")
    else if suffix == ".toml" then Ok("toml")
    else Err(NoLanguage(source))
  }

  // ---- Rendering ----

  function WithNewline(s: string): string {
    if s == "" || s[|s| - 1] != '\n' then s + "\n" else s
  }

  /** One piece with its body filled from its source. */
  function Fill(r: Repo, p: Piece): Result<Piece, IncludeError> {
    match p
    case Plain(_) => Ok(p)
    case Include(source, region, _, _) =>
      match Extract(r, source, region)
      case Err(e) => Err(e)
      case Ok(body) =>
        match FenceLanguage(source)
        case Err(e) => Err(e)
        case Ok(lang) => Ok(Include(source, region, lang, WithNewline(body)))
  }

  function FillAll(r: Repo, pieces: seq<Piece>): Result<seq<Piece>, IncludeError> {
    if pieces == [] then Ok([])
    else
      match Fill(r, pieces[0])
      case Err(e) => Err(e)
      case Ok(first) =>
        match FillAll(r, pieces[1..])
        case Err(e) => Err(e)
        case Ok(rest) => Ok([first] + rest)
  }

  /** The document with each include filled from its source. */
  function Render(r: Repo, doc: string): Result<string, IncludeError> {
    match FillAll(r, Scan(r.marks, doc))
    case Err(e) => Err(e)
    case Ok(pieces) => Ok(Print(r.marks, pieces))
  }

  /** No closing fence inside the text that an include pulls in. */
  predicate Clean(x: Syntax, body: string) {
    Find(x.close, body, 0) == |body|
  }

  ghost predicate CleanSources(r: Repo, doc: string) {
    forall p | p in Scan(r.marks, doc) && p.Include? && Extract(r, p.source, p.region).Ok? ::
      Clean(r.marks, WithNewline(Extract(r, p.source, p.region).value))
  }
}
