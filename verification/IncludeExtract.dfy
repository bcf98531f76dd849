/**
 What an include pulls out of the text of a file, and what a rendered document
 holds: said of the texts themselves.
 */
module IncludeExtract {
  import opened Results
  import opened Blanks
  import opened IncludeSync
  import opened IncludeProofs

  // ---- Characters ----

  /** The characters of a path, of a region and of a language. */
  lemma ClassesAre(x: Syntax, c: char)
    ensures var word := c in LOWER || c in UPPER || c in DIGITS || c == '_' || c in x.letters;
            && (In(x, SourceChar, c) <==> c !in SPACES && c != '#')
            && (In(x, RegionChar, c) <==> word || c in {'.', '/', '-'})
            && (In(x, LangChar, c) <==> word || c == '-')
  {
    RangesAre(c);
    SpacesAre(c);
  }

  // ---- Lines ----

  const BREAKS: set<char> :=
    {'\n', '\U{b}', '\U{c}', '\r', '\U{1c}', '\U{1d}', '\U{1e}', '\U{85}', '\U{2028}', '\U{2029}'}

  /** Text without a break, and the one break that ends it; only the last line of a text can lack one. */
  ghost predicate IsLine(line: string, last: bool) {
    exists n: nat :: EndsAt(line, n, last)
  }

  predicate EndsAt(line: string, n: nat, last: bool) {
    && n <= |line| && (forall i | 0 <= i < n :: line[i] !in BREAKS)
    && (line[n..] == "\r\n" || (|line[n..]| == 1 && line[n] in BREAKS) || (last && n == |line| > 0))
  }

  /** A carriage return and a line feed are one break. */
  predicate Splits(a: string, b: string) {
    a != "" && b != "" && a[|a| - 1] == '\r' && b[0] == '\n'
  }

  lemma BreaksAre(c: char)
    ensures IsBreak(c) <==> c in BREAKS
  {
  }

  lemma {:induction false} FirstLine(s: string)
    requires s != ""
    ensures IsLine(s[..LineSize(s)], LineSize(s) == |s|)
    ensures !Splits(s[..LineSize(s)], s[LineSize(s)..])
  {
    var n := LineSize(s);
    BreaksAre(s[0]);
    if IsBreak(s[0]) {
      assert EndsAt(s[..n], 0, n == |s|);
    } else if |s| == 1 {
      assert EndsAt(s[..n], 1, true);
    } else {
      FirstLine(s[1..]);
      var m := LineSize(s[1..]);
      hide LineSize, IsBreak, EndsAt;
      assert s[1..][..m] == s[1..n] && s[1..][m..] == s[n..];
      var k: nat :| EndsAt(s[1..n], k, n == |s|);
      assert s[..n] == [s[0]] + s[1..n];
      OneMore(s[0], s[1..n], k, n == |s|);
    }
  }

  lemma OneMore(c: char, line: string, k: nat, last: bool)
    requires c !in BREAKS && EndsAt(line, k, last)
    ensures EndsAt([c] + line, k + 1, last)
  {
    var more := [c] + line;
    assert more[k + 1..] == line[k..];
    forall i | 0 <= i < k + 1 ensures more[i] !in BREAKS { if i > 0 { assert more[i] == line[i - 1]; } }
  }

  /** The lines of a text are the text, cut behind each break and nowhere else. */
  lemma {:induction false} LinesAre(s: string)
    ensures var lines := Lines(s);
            && Join(lines) == s
            && (forall i | 0 <= i < |lines| :: IsLine(lines[i], i == |lines| - 1))
            && forall i | 0 < i < |lines| :: !Splits(lines[i - 1], lines[i])
    decreases |s|
  {
    if s != "" {
      var n := LineSize(s);
      var rest := s[n..];
      FirstLine(s);
      LinesAre(rest);
      var lines := Lines(s);
      assert lines == [s[..n]] + Lines(rest) && lines[1..] == Lines(rest);
      assert s == s[..n] + rest;
      if rest != "" {
        assert Lines(rest)[0] == rest[..LineSize(rest)] && Lines(rest)[0][0] == rest[0];
      }
      forall i | 0 <= i < |lines| ensures IsLine(lines[i], i == |lines| - 1) {
        if i > 0 { assert lines[i] == Lines(rest)[i - 1]; }
      }
      forall i | 0 < i < |lines| ensures !Splits(lines[i - 1], lines[i]) {
        if i > 1 { assert lines[i] == Lines(rest)[i - 1] && lines[i - 1] == Lines(rest)[i - 2]; }
      }
    }
  }

  lemma {:induction false} JoinConcat(a: seq<string>, b: seq<string>)
    ensures Join(a + b) == Join(a) + Join(b)
  {
    if a == [] {
      assert a + b == b;
    } else {
      assert (a + b)[1..] == a[1..] + b;
      JoinConcat(a[1..], b);
    }
  }

  // ---- Extraction ----

  /** The text is a head up to the start marker's line, the body, and a rest of blank lines before the end marker's line. */
  ghost predicate Lies(text: string, name: string, body: string, s: nat, k: nat, e: nat) {
    var lines := Lines(text);
    && IsBody(lines, name, s, k, e)
    && text == Join(lines[..s + 1]) + body + Join(lines[k..e]) + Join(lines[e..])
    && body == Join(lines[s + 1..k])
  }

  lemma JoinFour(a: seq<string>, b: seq<string>, c: seq<string>, d: seq<string>)
    ensures Join(a + (b + (c + d))) == Join(a) + Join(b) + Join(c) + Join(d)
  {
    hide Join;
    JoinConcat(a, b + (c + d));
    JoinConcat(b, c + d);
    JoinConcat(c, d);
    Grouped(Join(a), Join(b), Join(c), Join(d));
  }

  lemma CutFour(lines: seq<string>, i: nat, j: nat, k: nat)
    requires i <= j <= k <= |lines|
    ensures lines[..i] + (lines[i..j] + (lines[j..k] + lines[k..])) == lines
  {
    assert lines[j..k] + lines[k..] == lines[j..];
    assert lines[i..j] + lines[j..] == lines[i..];
  }

  lemma Grouped(a: string, b: string, c: string, d: string)
    ensures a + (b + (c + d)) == a + b + c + d
  {
    assert b + (c + d) == b + c + d;
    assert a + (b + c + d) == a + b + c + d;
  }

  lemma LiesIn(text: string, name: string, s: nat, k: nat, e: nat)
    requires IsBody(Lines(text), name, s, k, e)
    ensures Lies(text, name, Join(Lines(text)[s + 1..k]), s, k, e)
  {
    LinesAre(text);
    assert s < k <= e < |Lines(text)|;
    var lines := Lines(text);
    CutFour(lines, s + 1, k, e);
    hide Lines, Join, IsBody;
    JoinFour(lines[..s + 1], lines[s + 1..k], lines[k..e], lines[e..]);
  }

  /** The place of the only line that holds the marker. */
  ghost predicate HasOnly(text: string, marker: string) { exists i: nat :: OnlyLine(Lines(text), marker, i) }

  /**
   An include pulls in the whole text of a file, or the piece of it between the
   lines of the two markers, without the blank lines at its end. It is an error
   where the file is not there, a marker does not stand on exactly one line, or the
   end marker comes first.
   */
  lemma ExtractIs(r: Repo, source: string, region: Option<string>)
    ensures source !in r.files ==> Extract(r, source, region) == Err(CannotRead(source))
    ensures source in r.files && region == None ==> Extract(r, source, region) == Ok(r.files[source])
    ensures source in r.files && region.Some? ==>
              var text, name := r.files[source], region.value;
              match Extract(r, source, region)
              case Ok(body) => exists s: nat, k: nat, e: nat :: Lies(text, name, body, s, k, e)
              case Err(error) =>
                if HasOnly(text, "# docs-region: " + name) && HasOnly(text, "# docs-region-end: " + name)
                then error == EndsBeforeStart(source)
                     && exists s: nat, e: nat :: e < s && OnlyLine(Lines(text), "# docs-region: " + name, s) && OnlyLine(Lines(text), "# docs-region-end: " + name, e)
                else error == Markers(source)
  {
    if source in r.files && region.Some? {
      var text, name := r.files[source], region.value;
      var lines, start, end := Lines(text), "# docs-region: " + name, "# docs-region-end: " + name;
      RegionIs(source, lines, name);
      OneMarked(lines, start);
      OneMarked(lines, end);
      if Region(source, lines, name).Ok? {
        var s: nat, k: nat, e: nat :| IsBody(lines, name, s, k, e) && Region(source, lines, name) == Ok(Join(lines[s + 1..k]));
        LiesIn(text, name, s, k, e);
      } else if HasOnly(text, start) && HasOnly(text, end) {
        var s: nat :| OnlyLine(lines, start, s);
        var e: nat :| OnlyLine(lines, end, e);
        assert Marked(lines, start) == [s] && Marked(lines, end) == [e];
      }
    }
  }

  // ---- The printed include ----

  /** An include as the documents hold it. */
  lemma PrintedIs(letters: set<char>, source: string, region: Option<string>, lang: string, body: string)
    ensures Text(Includes(letters), Include(source, region, lang, body)) ==
            "<!-- docs-include: " + (match region case None => source case Some(name) => source + "#" + name)
            + " -->\n```" + lang + "\n" + body + "```\n<!-- /docs-include -->"
  {
    var anchor := match region case None => source case Some(name) => source + "#" + name;
    assert LINE + FENCE == " -->\n```" && FENCE + "\n" + MARK == "```\n<!-- /docs-include -->";
    assert Anchor(Include(source, region, lang, body)) == anchor;
    hide Anchor;
  }

  // ---- The language of a fence ----

  lemma {:induction false} LastIndexIs(s: string, c: char, i: nat)
    requires i < |s| && s[i] == c && forall j | i < j < |s| :: s[j] != c
    ensures LastIndex(s, c) == i
  {
    if i < |s| - 1 { LastIndexIs(s[..|s| - 1], c, i); }
  }

  lemma {:induction false} NoIndex(s: string, c: char)
    requires c !in s
    ensures LastIndex(s, c) == -1
  {
    if s != "" { NoIndex(s[..|s| - 1], c); }
  }

  /** A directory as it stands in front of a name. */
  predicate IsDir(dir: string) { dir == "" || dir[|dir| - 1] == '/' }

  lemma NameIs(dir: string, name: string)
    requires IsDir(dir) && name != "" && '/' !in name && name != "."
    ensures Name(dir + name) == name && Name(dir + name + "/") == name
  {
    var source := dir + name;
    var n := |source|;
    LastDash(dir, name);
    hide LastIndex;
    assert source[n - 1] == name[|name| - 1] != '/';
    assert source != "." by { assert dir == "" ==> source == name; }
    assert 1 < n ==> source[n - 2..] != "/." by {
      if 1 < n && |name| == 1 { assert source[n - 2..][1] == name[0] && (name[0] == '.' ==> name == "."); }
      if |name| > 1 { assert source[n - 2] == name[|name| - 2]; }
    }
    assert (source + "/")[..n] == source;
  }

  lemma LastDash(dir: string, name: string)
    requires IsDir(dir) && '/' !in name
    ensures LastIndex(dir + name, '/') == |dir| - 1 && (dir + name)[|dir|..] == name
  {
    var source := dir + name;
    if dir == "" {
      assert source == name;
      NoIndex(source, '/');
    } else {
      forall j | |dir| - 1 < j < |source| ensures source[j] != '/' { assert source[j] == name[j - |dir|]; }
      LastIndexIs(source, '/', |dir| - 1);
    }
  }

  lemma Extensions(ext: string)
    ensures "." + ext == ".py" <==> ext == "py"
    ensures "." + ext == ".md" <==> ext == "md"
    ensures "." + ext == ".toml" <==> ext == "toml"
  {
    assert ("." + ext)[1..] == ext;
    assert ".py"[1..] == "py" && ".md"[1..] == "md" && ".toml"[1..] == "toml";
  }

  /** The suffix is what stands from the last dot of the name on, where that dot is neither its first character nor its last. */
  lemma SuffixIs(dir: string, stem: string, ext: string)
    requires IsDir(dir) && stem != "" && '/' !in stem && ext != "" && '/' !in ext && '.' !in ext
    ensures Suffix(dir + stem + "." + ext) == "." + ext
    ensures FenceLanguage(dir + stem + "." + ext) ==
            if ext == "py" then Ok("python") else if ext == "md" then Ok("text") else if ext == "toml" then Ok("toml")
            else Err(NoLanguage(dir + stem + "." + ext))
  {
    var name := stem + "." + ext;
    DotIs(stem, ext);
    Extensions(ext);
    assert dir + stem + "." + ext == dir + name;
    hide Name, IsDir, LastIndex;
    NameIs(dir, name);
  }

  lemma DotIs(stem: string, ext: string)
    requires stem != "" && '/' !in stem && ext != "" && '/' !in ext && '.' !in ext
    ensures var name := stem + "." + ext;
            LastIndex(name, '.') == |stem| && name[|stem|..] == "." + ext && '/' !in name && name != "." && |name| == |stem| + 1 + |ext|
  {
    var name := stem + "." + ext;
    forall j | |stem| < j < |name| ensures name[j] != '.' { assert name[j] == ext[j - |stem| - 1]; }
    LastIndexIs(name, '.', |stem|);
  }

  /** A name without such a dot has no suffix, and so no language. */
  lemma NoSuffix(dir: string, name: string)
    requires IsDir(dir) && name != "" && '/' !in name && name != "."
    requires '.' !in name || (name[0] == '.' && '.' !in name[1..]) || name[|name| - 1] == '.'
    ensures Suffix(dir + name) == "" && FenceLanguage(dir + name) == Err(NoLanguage(dir + name))
  {
    NameIs(dir, name);
    if '.' !in name {
      NoIndex(name, '.');
    } else if name[|name| - 1] == '.' {
      LastIndexIs(name, '.', |name| - 1);
    } else {
      forall j | 0 < j < |name| ensures name[j] != '.' { assert name[j] == name[1..][j - 1] && name[j] in name[1..]; }
      LastIndexIs(name, '.', 0);
    }
  }

  // ---- The rendered document ----

  /** The include keeps its source and region, and holds the text pulled in, with a line break at its end. */
  ghost predicate IsFilled(r: Repo, p: Piece, q: Piece) {
    match p
    case Plain(_) => q == p
    case Include(source, region, _, _) =>
      && q.Include? && q.source == source && q.region == region
      && FenceLanguage(source) == Ok(q.lang) && Extract(r, source, region).Ok?
      && var text := Extract(r, source, region).value;
         q.body == if text != "" && text[|text| - 1] == '\n' then text else text + "\n"
  }

  /** The include cannot be filled, for this reason. */
  ghost predicate Fails(r: Repo, p: Piece, error: IncludeError) {
    p.Include? && if Extract(r, p.source, p.region).Err? then error == Extract(r, p.source, p.region).error
                  else FenceLanguage(p.source) == Err(error)
  }

  /**
   The document as found, with each include filled and every other character kept;
   or the reason of the first include that cannot be filled.
   */
  lemma RenderFills(r: Repo, doc: string) returns (filled: seq<Piece>)
    requires r.marks.Sound()
    ensures Print(r.marks, Scan(r.marks, doc)) == doc
    ensures match Render(r, doc)
            case Ok(out) =>
              && out == Print(r.marks, filled) && |filled| == |Scan(r.marks, doc)|
              && forall i | 0 <= i < |filled| :: IsFilled(r, Scan(r.marks, doc)[i], filled[i])
            case Err(error) =>
              var n, pieces := |filled|, Scan(r.marks, doc);
              && n < |pieces| && Fails(r, pieces[n], error)
              && forall i | 0 <= i < n :: IsFilled(r, pieces[i], filled[i])
  {
    ScanPrints(r.marks, doc);
    filled := FilledUpTo(r, Scan(r.marks, doc));
  }

  lemma {:induction false} FilledUpTo(r: Repo, pieces: seq<Piece>) returns (filled: seq<Piece>)
    ensures match FillAll(r, pieces)
            case Ok(all) => filled == all && |all| == |pieces| && forall i | 0 <= i < |all| :: IsFilled(r, pieces[i], all[i])
            case Err(error) =>
              && |filled| < |pieces| && Fails(r, pieces[|filled|], error)
              && forall i | 0 <= i < |filled| :: IsFilled(r, pieces[i], filled[i])
  {
    filled := [];
    if pieces != [] && Fill(r, pieces[0]).Ok? {
      hide Extract, FenceLanguage;
      filled := FilledUpTo(r, pieces[1..]);
      filled := [Fill(r, pieces[0]).value] + filled;
    }
  }
}
