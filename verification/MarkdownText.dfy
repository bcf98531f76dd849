/**
 A value on one line of Markdown: whitespace normalised, then one pass of
 backslashes for markup and a second pass for what a viewer could autolink.
 */
module MarkdownText {
  import opened Blanks

  // ---- Whitespace ----

  /** The words between runs of whitespace. */
  function Words(s: string): seq<string>
    decreases |s|
  {
    if s == "" then []
    else if IsSpace(s[0]) then Words(s[1..])
    else [s[..WordEnd(s)]] + Words(s[WordEnd(s)..])
  }

  function WordEnd(s: string): (n: nat)
    ensures n <= |s|
    ensures s != "" && !IsSpace(s[0]) ==> 0 < n
    ensures forall i | 0 <= i < n :: !IsSpace(s[i])
    ensures n < |s| ==> IsSpace(s[n])
  {
    if s == "" || IsSpace(s[0]) then 0 else 1 + WordEnd(s[1..])
  }

  function JoinWords(words: seq<string>): string {
    if words == [] then ""
    else if |words| == 1 then words[0]
    else words[0] + " " + JoinWords(words[1..])
  }

  function Normalised(s: string): string {
    JoinWords(Words(s))
  }

  // ---- The two passes ----

  predicate IsMarkup(c: char) {
    || c == '\\' || c == '`' || c == '*' || c == '_' || c == '[' || c == ']' || c == '<' || c == '>'
    || c == '#' || c == '|' || c == '!' || c == '~' || c == '&'
  }

  function MarkChar(c: char): string {
    if IsMarkup(c) then ['\\', c] else [c]
  }

  function Mark(s: string): string {
    if s == "" then "" else MarkChar(s[0]) + Mark(s[1..])
  }

  predicate EndsInWww(s: string) {
    3 <= |s| && forall i | |s| - 3 <= i < |s| :: s[i] == 'w' || s[i] == 'W'
  }

  /** The character at `i` lets a viewer make an autolink. */
  predicate Links(s: string, i: nat)
    requires i < |s|
  {
    || (s[i] == ':' && "//" <= s[i + 1..])
    || (s[i] == '.' && EndsInWww(s[..i]))
    || s[i] == '@'
  }

  /** The second pass from `i`; what it looks at is its input and not what it wrote. */
  function Autolink(s: string, i: nat): string
    requires i <= |s|
    decreases |s| - i
  {
    if i == |s| then "" else (if Links(s, i) then ['\\', s[i]] else [s[i]]) + Autolink(s, i + 1)
  }

  function Text(value: string): string {
    Autolink(Mark(Normalised(value)), 0)
  }

  const MARKUP: set<char> := {'\\', '`', '*', '_', '[', ']', '<', '>', '#', '|', '!', '~', '&'}

  lemma MarkupIs(c: char)
    ensures IsMarkup(c) <==> c in MARKUP
  {
  }

  // ---- Reading Markdown ----

  /** ASCII punctuation, the characters that a backslash escapes in section 2.4 of CommonMark. */
  predicate IsPunctuation(c: char) {
    '!' <= c <= '/' || ':' <= c <= '@' || '[' <= c <= '`' || '{' <= c <= '~'
  }

  const PUNCTUATION: set<char> :=
    {'!', '"', '#', '$', '%', '&', '\'', '(', ')', '*', '+', ',', '-', '.', '/', ':', ';', '<', '=', '>', '?', '@',
     '[', '\\', ']', '^', '_', '`', '{', '|', '}', '~'}

  lemma PunctuationIs(c: char)
    ensures IsPunctuation(c) <==> c in PUNCTUATION
  {
  }

  datatype Unit = Unit(c: char, escaped: bool)

  /** The characters of a text, and which of them a backslash escapes. */
  function Units(s: string): seq<Unit>
    decreases |s|
  {
    if s == "" then []
    else if s[0] == '\\' && 1 < |s| && IsPunctuation(s[1]) then [Unit(s[1], true)] + Units(s[2..])
    else [Unit(s[0], false)] + Units(s[1..])
  }

  // ---- One pass that says what the two do ----

  predicate Active(s: string, i: nat)
    requires i < |s|
  {
    IsMarkup(s[i]) || Links(s, i)
  }

  function EscapeActive(s: string, i: nat): string
    requires i <= |s|
    decreases |s| - i
  {
    if i == |s| then "" else (if Active(s, i) then ['\\', s[i]] else [s[i]]) + EscapeActive(s, i + 1)
  }

  lemma {:induction false} MarkConcat(a: string, b: string)
    ensures Mark(a + b) == Mark(a) + Mark(b)
  {
    if a == "" {
      assert a + b == b;
    } else {
      assert (a + b)[1..] == a[1..] + b;
      MarkConcat(a[1..], b);
    }
  }

  lemma MarkOne(c: char)
    ensures Mark([c]) == MarkChar(c)
  {
    assert [c][1..] == "";
  }

  lemma MarkLast(s: string)
    requires s != ""
    ensures Mark(s) == Mark(s[..|s| - 1]) + MarkChar(s[|s| - 1])
  {
    var n := |s| - 1;
    assert s == s[..n] + [s[n]];
    MarkConcat(s[..n], [s[n]]);
    MarkOne(s[n]);
  }

  lemma MarkSlashes(s: string)
    ensures "//" <= Mark(s) <==> "//" <= s
  {
    if s != "" && s[0] == '/' {
      assert Mark(s) == "/" + Mark(s[1..]);
      if |s| > 1 {
        assert Mark(s[1..]) == MarkChar(s[1]) + Mark(s[1..][1..]);
      } else {
        assert s[1..] == "";
      }
    } else if s != "" {
      assert Mark(s)[0] == MarkChar(s[0])[0] != "//"[0];
    }
  }

  function CountW(s: string): nat {
    if s != "" && (s[|s| - 1] == 'w' || s[|s| - 1] == 'W') then 1 + CountW(s[..|s| - 1]) else 0
  }

  lemma {:induction false} CountMarked(s: string)
    ensures CountW(Mark(s)) == CountW(s)
  {
    if s != "" {
      MarkLast(s);
      var c := s[|s| - 1];
      var m := Mark(s);
      assert m[|m| - 1] == c;
      if c == 'w' || c == 'W' {
        assert m[..|m| - 1] == Mark(s[..|s| - 1]);
        CountMarked(s[..|s| - 1]);
      }
    }
  }

  lemma {:induction false} CountIsWww(s: string)
    ensures EndsInWww(s) <==> 3 <= CountW(s)
  {
    var n := |s|;
    if n >= 3 {
      var a, b := s[..n - 1], s[..n - 2];
      assert a[..n - 2] == b && b[..n - 3] == s[..n - 3];
      assert CountW(s) >= 1 <==> s[n - 1] == 'w' || s[n - 1] == 'W';
      assert CountW(a) >= 1 <==> s[n - 2] == 'w' || s[n - 2] == 'W';
      assert CountW(b) >= 1 <==> s[n - 3] == 'w' || s[n - 3] == 'W';
    } else {
      CountShort(s);
    }
  }

  lemma {:induction false} CountShort(s: string)
    ensures CountW(s) <= |s|
  {
    if s != "" { CountShort(s[..|s| - 1]); }
  }

  lemma SplitMark(s: string, i: nat)
    requires i < |s|
    ensures Mark(s) == Mark(s[..i]) + (MarkChar(s[i]) + Mark(s[i + 1..]))
  {
    assert s == s[..i] + s[i..];
    MarkConcat(s[..i], s[i..]);
    assert s[i..][1..] == s[i + 1..];
  }

  lemma WwwMarked(s: string)
    ensures EndsInWww(Mark(s)) <==> EndsInWww(s)
  {
    CountMarked(s);
    CountIsWww(s);
    CountIsWww(Mark(s));
  }

  /** The first pass hides no character from the second and gives it none to link. */
  lemma MarkKeepsLinks(s: string, i: nat)
    requires i < |s| && !IsMarkup(s[i])
    ensures var p := |Mark(s[..i])|;
            p < |Mark(s)| && Mark(s)[p] == s[i] && (Links(Mark(s), p) <==> Links(s, i))
  {
    SplitMark(s, i);
    MarkSlashes(s[i + 1..]);
    WwwMarked(s[..i]);
    hide Mark, IsMarkup, EndsInWww;
    CutAt(Mark(s), Mark(s[..i]), s[i], Mark(s[i + 1..]));
  }

  lemma CutAt(s: string, before: string, c: char, after: string)
    requires s == before + ([c] + after)
    ensures s[..|before|] == before && s[|before|] == c && s[|before| + 1..] == after
  {
  }

  lemma MarkPair(s: string, i: nat)
    requires i < |s| && IsMarkup(s[i])
    ensures var m, p := Mark(s), |Mark(s[..i])|;
            p + 1 < |m| && m[p] == '\\' && m[p + 1] == s[i] && !Links(m, p) && !Links(m, p + 1)
  {
    assert s == s[..i] + s[i..];
    MarkConcat(s[..i], s[i..]);
    assert Mark(s) == Mark(s[..i]) + (['\\', s[i]] + Mark(s[i..][1..]));
  }

  lemma NextPlace(s: string, i: nat)
    requires i < |s|
    ensures |Mark(s[..i + 1])| == |Mark(s[..i])| + |MarkChar(s[i])|
  {
    MarkLast(s[..i + 1]);
    assert s[..i + 1][..i] == s[..i];
  }

  /** The two passes are one pass over the value: no pair of the first is split by the second. */
  lemma {:induction false} TwoPasses(s: string, i: nat)
    requires i <= |s|
    ensures |Mark(s[..i])| <= |Mark(s)| && Autolink(Mark(s), |Mark(s[..i])|) == EscapeActive(s, i)
    decreases |s| - i
  {
    if i == |s| {
      assert s[..i] == s;
    } else {
      TwoPasses(s, i + 1);
      NextPlace(s, i);
      if IsMarkup(s[i]) {
        MarkPair(s, i);
        PairPassed(Mark(s), |Mark(s[..i])|);
      } else {
        MarkKeepsLinks(s, i);
      }
    }
  }

  lemma PairPassed(m: string, p: nat)
    requires p + 1 < |m| && !Links(m, p) && !Links(m, p + 1)
    ensures Autolink(m, p) == [m[p], m[p + 1]] + Autolink(m, p + 2)
  {
    assert Autolink(m, p) == [m[p]] + ([m[p + 1]] + Autolink(m, p + 2));
  }

  lemma {:induction false} UnitsOf(s: string, i: nat)
    requires i <= |s|
    ensures Units(EscapeActive(s, i)) == seq(|s| - i, k requires 0 <= k < |s| - i => Unit(s[i + k], Active(s, i + k)))
    decreases |s| - i
  {
    if i < |s| {
      UnitsOf(s, i + 1);
      var rest := EscapeActive(s, i + 1);
      var all := EscapeActive(s, i);
      if Active(s, i) {
        assert all[2..] == rest;
      } else {
        assert all[1..] == rest;
      }
    }
  }

  // ---- Main results ----

  /**
   A reader that undoes backslash escapes gets the value back, with whitespace
   normalised. A character of it was escaped exactly where it starts markup or
   an autolink, so every backslash that is left starts a pair.
   */
  lemma TextReadsBack(value: string)
    ensures var n, units := Normalised(value), Units(Text(value));
            && |units| == |n|
            && forall i | 0 <= i < |n| :: units[i] == Unit(n[i], Active(n, i))
  {
    var n := Normalised(value);
    TwoPasses(n, 0);
    assert n[..0] == "";
    UnitsOf(n, 0);
  }

  // ---- What normalising keeps ----

  /** The characters that are no whitespace. */
  function Ink(s: string): string {
    if s == "" then "" else (if IsSpace(s[0]) then "" else [s[0]]) + Ink(s[1..])
  }

  /** They are exactly those of the text from `from` on, in order. */
  lemma {:induction false} InkAt(s: string, from: nat) returns (at: seq<nat>)
    requires from <= |s|
    ensures |at| == |Ink(s[from..])| && forall j, k | 0 <= j < k < |at| :: at[j] < at[k]
    ensures forall k | 0 <= k < |at| :: from <= at[k] < |s| && Ink(s[from..])[k] == s[at[k]]
    ensures forall i: nat | from <= i < |s| :: i in at <==> s[i] !in SPACES
    decreases |s| - from
  {
    at := [];
    if from < |s| {
      assert s[from..][0] == s[from] && s[from..][1..] == s[from + 1..];
      SpacesAre(s[from]);
      hide IsSpace, SPACES;
      at := InkAt(s, from + 1);
      if s[from] !in SPACES { at := [from] + at; }
    }
  }

  lemma {:induction false} InkConcat(a: string, b: string)
    ensures Ink(a + b) == Ink(a) + Ink(b)
  {
    if a == "" {
      assert a + b == b;
    } else {
      assert (a + b)[1..] == a[1..] + b;
      InkConcat(a[1..], b);
    }
  }

  ghost predicate IsWord(w: string) {
    w != "" && forall i | 0 <= i < |w| :: !IsSpace(w[i])
  }

  lemma {:induction false} WordsAreWords(s: string)
    ensures forall w | w in Words(s) :: IsWord(w)
    ensures Ink(JoinWords(Words(s))) == Ink(s)
    decreases |s|
  {
    if s != "" {
      if IsSpace(s[0]) {
        WordsAreWords(s[1..]);
      } else {
        var n := WordEnd(s);
        WordsAreWords(s[n..]);
        assert s == s[..n] + s[n..];
        InkConcat(s[..n], s[n..]);
        JoinInk(s[..n], Words(s[n..]));
        assert Words(s)[1..] == Words(s[n..]);
      }
    }
  }

  lemma JoinInk(w: string, words: seq<string>)
    ensures Ink(JoinWords([w] + words)) == Ink(w) + Ink(JoinWords(words))
  {
    assert ([w] + words)[1..] == words;
    if words != [] {
      InkConcat(w + " ", JoinWords(words));
      InkConcat(w, " ");
      assert Ink(" ") == Ink("");
    }
  }

  lemma WordThen(w: string, rest: string)
    requires IsWord(w) && (rest == "" || IsSpace(rest[0]))
    ensures Words(w + rest) == [w] + Words(rest)
  {
    WordEndIs(w, rest);
    assert (w + rest)[..|w|] == w && (w + rest)[|w|..] == rest;
  }

  lemma {:induction false} WordEndIs(w: string, rest: string)
    requires (forall i | 0 <= i < |w| :: !IsSpace(w[i])) && (rest == "" || IsSpace(rest[0]))
    ensures WordEnd(w + rest) == |w|
  {
    if w == "" {
      assert w + rest == rest;
    } else {
      assert (w + rest)[1..] == w[1..] + rest;
      WordEndIs(w[1..], rest);
    }
  }

  lemma SpaceDrops(rest: string)
    ensures Words(" " + rest) == Words(rest)
  {
    assert (" " + rest)[1..] == rest;
  }

  lemma JoinOne(words: seq<string>)
    requires words != [] && IsWord(words[0]) && Words(JoinWords(words[1..])) == words[1..]
    ensures Words(JoinWords(words)) == [words[0]] + words[1..]
  {
    var rest := JoinWords(words[1..]);
    if |words| == 1 {
      WordThen(words[0], "");
      assert words[0] + "" == words[0];
    } else {
      WordThen(words[0], " " + rest);
      SpaceDrops(rest);
      assert words[0] + " " + rest == words[0] + (" " + rest);
    }
    hide Words, IsWord;
  }

  lemma {:induction false} JoinSplits(words: seq<string>)
    requires forall w | w in words :: IsWord(w)
    ensures Words(JoinWords(words)) == words
  {
    if words != [] {
      hide Words, IsWord, JoinWords;
      assert words[0] in words && forall w | w in words[1..] :: w in words;
      JoinSplits(words[1..]);
      JoinOne(words);
      assert words == [words[0]] + words[1..];
    } else {
      assert JoinWords(words) == "";
    }
  }

  /** Normalising keeps the words and every character that is no whitespace, and does so once. */
  lemma NormalisedKeeps(s: string)
    ensures Words(Normalised(s)) == Words(s)
    ensures Ink(Normalised(s)) == Ink(s)
    ensures Normalised(Normalised(s)) == Normalised(s)
  {
    WordsAreWords(s);
    JoinSplits(Words(s));
  }
}
