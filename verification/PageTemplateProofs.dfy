/** Filling a template field by field is one simultaneous substitution, in any order. */
module PageTemplateProofs {
  import opened Results
  import opened PageTemplate

  function Chars(v: string): seq<Token> {
    if v == "" then [] else [Chr(v[0])] + Chars(v[1..])
  }

  /** The tokens with one hole replaced by the characters of a value. */
  function Sub(tokens: seq<Token>, n: string, v: string): seq<Token> {
    if tokens == [] then []
    else (if tokens[0] == Hole(n) then Chars(v) else [tokens[0]]) + Sub(tokens[1..], n, v)
  }

  /** The characters up to the first hole. */
  function Run(tokens: seq<Token>): string {
    if tokens == [] || tokens[0].Hole? then "" else [tokens[0].c] + Run(tokens[1..])
  }

  function NextHole(tokens: seq<Token>): Option<string> {
    if tokens == [] then None
    else if tokens[0].Hole? then Some(tokens[0].name)
    else NextHole(tokens[1..])
  }

  /** No placeholder starts at the first character, and none is left unfinished in front of a hole of another name. */
  ghost predicate Closed(tokens: seq<Token>, names: set<string>) {
    tokens != [] && tokens[0].Chr? ==>
      forall n | n in names ::
        && !(Placeholder(n) <= Run(tokens))
        && (NextHole(tokens).Some? && NextHole(tokens) != Some(n) ==> !(Run(tokens) <= Placeholder(n)))
  }

  ghost predicate Finished(tokens: seq<Token>, names: set<string>) {
    tokens == [] || (Closed(tokens, names) && Finished(tokens[1..], names))
  }

  ghost predicate Named(tokens: seq<Token>) {
    forall n | Hole(n) in tokens :: IsName(n)
  }

  lemma {:induction false} UnparseConcat(a: seq<Token>, b: seq<Token>)
    ensures Unparse(a + b) == Unparse(a) + Unparse(b)
  {
    if a == [] {
      assert a + b == b;
    } else {
      assert (a + b)[1..] == a[1..] + b;
      UnparseConcat(a[1..], b);
    }
  }

  lemma {:induction false} UnparseChars(v: string)
    ensures Unparse(Chars(v)) == v && forall t | t in Chars(v) :: t.Chr?
  {
    if v != "" {
      UnparseChars(v[1..]);
      assert Chars(v)[1..] == Chars(v[1..]);
    }
  }

  /** The tokens of a page print as the page. */
  lemma {:induction false} TokensPrint(s: string, names: seq<string>)
    ensures Unparse(Tokens(s, names)) == s
    ensures forall n | Hole(n) in Tokens(s, names) :: n in names
    decreases |s|
  {
    if s != "" {
      match HoleAt(s, names)
      case None =>
        TokensPrint(s[1..], names);
        assert Tokens(s, names)[1..] == Tokens(s[1..], names);
      case Some(n) =>
        TokensPrint(s[|Placeholder(n)|..], names);
        assert Tokens(s, names)[1..] == Tokens(s[|Placeholder(n)|..], names);
    }
  }

  // ---- Placeholders do not overlap ----

  lemma Comparable(a: string, b: string, s: string)
    requires a <= s && b <= s
    ensures a <= b || b <= a
  {
    if |a| <= |b| {
      assert a == s[..|a|] == b[..|a|];
    } else {
      assert b == s[..|b|] == a[..|b|];
    }
  }

  lemma PlaceholderParts(n: string)
    ensures "<!--" <= Placeholder(n)
    ensures Placeholder(n)[4..4 + |n|] == n && Placeholder(n)[4 + |n|] == '-'
  {
  }

  /** Two placeholders that start at one place are one. */
  lemma SameName(n: string, m: string, s: string)
    requires IsName(n) && IsName(m) && Placeholder(n) <= s && Placeholder(m) <= s
    ensures n == m
  {
    PlaceholderParts(n);
    PlaceholderParts(m);
    if |n| < |m| {
      DashInside(n, m, s);
    } else if |m| < |n| {
      DashInside(m, n, s);
    } else {
      assert n == s[4..4 + |n|] == m;
    }
  }

  lemma DashInside(n: string, m: string, s: string)
    requires Placeholder(n) <= s && Placeholder(m) <= s && |n| < |m|
    ensures '-' in m
  {
    assert s[4 + |n|] == Placeholder(n)[4 + |n|] == '-';
    assert m[|n|] == Placeholder(m)[4 + |n|] == s[4 + |n|];
  }

  lemma NoInnerStart(n: string, k: nat)
    requires IsName(n) && 0 < k < |Placeholder(n)|
    ensures Placeholder(n)[k] != '<'
  {
    if 4 <= k < 4 + |n| {
      assert Placeholder(n)[k] == n[k - 4];
      assert n[k - 4] in n;
    }
  }

  // ---- One replacement on tokens ----

  lemma {:induction false} SkipText(t: string, rest: string, p: string, v: string)
    requires p != "" && forall k | 0 <= k < |t| :: !(p <= t[k..] + rest)
    ensures Replace(t + rest, p, v) == t + Replace(rest, p, v)
    ensures Contains(t + rest, p) <==> Contains(rest, p)
  {
    if t == "" {
      assert t + rest == rest;
    } else {
      assert t[0..] + rest == t + rest;
      assert (t + rest)[1..] == t[1..] + rest;
      assert forall k | 0 <= k < |t[1..]| :: t[1..][k..] == t[k + 1..];
      SkipText(t[1..], rest, p, v);
    }
  }

  lemma {:induction false} RunPrints(tokens: seq<Token>)
    ensures Run(tokens) <= Unparse(tokens)
    ensures NextHole(tokens).None? ==> Run(tokens) == Unparse(tokens)
    ensures NextHole(tokens).Some? ==> |Run(tokens)| < |Unparse(tokens)| && Unparse(tokens)[|Run(tokens)|] == '<'
    ensures NextHole(tokens).Some? ==> Placeholder(NextHole(tokens).value) <= Unparse(tokens)[|Run(tokens)|..]
  {
    if tokens != [] {
      RunPrints(tokens[1..]);
      if tokens[0].Chr? {
        assert Unparse(tokens)[|Run(tokens)|..] == Unparse(tokens[1..])[|Run(tokens[1..])|..];
      } else {
        assert Unparse(tokens)[0..] == Unparse(tokens);
      }
    }
  }

  /** At a character of finished tokens no placeholder starts: it would hold the start of a hole. */
  lemma NoStart(tokens: seq<Token>, names: set<string>, n: string)
    requires tokens != [] && tokens[0].Chr? && Closed(tokens, names) && n in names && IsName(n)
    ensures !(Placeholder(n) <= Unparse(tokens))
  {
    RunPrints(tokens);
    var p, k := Placeholder(n), |Run(tokens)|;
    if p <= Unparse(tokens) {
      Comparable(p, Run(tokens), Unparse(tokens));
      if k < |p| { NoInnerStart(n, k); }
    }
  }

  lemma OtherHole(n: string, m: string, rest: string)
    requires IsName(n) && IsName(m) && n != m
    ensures forall k | 0 <= k < |Placeholder(m)| :: !(Placeholder(n) <= Placeholder(m)[k..] + rest)
  {
    forall k | 0 <= k < |Placeholder(m)| ensures !(Placeholder(n) <= Placeholder(m)[k..] + rest) {
      var s := Placeholder(m)[k..] + rest;
      if k == 0 {
        assert Placeholder(m)[0..] == Placeholder(m);
        if Placeholder(n) <= s { SameName(n, m, s); }
      } else {
        NoInnerStart(m, k);
        assert s[0] == Placeholder(m)[k];
        PlaceholderParts(n);
      }
    }
  }

  /** Replacing a placeholder in finished text fills the holes of its name and touches nothing else. */
  lemma {:induction false} ReplaceTokens(tokens: seq<Token>, names: set<string>, n: string, v: string)
    requires Finished(tokens, names) && n in names && IsName(n) && Named(tokens)
    ensures Replace(Unparse(tokens), Placeholder(n), v) == Unparse(Sub(tokens, n, v))
    ensures Contains(Unparse(tokens), Placeholder(n)) <==> Hole(n) in tokens
  {
    if tokens != [] {
      var t, rest := tokens[0], tokens[1..];
      assert tokens == [t] + rest;
      assert Named(rest) by { assert forall m | Hole(m) in rest :: Hole(m) in tokens; }
      ReplaceTokens(rest, names, n, v);
      UnparseConcat(if t == Hole(n) then Chars(v) else [t], Sub(rest, n, v));
      match t
      case Chr(c) =>
        NoStart(tokens, names, n);
        assert Unparse(tokens)[1..] == Unparse(rest);
        assert Unparse([t]) == [c];
      case Hole(m) =>
        assert Hole(m) in tokens;
        if m == n {
          assert Unparse(tokens)[|Placeholder(n)|..] == Unparse(rest);
          UnparseChars(v);
        } else {
          OtherHole(n, m, Unparse(rest));
          SkipText(Placeholder(m), Unparse(rest), Placeholder(n), v);
          assert Unparse([t]) == Placeholder(m) + "" == Placeholder(m);
        }
    }
  }

  // ---- A filled page stays finished ----

  /** No placeholder and the text of an inert value can agree. */
  lemma InertStops(v: string, rest: string, n: string)
    requires Inert(v) && v != ""
    ensures !(Placeholder(n) <= v + rest) && !(v + rest <= Placeholder(n))
  {
    var p := Placeholder(n);
    PlaceholderParts(n);
    assert v == v[0..];
    assert v <= v + rest;
    if p <= v + rest {
      assert "<!--" <= v + rest;
      Comparable("<!--", v, v + rest);
    } else if v + rest <= p {
      assert v <= p;
      Comparable("<!--", v, p);
    }
  }

  lemma CharsClosed(v: string, tokens: seq<Token>, names: set<string>)
    requires Inert(v) && v != ""
    ensures Closed(Chars(v) + tokens, names)
  {
    CharsRun(v, tokens);
    forall n | n in names ensures !(Placeholder(n) <= v + Run(tokens)) && !(v + Run(tokens) <= Placeholder(n)) {
      InertStops(v, Run(tokens), n);
    }
  }

  lemma InertTail(v: string)
    requires Inert(v) && v != ""
    ensures Inert(v[1..])
  {
    forall i | 0 <= i < |v| - 1 ensures !(v[1..][i..] <= "<!--") && !("<!--" <= v[1..][i..]) {
      assert v[1..][i..] == v[i + 1..];
    }
  }

  lemma {:induction false} CharsFinished(v: string, tokens: seq<Token>, names: set<string>)
    requires Inert(v) && Finished(tokens, names)
    ensures Finished(Chars(v) + tokens, names)
  {
    if v == "" {
      assert Chars(v) + tokens == tokens;
    } else {
      assert (Chars(v) + tokens)[1..] == Chars(v[1..]) + tokens;
      InertTail(v);
      CharsFinished(v[1..], tokens, names);
      CharsClosed(v, tokens, names);
    }
  }

  lemma {:induction false} CharsRun(v: string, tokens: seq<Token>)
    ensures Run(Chars(v) + tokens) == v + Run(tokens)
  {
    if v == "" {
      assert Chars(v) + tokens == tokens;
    } else {
      assert Chars(v) + tokens == [Chr(v[0])] + (Chars(v[1..]) + tokens);
      CharsRun(v[1..], tokens);
      RunFirst(v[0], Chars(v[1..]) + tokens);
      assert v == [v[0]] + v[1..];
    }
  }

  lemma RunFirst(c: char, rest: seq<Token>)
    ensures Run([Chr(c)] + rest) == [c] + Run(rest)
  {
    assert ([Chr(c)] + rest)[1..] == rest;
  }

  /** Filling a name changes the run at a place only where the next hole has that name. */
  lemma {:induction false} SubRun(tokens: seq<Token>, n: string, v: string)
    ensures Run(tokens) <= Run(Sub(tokens, n, v))
    ensures NextHole(tokens) != Some(n) ==> Run(Sub(tokens, n, v)) == Run(tokens) && NextHole(Sub(tokens, n, v)) == NextHole(tokens)
  {
    if tokens != [] {
      SubRun(tokens[1..], n, v);
      if tokens[0].Chr? {
        assert Sub(tokens, n, v)[1..] == Sub(tokens[1..], n, v);
      } else if tokens[0] != Hole(n) {
        assert Sub(tokens, n, v)[0] == tokens[0];
      }
    }
  }

  lemma SubClosed(tokens: seq<Token>, names: set<string>, n: string, v: string)
    requires tokens != [] && tokens[0].Chr? && Closed(tokens, names)
    ensures Closed(Sub(tokens, n, v), names - {n})
  {
    var filled := Sub(tokens, n, v);
    SubRun(tokens, n, v);
    if NextHole(tokens) == Some(n) {
      forall m | m in names - {n} ensures !(Placeholder(m) <= Run(filled)) && !(Run(filled) <= Placeholder(m)) {
        if Placeholder(m) <= Run(filled) {
          Comparable(Placeholder(m), Run(tokens), Run(filled));
        } else if Run(filled) <= Placeholder(m) {
          Prefixes(Run(tokens), Run(filled), Placeholder(m));
        }
      }
    }
  }

  lemma Prefixes(a: string, b: string, c: string)
    requires a <= b && b <= c
    ensures a <= c
  {
  }

  /** Filling a name with an inert value leaves nothing unfinished in front of a hole of another name. */
  lemma {:induction false} SubFinished(tokens: seq<Token>, names: set<string>, n: string, v: string)
    requires Finished(tokens, names) && Inert(v)
    ensures Finished(Sub(tokens, n, v), names - {n})
  {
    if tokens != [] {
      SubFinished(tokens[1..], names, n, v);
      if tokens[0] == Hole(n) {
        CharsFinished(v, Sub(tokens[1..], n, v), names - {n});
      } else {
        var filled := Sub(tokens, n, v);
        assert filled[1..] == Sub(tokens[1..], n, v);
        if tokens[0].Chr? { SubClosed(tokens, names, n, v); }
      }
    }
  }

  lemma {:induction false} SubHoles(tokens: seq<Token>, n: string, v: string)
    ensures forall m :: Hole(m) in Sub(tokens, n, v) <==> m != n && Hole(m) in tokens
  {
    if tokens != [] {
      SubHoles(tokens[1..], n, v);
      UnparseChars(v);
      assert tokens == [tokens[0]] + tokens[1..];
    }
  }

  // ---- All fields ----

  lemma {:induction false} FillConcat(a: seq<Token>, b: seq<Token>, fields: seq<Field>)
    ensures FillAtOnce(a + b, fields) == FillAtOnce(a, fields) + FillAtOnce(b, fields)
  {
    if a == [] {
      assert a + b == b;
    } else {
      assert (a + b)[1..] == a[1..] + b;
      FillConcat(a[1..], b, fields);
    }
  }

  lemma {:induction false} FillChars(v: string, fields: seq<Field>)
    ensures FillAtOnce(Chars(v), fields) == v
  {
    if v != "" {
      assert Chars(v)[1..] == Chars(v[1..]);
      FillChars(v[1..], fields);
    }
  }

  /** Filling one field and then the others at once is filling them all at once. */
  lemma {:induction false} SubThenFill(tokens: seq<Token>, fields: seq<Field>)
    requires fields != [] && Lookup(fields[1..], fields[0].name).None?
    ensures FillAtOnce(Sub(tokens, fields[0].name, fields[0].value), fields[1..]) == FillAtOnce(tokens, fields)
  {
    var f := fields[0];
    if tokens != [] {
      var head := if tokens[0] == Hole(f.name) then Chars(f.value) else [tokens[0]];
      SubThenFill(tokens[1..], fields);
      FillConcat(head, Sub(tokens[1..], f.name, f.value), fields[1..]);
      FillChars(f.value, fields[1..]);
    }
  }

  ghost predicate Distinct(fields: seq<Field>) {
    fields == [] || (Lookup(fields[1..], fields[0].name).None? && Distinct(fields[1..]))
  }

  /** The first field that has no placeholder. */
  function FirstMissing(tokens: seq<Token>, fields: seq<Field>): Option<string> {
    if fields == [] then None
    else if Hole(fields[0].name) !in tokens then Some(fields[0].name)
    else FirstMissing(tokens, fields[1..])
  }

  lemma {:induction false} MissingAfter(tokens: seq<Token>, n: string, v: string, fields: seq<Field>)
    requires Lookup(fields, n).None?
    ensures FirstMissing(Sub(tokens, n, v), fields) == FirstMissing(tokens, fields)
  {
    SubHoles(tokens, n, v);
    if fields != [] { MissingAfter(tokens, n, v, fields[1..]); }
  }

  /** Fields of their own names, with values that form no placeholder. */
  ghost predicate Fits(fields: seq<Field>, names: set<string>) {
    Distinct(fields) && forall f | f in fields :: f.name in names && IsName(f.name) && Inert(f.value)
  }

  function SetOf(names: seq<string>): set<string> { set n | n in names }

  lemma {:induction false} LookupHas(fields: seq<Field>, f: Field)
    requires f in fields
    ensures Lookup(fields, f.name).Some?
  {
    if fields[0] != f { LookupHas(fields[1..], f); }
  }

  lemma FitsRest(fields: seq<Field>, names: set<string>)
    requires fields != [] && Fits(fields, names)
    ensures Fits(fields[1..], names - {fields[0].name})
  {
    forall g | g in fields[1..] ensures g in fields && g.name != fields[0].name { LookupHas(fields[1..], g); }
  }

  lemma {:induction false} FillFinished(tokens: seq<Token>, names: set<string>, fields: seq<Field>)
    requires Finished(tokens, names) && Named(tokens) && Fits(fields, names)
    ensures FillInOrder(Unparse(tokens), fields) ==
            match FirstMissing(tokens, fields)
            case Some(n) => Err(MissingPlaceholder(n))
            case None => Ok(FillAtOnce(tokens, fields))
    decreases |fields|
  {
    if fields == [] {
      NothingToFill(tokens);
    } else {
      var f := fields[0];
      assert f in fields;
      ReplaceTokens(tokens, names, f.name, f.value);
      if Hole(f.name) in tokens {
        var filled := Sub(tokens, f.name, f.value);
        SubFinished(tokens, names, f.name, f.value);
        SubHoles(tokens, f.name, f.value);
        FitsRest(fields, names);
        FillFinished(filled, names - {f.name}, fields[1..]);
        SubThenFill(tokens, fields);
        MissingAfter(tokens, f.name, f.value, fields[1..]);
      }
    }
  }

  lemma {:induction false} NothingToFill(tokens: seq<Token>)
    ensures FillAtOnce(tokens, []) == Unparse(tokens)
  {
    if tokens != [] { NothingToFill(tokens[1..]); }
  }

  // ---- Main results ----

  lemma SeparateBehind(page: string, names: seq<string>, at: nat)
    requires Separate(page, names) && at <= |page|
    ensures Separate(page[at..], names)
  {
    forall n, m, i: nat, k: nat | n in names && m in names && n != m ensures !UnfinishedAt(page[at..], n, m, i, k) {
      if UnfinishedAt(page[at..], n, m, i, k) {
        assert page[at..][i..i + k] == page[at + i..at + i + k] && page[at..][i + k..] == page[at + i + k..];
        assert UnfinishedAt(page, n, m, at + i, k);
      }
    }
  }

  lemma HereClosed(page: string, names: seq<string>)
    requires page != "" && Separate(page, names) && HoleAt(page, names).None?
    ensures Closed(Tokens(page, names), SetOf(names))
  {
    var tokens := Tokens(page, names);
    var run := Run(tokens);
    TokensPrint(page, names);
    RunPrints(tokens);
    hide Tokens, Run, NextHole, Unparse, HoleAt, Placeholder;
    forall n | n in names ensures !(Placeholder(n) <= run) && (NextHole(tokens).Some? && NextHole(tokens) != Some(n) ==> !(run <= Placeholder(n))) {
      if Placeholder(n) <= run { Prefixes(Placeholder(n), run, page); }
      if NextHole(tokens).Some? {
        NextIsHole(tokens);
        RunUnfinished(page, run, n, NextHole(tokens).value);
      }
    }
  }

  lemma RunUnfinished(page: string, run: string, n: string, m: string)
    requires run != "" && run <= page && Placeholder(m) <= page[|run|..]
    ensures run <= Placeholder(n) && |run| < |Placeholder(n)| ==> UnfinishedAt(page, n, m, 0, |run|)
  {
    if run <= Placeholder(n) && |run| < |Placeholder(n)| {
      assert page[0..0 + |run|] == run == Placeholder(n)[..|run|];
    }
  }

  lemma {:induction false} NextIsHole(tokens: seq<Token>)
    requires NextHole(tokens).Some?
    ensures Hole(NextHole(tokens).value) in tokens
  {
    if tokens[0].Chr? { NextIsHole(tokens[1..]); }
  }

  /** The tokens of a page without a placeholder left unfinished in front of another one are finished. */
  lemma {:induction false} SeparateIsFinished(page: string, names: seq<string>)
    requires Separate(page, names)
    ensures Finished(Tokens(page, names), SetOf(names))
    decreases |page|
  {
    if page != "" {
      match HoleAt(page, names)
      case None =>
        SeparateBehind(page, names, 1);
        SeparateIsFinished(page[1..], names);
        HereClosed(page, names);
        assert Tokens(page, names)[1..] == Tokens(page[1..], names);
      case Some(n) =>
        SeparateBehind(page, names, |Placeholder(n)|);
        SeparateIsFinished(page[|Placeholder(n)|..], names);
        assert Tokens(page, names)[1..] == Tokens(page[|Placeholder(n)|..], names);
    }
  }

  /**
   Filling in order is filling at once. It fails for the first field without a
   placeholder, and no character of a value is read again.
   */
  lemma FillIsSimultaneous(page: string, names: seq<string>, fields: seq<Field>)
    requires (forall n | n in names :: IsName(n)) && Fits(fields, SetOf(names)) && Separate(page, names)
    ensures FillInOrder(page, fields) ==
            match FirstMissing(Tokens(page, names), fields)
            case Some(n) => Err(MissingPlaceholder(n))
            case None => Ok(FillAtOnce(Tokens(page, names), fields))
  {
    TokensPrint(page, names);
    SeparateIsFinished(page, names);
    FillFinished(Tokens(page, names), SetOf(names), fields);
  }

  lemma {:induction false} MissingAny(tokens: seq<Token>, fields: seq<Field>)
    ensures FirstMissing(tokens, fields).None? <==> forall n | Lookup(fields, n).Some? :: Hole(n) in tokens
  {
    if fields != [] {
      MissingAny(tokens, fields[1..]);
      assert Lookup(fields, fields[0].name).Some?;
      if Hole(fields[0].name) in tokens {
        assert forall n | Lookup(fields[1..], n).Some? :: Lookup(fields, n).Some?;
      }
    }
  }

  lemma {:induction false} FillSame(tokens: seq<Token>, a: seq<Field>, b: seq<Field>)
    requires forall n :: Lookup(a, n) == Lookup(b, n)
    ensures FillAtOnce(tokens, a) == FillAtOnce(tokens, b)
  {
    if tokens != [] { FillSame(tokens[1..], a, b); }
  }

  /** The same fields, in whatever order. */
  ghost predicate SameFields(a: seq<Field>, b: seq<Field>) {
    forall n :: Lookup(a, n) == Lookup(b, n)
  }

  /** Both orders fill the page, and alike, or neither does. */
  predicate SameFill(page: string, a: seq<Field>, b: seq<Field>) {
    && (FillInOrder(page, a).Ok? <==> FillInOrder(page, b).Ok?)
    && (FillInOrder(page, a).Ok? ==> FillInOrder(page, a) == FillInOrder(page, b))
  }

  /** The order of the fields changes neither the page nor whether there is one. */
  lemma OrderDoesNotMatter(page: string, names: seq<string>, a: seq<Field>, b: seq<Field>)
    requires (forall n | n in names :: IsName(n)) && Separate(page, names)
    requires Fits(a, SetOf(names)) && Fits(b, SetOf(names)) && SameFields(a, b)
    ensures SameFill(page, a, b)
  {
    FillIsSimultaneous(page, names, a);
    FillIsSimultaneous(page, names, b);
    MissingAny(Tokens(page, names), a);
    MissingAny(Tokens(page, names), b);
    FillSame(Tokens(page, names), a, b);
  }

  /** A value without `<` is inert, so every value in its script or markup escape is. */
  lemma PlainIsInert(v: string)
    requires '<' !in v
    ensures Inert(v)
  {
    forall i | 0 <= i < |v| ensures !(v[i..] <= "<!--") && !("<!--" <= v[i..]) {
      assert v[i..][0] == v[i] && v[i] in v;
    }
  }

  /** The script goes in before the fields, so its own placeholders are filled with them. */
  lemma ScriptComesFirst(page: string, script: string, names: seq<string>, fields: seq<Field>)
    requires forall n | n in names :: IsName(n)
    requires var p := Placeholder("script");
             Fits(fields, SetOf(names)) && Separate(Replace(page, p, script), names)
    ensures var p := Placeholder("script");
            var tokens := Tokens(Replace(page, p, script), names);
            FillInOrder(page, [Field("script", script)] + fields) ==
            if !Contains(page, p) then Err(MissingPlaceholder("script"))
            else if FirstMissing(tokens, fields).Some? then Err(MissingPlaceholder(FirstMissing(tokens, fields).value))
            else Ok(FillAtOnce(tokens, fields))
  {
    var all := [Field("script", script)] + fields;
    assert all[1..] == fields;
    FillIsSimultaneous(Replace(page, Placeholder("script"), script), names, fields);
  }

  // ---- When the order does not matter ----

  lemma {:induction false} SplitReplace(a: string, b: string, n: string, v: string)
    requires IsName(n) && b != "" && b[0] == '<'
    ensures Replace(a + b, Placeholder(n), v) == Replace(a, Placeholder(n), v) + Replace(b, Placeholder(n), v)
    decreases |a|
  {
    var p := Placeholder(n);
    if a == "" {
      assert a + b == b;
    } else {
      NotAcross(a, b, n);
      if p <= a {
        assert (a + b)[|p|..] == a[|p|..] + b;
        SplitReplace(a[|p|..], b, n, v);
      } else {
        assert (a + b)[1..] == a[1..] + b;
        SplitReplace(a[1..], b, n, v);
      }
    }
  }

  lemma NotAcross(a: string, b: string, n: string)
    requires IsName(n) && a != "" && b != "" && b[0] == '<'
    ensures Placeholder(n) <= a + b <==> Placeholder(n) <= a
  {
    var p := Placeholder(n);
    if p <= a + b && |a| < |p| {
      assert p[|a|] == (a + b)[|a|] == '<';
      NoInnerStart(n, |a|);
    }
  }

  /** A part of a placeholder holds no placeholder. */
  lemma PartStays(n: string, k: nat, q: string, v: string)
    requires IsName(n) && IsName(q) && k < |Placeholder(n)|
    ensures Replace(Placeholder(n)[..k], Placeholder(q), v) == Placeholder(n)[..k]
  {
    var u, p := Placeholder(n)[..k], Placeholder(q);
    forall i | 0 <= i < |u| ensures !(p <= u[i..] + "") {
      assert u[i..] + "" == u[i..];
      if i == 0 {
        assert u[0..] == u;
        if p <= u {
          Prefixes(p, u, Placeholder(n));
          SameName(n, q, Placeholder(n));
        }
      } else {
        NoInnerStart(n, i);
        assert u[i..][0] == Placeholder(n)[i] && p[0] == '<';
      }
    }
    SkipText(u, "", p, v);
    assert u + "" == u;
  }

  /** One replacement around an unfinished placeholder and the hole behind it. */
  lemma ReplaceAround(a: string, n: string, k: nat, m: string, c: string, q: string, v: string)
    requires IsName(n) && IsName(m) && IsName(q) && 0 < k < |Placeholder(n)|
    ensures var u, p := Placeholder(n)[..k], Placeholder(q);
            Replace(a + (u + (Placeholder(m) + c)), p, v) ==
            Replace(a, p, v) + (u + ((if q == m then v else Placeholder(m)) + Replace(c, p, v)))
  {
    var u, p, hole := Placeholder(n)[..k], Placeholder(q), Placeholder(m) + c;
    SplitReplace(a, u + hole, q, v);
    SplitReplace(u, hole, q, v);
    PartStays(n, k, q, v);
    if q == m {
      assert hole[|p|..] == c;
    } else {
      OtherHole(q, m, c);
      SkipText(Placeholder(m), c, p, v);
    }
  }

  lemma {:induction false} ContainsMiddle(a: string, p: string, c: string)
    ensures Contains(a + (p + c), p)
  {
    if a == "" {
      assert a + (p + c) == p + c;
    } else {
      assert (a + (p + c))[1..] == a[1..] + (p + c);
      ContainsMiddle(a[1..], p, c);
    }
  }

  /** A value that no placeholder can hold, start in or end in. */
  const DASHES := "-----"

  lemma DashesBreak(n: string, j: nat)
    requires IsName(n) && 0 < j && j + 5 <= |Placeholder(n)|
    ensures exists i | j <= i < j + 5 :: Placeholder(n)[i] != '-'
  {
    var p := Placeholder(n);
    assert p[1] == '!' && p[|p| - 1] == '>';
    assert forall i | 4 <= i < 4 + |n| :: p[i] == n[i - 4] && n[i - 4] in n;
    var i := if j == 1 then 1 else if n == "" then 6 else if j <= 4 then 4 else if j < 4 + |n| then j else |p| - 1;
    assert j <= i < j + 5 && p[i] != '-';
  }

  /** A text with dashes in it starts with no part of a placeholder that reaches into them. */
  lemma NotIntoDashes(n: string, j: nat, rest: string)
    requires IsName(n) && 0 < j < |Placeholder(n)|
    ensures !(Placeholder(n)[j..] <= DASHES + rest)
  {
    var p, q := Placeholder(n), Placeholder(n)[j..];
    assert p[|p| - 1] == '>';
    if |q| <= 5 {
      Mismatch(q, DASHES + rest, |q| - 1);
    } else {
      DashesBreak(n, j);
      var i :| j <= i < j + 5 && p[i] != '-';
      Mismatch(q, DASHES + rest, i - j);
    }
  }

  lemma {:induction false} EndStands(s: string, n: string, j: nat)
    requires IsName(n) && 0 < j <= |Placeholder(n)|
    requires Placeholder(n)[j..] <= Replace(s, Placeholder(n), DASHES)
    ensures Placeholder(n)[j..] <= s
    decreases |s|
  {
    var p := Placeholder(n);
    if j < |p| && s != "" {
      if p <= s {
        NotIntoDashes(n, j, Replace(s[|p|..], p, DASHES));
      } else {
        assert p[j..] == [p[j]] + p[j + 1..];
        assert p[j + 1..] <= Replace(s[1..], p, DASHES);
        EndStands(s[1..], n, j + 1);
        assert s == [s[0]] + s[1..];
      }
    }
  }

  /** Once its holes hold dashes, a name has no placeholder in the page. */
  lemma {:induction false} NoneLeft(s: string, n: string)
    requires IsName(n)
    ensures !Contains(Replace(s, Placeholder(n), DASHES), Placeholder(n))
    decreases |s|
  {
    var p := Placeholder(n);
    if s != "" {
      if p <= s {
        var rest := Replace(s[|p|..], p, DASHES);
        NoneLeft(s[|p|..], n);
        assert forall k | 0 <= k < |DASHES| :: (DASHES[k..] + rest)[0] == '-' && p[0] == '<';
        SkipText(DASHES, rest, p, "");
      } else {
        var rest := Replace(s[1..], p, DASHES);
        NoneLeft(s[1..], n);
        assert ([s[0]] + rest)[1..] == rest;
        if p <= [s[0]] + rest {
          assert p[1..] <= rest;
          EndStands(s[1..], n, 1);
        }
      }
    }
  }

  /** Two fields whose order decides: what finishes the placeholder for its hole, and dashes for the other one. */
  lemma OrderDecides(page: string, n: string, m: string, i: nat, k: nat)
    requires IsName(n) && IsName(m) && n != m && UnfinishedAt(page, n, m, i, k)
    ensures var f, g := Field(m, Placeholder(n)[k..]), Field(n, DASHES);
            !SameFill(page, [f, g], [g, f])
  {
    var p, q, v := Placeholder(n), Placeholder(m), Placeholder(n)[k..];
    var a, u, c := page[..i], p[..k], page[i + k..][|q|..];
    assert page == a + (u + (q + c));
    assert u + v == p;
    var f, g := Field(m, v), Field(n, DASHES);
    FillOne(page, f, [g]);
    FillOne(page, g, [f]);
    assert [f] + [g] == [f, g] && [g] + [f] == [g, f];

    ContainsHole(a, u, q, c);
    ReplaceAround(a, n, k, m, c, m, v);
    var first := Replace(page, q, v);
    ContainsParts(Replace(a, q, v), u, v, Replace(c, q, v));
    FillLast(first, g);
    NoneLeft(first, n);

    if Contains(page, p) {
      ReplaceAround(a, n, k, m, c, n, DASHES);
      var second := Replace(page, p, DASHES);
      var b, d := Replace(a, p, DASHES), Replace(c, p, DASHES);
      ContainsHole(b, u, q, d);
      ReplaceAround(b, n, k, m, d, m, v);
      ContainsParts(Replace(b, q, v), u, v, Replace(d, q, v));
      FillLast(second, f);
    }
  }

  lemma ContainsHole(a: string, u: string, p: string, c: string)
    ensures Contains(a + (u + (p + c)), p)
  {
    assert a + (u + (p + c)) == (a + u) + (p + c);
    ContainsMiddle(a + u, p, c);
  }

  lemma ContainsParts(a: string, u: string, v: string, c: string)
    ensures Contains(a + (u + (v + c)), u + v)
  {
    assert a + (u + (v + c)) == a + ((u + v) + c);
    ContainsMiddle(a, u + v, c);
  }

  lemma FillLast(page: string, f: Field)
    ensures Contains(page, Placeholder(f.name)) ==> FillInOrder(page, [f]) == Ok(Replace(page, Placeholder(f.name), f.value))
  {
    assert [f] + [] == [f];
    FillOne(page, f, []);
  }

  /** Whatever inert values the fields have, their order changes nothing. */
  ghost predicate OrderFree(page: string, names: seq<string>) {
    forall a, b | Fits(a, SetOf(names)) && Fits(b, SetOf(names)) && SameFields(a, b) :: SameFill(page, a, b)
  }

  /**
   The order of the fields never matters exactly where no placeholder of a name
   is left unfinished in front of one of another name.
   */
  lemma OrderFreeWhenSeparate(page: string, names: seq<string>)
    requires forall n | n in names :: IsName(n)
    ensures OrderFree(page, names) <==> Separate(page, names)
  {
    if Separate(page, names) {
      forall a, b | Fits(a, SetOf(names)) && Fits(b, SetOf(names)) && SameFields(a, b) ensures SameFill(page, a, b) {
        OrderDoesNotMatter(page, names, a, b);
      }
    }
    if OrderFree(page, names) {
      forall n, m, i: nat, k: nat | n in names && m in names && n != m ensures !UnfinishedAt(page, n, m, i, k) {
        if UnfinishedAt(page, n, m, i, k) {
          var f, g := Field(m, Placeholder(n)[k..]), Field(n, DASHES);
          OrderDecides(page, n, m, i, k);
          EndIsInert(n, k);
          PlainIsInert(DASHES);
          TwoFit(f, g, SetOf(names));
        }
      }
    }
  }

  lemma EndIsInert(n: string, k: nat)
    requires IsName(n) && 0 < k < |Placeholder(n)|
    ensures Inert(Placeholder(n)[k..])
  {
    forall i | 0 <= i < |Placeholder(n)[k..]| ensures Placeholder(n)[k..][i] != '<' { NoInnerStart(n, k + i); }
    PlainIsInert(Placeholder(n)[k..]);
  }

  lemma TwoFit(f: Field, g: Field, names: set<string>)
    requires f.name != g.name && f.name in names && g.name in names && IsName(f.name) && IsName(g.name)
    requires Inert(f.value) && Inert(g.value)
    ensures Fits([f, g], names) && Fits([g, f], names) && SameFields([f, g], [g, f])
  {
    assert [f, g][1..] == [g] && [g][1..] == [] && [g, f][1..] == [f] && [f][1..] == [];
    assert forall n :: Lookup([g], n) == if n == g.name then Some(g.value) else None;
    assert forall n :: Lookup([f], n) == if n == f.name then Some(f.value) else None;
  }

  // ---- Where a placeholder is left unfinished in front of a hole ----

  lemma Mismatch(p: string, s: string, j: nat)
    requires j < |p| && j < |s| && p[j] != s[j]
    ensures !(p <= s)
  {
  }

  /** An unfinished placeholder around another one. */
  function Around(inner: string): string { "<!--" + (Placeholder(inner) + "-->") }

  lemma InnerReplaced(v: string)
    ensures Contains(Around("a"), Placeholder("a"))
    ensures Replace(Around("a"), Placeholder("a"), v) == "<!--" + (v + "-->")
  {
    var p, rest := Placeholder("a"), Placeholder("a") + "-->";
    forall k | 0 <= k < 4 ensures !(p <= "<!--"[k..] + rest) {
      Mismatch(p, "<!--"[k..] + rest, if k == 0 then 4 else 0);
    }
    SkipText("<!--", rest, p, v);
    assert rest[|p|..] == "-->";
    assert "-->" + "" == "-->";
    forall k | 0 <= k < 3 ensures !(p <= "-->"[k..] + "") {
      Mismatch(p, "-->"[k..] + "", 0);
    }
    SkipText("-->", "", p, v);
  }

  lemma OuterMissing()
    ensures !Contains(Around("a"), Placeholder("b"))
  {
    var p, s := Placeholder("b"), Around("a");
    assert p[4] == 'b' && s[4] == '<' && s[8] == 'a';
    forall k | 0 <= k < |s| ensures !(p <= s[k..] + "") {
      Mismatch(p, s[k..] + "", if k == 0 || k == 4 then 4 else 0);
    }
    SkipText(s, "", p, "x");
    assert s + "" == s;
  }

  lemma FillOne(page: string, f: Field, rest: seq<Field>)
    ensures FillInOrder(page, [f] + rest) ==
            if Contains(page, Placeholder(f.name)) then FillInOrder(Replace(page, Placeholder(f.name), f.value), rest)
            else Err(MissingPlaceholder(f.name))
  {
    assert ([f] + rest)[1..] == rest;
  }

  lemma AlonePlaceholder(f: Field)
    ensures FillInOrder(Placeholder(f.name), [f]) == Ok(f.value)
  {
    var p := Placeholder(f.name);
    assert p[|p|..] == "" && f.value + "" == f.value;
    assert [f] + [] == [f];
    FillOne(p, f, []);
  }

  lemma AroundUnfinished()
    ensures UnfinishedAt(Around("a"), "b", "a", 0, 4)
  {
    assert Around("a")[0..0 + 4] == "<!--" == Placeholder("b")[..4];
    assert Around("a")[0 + 4..] == Placeholder("a") + "-->";
  }

  /** A hole inside an unfinished placeholder: one order fills the page, the other finds no placeholder. */
  lemma UnfinishedDependsOnOrder()
    ensures var page, a, b := Around("a"), Field("a", "b"), Field("b", "x");
            && FillInOrder(page, [a, b]) == Ok("x")
            && FillInOrder(page, [b, a]) == Err(MissingPlaceholder("b"))
            && Fits([a, b], {"a", "b"}) && Fits([b, a], {"a", "b"})
            && !Separate(page, ["a", "b"])
  {
    var a, b := Field("a", "b"), Field("b", "x");
    InnerReplaced("b");
    OuterMissing();
    assert "<!--" + ("b" + "-->") == Placeholder("b");
    assert [a] + [b] == [a, b] && [b] + [a] == [b, a];
    FillOne(Around("a"), a, [b]);
    FillOne(Around("a"), b, [a]);
    AlonePlaceholder(b);
    TwoFields(a, b);
    TwoFields(b, a);
    AroundUnfinished();
  }

  lemma TwoFields(f: Field, g: Field)
    requires f.name != g.name && {f.name, g.name} == {"a", "b"} && '<' !in f.value && '<' !in g.value
    ensures Fits([f, g], {"a", "b"})
    ensures forall n :: Lookup([f, g], n) == if n == f.name then Some(f.value) else if n == g.name then Some(g.value) else None
  {
    assert [f, g][1..] == [g] && [g][1..] == [];
    assert forall n :: Lookup([g], n) == if n == g.name then Some(g.value) else None;
    PlainIsInert(f.value);
    PlainIsInert(g.value);
    assert f.name in {"a", "b"} && g.name in {"a", "b"};
  }
}
