/** What a script block carries parses as the value, and holds nothing but safe ASCII. */
module ScriptJsonProofs {
  import opened ScriptJson

  // ---- The replacement of `<` ----

  lemma {:induction false} UnangleConcat(a: string, b: string)
    ensures Unangle(a + b) == Unangle(a) + Unangle(b)
  {
    if a == "" {
      assert a + b == b;
    } else {
      assert (a + b)[1..] == a[1..] + b;
      UnangleConcat(a[1..], b);
    }
  }

  lemma {:induction false} UnangleKeeps(s: string)
    requires '<' !in s
    ensures Unangle(s) == s
  {
    if s != "" { UnangleKeeps(s[1..]); }
  }

  predicate IsSafe(c: char) { ' ' <= c <= '~' && c != '<' }

  ghost predicate AllSafe(s: string) { forall c | c in s :: IsSafe(c) }

  lemma {:induction false} UnangleSafe(s: string)
    requires forall c | c in s :: ' ' <= c <= '~'
    ensures AllSafe(Unangle(s))
  {
    if s != "" {
      assert s[0] in s && forall c | c in s[1..] :: c in s;
      UnangleSafe(s[1..]);
    }
  }

  // ---- Characters ----

  lemma HexReads(n: nat)
    requires n < 16
    ensures HexValue(HexDigit(n)) == n && HexDigit(n) != '<' && ' ' <= HexDigit(n) <= '~'
  {
  }

  lemma HexSum(n: nat)
    requires n < 0x10000
    ensures n == n / 4096 * 4096 + n / 256 % 16 * 256 + n / 16 % 16 * 16 + n % 16
  {
    var a := n / 16;
    var b := a / 16;
    assert n == 16 * a + n % 16;
    assert b == n / 256 && a == 16 * b + a % 16;
    assert b / 16 == n / 4096 && b == 16 * (b / 16) + b % 16;
  }

  lemma CodeOf(s: string, a: nat, b: nat, c: nat, d: nat)
    requires a < 16 && b < 16 && c < 16 && d < 16 && 6 <= |s| && s[0] == '\\' && s[1] == 'u'
    requires s[2] == HexDigit(a) && s[3] == HexDigit(b) && s[4] == HexDigit(c) && s[5] == HexDigit(d)
    ensures CodeAt(s) == a * 4096 + b * 256 + c * 16 + d
  {
    HexReads(a);
    HexReads(b);
    HexReads(c);
    HexReads(d);
  }

  lemma Hex4Reads(n: nat, rest: string)
    requires n < 0x10000
    ensures CodeAt("\\u" + Hex4(n) + rest) == n
    ensures ("\\u" + Hex4(n) + rest)[6..] == rest
  {
    var s := "\\u" + Hex4(n) + rest;
    var a, b, c, d := n / 4096, n / 256 % 16, n / 16 % 16, n % 16;
    assert s[2..6] == Hex4(n);
    CodeOf(s, a, b, c, d) by {
      assert s[2] == s[2..6][0] && s[3] == s[2..6][1] && s[4] == s[2..6][2] && s[5] == s[2..6][3];
    }
    HexSum(n);
  }

  lemma Hex4Safe(n: nat)
    requires n < 0x10000
    ensures '<' !in Hex4(n)
  {
    HexReads(n / 4096);
    HexReads(n / 256 % 16);
    HexReads(n / 16 % 16);
    HexReads(n % 16);
  }

  lemma CodeReads(n: nat, rest: string)
    requires 0x7E < n < 0xD800 || 0xDFFF < n < 0x110000 || n < 0x20 || n == '<' as nat
    ensures ParseCode(EscapeCode(n) + rest) == Done(n as char, rest)
    ensures '<' !in EscapeCode(n) && EscapeCode(n) != "" && EscapeCode(n)[0] == '\\' && |EscapeCode(n)| > 1 && EscapeCode(n)[1] == 'u'
  {
    if n < 0x10000 {
      Hex4Reads(n, rest);
      Hex4Safe(n);
    } else {
      var hi, lo := 0xD800 + (n - 0x10000) / 1024, 0xDC00 + (n - 0x10000) % 1024;
      var low := "\\u" + Hex4(lo);
      assert EscapeCode(n) + rest == "\\u" + Hex4(hi) + (low + rest);
      Hex4Reads(hi, low + rest);
      Hex4Reads(lo, rest);
      Hex4Safe(hi);
      Hex4Safe(lo);
      assert (EscapeCode(n) + rest)[12..] == rest;
    }
  }

  lemma AngleHex()
    ensures Hex4('<' as nat) == "003c"
  {
    assert HexDigit(0) == '0' && HexDigit(3) == '3' && HexDigit(12) == 'c';
  }

  lemma AngleCode()
    ensures Unangle(Escape('<')) == EscapeCode('<' as nat)
  {
    AngleHex();
    hide Hex4;
    assert Unangle("<") == "\\u003c" + Unangle("");
  }

  lemma AngleReads(rest: string)
    ensures Unangle(Escape('<')) == EscapeCode('<' as nat)
    ensures ParseChar(EscapeCode('<' as nat) + rest) == Done('<', rest)
    ensures EscapeCode('<' as nat) != "" && EscapeCode('<' as nat)[0] != '"'
  {
    CodeReads('<' as nat, rest);
    AngleCode();
    hide ParseCode, EscapeCode;
  }

  predicate IsShort(c: char) {
    ' ' <= c <= '~' || c == '\n' || c == '\r' || c == '\t' || c == '\U{c}' || c == '\U{8}'
  }

  lemma LongReads(c: char, rest: string)
    requires !IsShort(c)
    ensures ParseChar(Escape(c) + rest) == Done(c, rest)
    ensures '<' !in Escape(c) && Escape(c) != "" && Escape(c)[0] != '"'
  {
    hide ParseCode;
    CodeReads(c as nat, rest);
    hide EscapeCode;
  }

  /** One character, escaped and without `<`, reads back. */
  lemma CharReads(c: char, rest: string)
    ensures Unangle(Escape(c)) != "" && Unangle(Escape(c))[0] != '"'
    ensures ParseChar(Unangle(Escape(c)) + rest) == Done(c, rest)
  {
    hide ParseChar, Escape, EscapeCode, Unangle;
    if c == '<' {
      AngleReads(rest);
    } else if IsShort(c) {
      ShortReads(c, rest);
      UnangleKeeps(Escape(c));
    } else {
      LongReads(c, rest);
      UnangleKeeps(Escape(c));
    }
  }

  lemma ShortReads(c: char, rest: string)
    requires c != '<' && IsShort(c)
    ensures ParseChar(Escape(c) + rest) == Done(c, rest)
    ensures '<' !in Escape(c) && Escape(c) != "" && Escape(c)[0] != '"'
  {
    if |Escape(c)| == 2 {
      assert (Escape(c) + rest)[2..] == rest;
    } else {
      assert (Escape(c) + rest)[1..] == rest;
    }
  }

  lemma {:induction false} CharsRead(s: string, rest: string)
    ensures ParseChars(Unangle(EscapeAll(s)) + ("\"" + rest)) == Done(s, rest)
  {
    var end := "\"" + rest;
    if s == "" {
      assert "" + end == end;
    } else {
      UnangleConcat(Escape(s[0]), EscapeAll(s[1..]));
      var more := Unangle(EscapeAll(s[1..])) + end;
      assert Unangle(EscapeAll(s)) + end == Unangle(Escape(s[0])) + more;
      CharReads(s[0], more);
      CharsRead(s[1..], rest);
      assert s == [s[0]] + s[1..];
    }
  }

  lemma QuoteText(s: string)
    ensures Unangle(Quote(s)) == "\"" + Unangle(EscapeAll(s)) + "\""
  {
    Brackets("\"", EscapeAll(s), "\"");
  }

  /** The text with `a` and `b` around it, where neither holds a `<`. */
  lemma Brackets(a: string, s: string, b: string)
    requires '<' !in a && '<' !in b
    ensures Unangle(a + s + b) == a + Unangle(s) + b
  {
    UnangleConcat(a + s, b);
    UnangleConcat(a, s);
    UnangleKeeps(a);
    UnangleKeeps(b);
  }

  lemma Regroup(a: string, b: string, c: string, d: string)
    ensures a + b + c + d == a + (b + (c + d))
  {
  }

  lemma QuoteReads(s: string, rest: string)
    ensures Unangle(Quote(s)) + rest == "\"" + (Unangle(EscapeAll(s)) + ("\"" + rest))
    ensures ParseChars((Unangle(Quote(s)) + rest)[1..]) == Done(s, rest)
  {
    QuoteText(s);
    var body := Unangle(EscapeAll(s));
    Regroup("\"", body, "\"", rest);
    CharsRead(s, rest);
    assert ("\"" + (body + ("\"" + rest)))[1..] == body + ("\"" + rest);
  }

  // ---- Numbers ----

  /** What can follow a printed value. */
  predicate Ends(rest: string) { rest == "" || rest[0] in ",]}" }

  lemma {:induction false} DigitsExtend(s: string, i: nat, rest: string)
    requires i <= |s| && Ends(rest)
    ensures DigitsEnd(s + rest, i) == DigitsEnd(s, i)
    decreases |s| - i
  {
    if i < |s| && IsDigit(s[i]) { DigitsExtend(s, i + 1, rest); }
  }

  lemma NumberExtends(s: string, rest: string)
    requires IsNumber(s) && Ends(rest)
    ensures NumberEnd(s + rest) == |s|
  {
    var i := if s[0] == '-' then 1 else 0;
    DigitsExtend(s, i, rest);
    assert IntEnd(s + rest) == IntEnd(s);
    FracExtends(s, IntEnd(s), rest);
    ExpExtends(s, FracEnd(s, IntEnd(s)), rest);
  }

  lemma FracExtends(s: string, i: nat, rest: string)
    requires i <= |s| && Ends(rest)
    ensures FracEnd(s + rest, i) == FracEnd(s, i)
  {
    if i + 1 <= |s| { DigitsExtend(s, i + 1, rest); }
  }

  lemma ExpExtends(s: string, i: nat, rest: string)
    requires i <= |s| && Ends(rest)
    ensures ExpEnd(s + rest, i) == ExpEnd(s, i)
  {
    if i + 1 <= |s| { DigitsExtend(s, i + 1, rest); }
    if i + 2 <= |s| { DigitsExtend(s, i + 2, rest); }
  }

  predicate IsNumberChar(c: char) { IsDigit(c) || c in "-+.eE" }

  lemma NumberChars(s: string)
    requires IsNumber(s)
    ensures forall c | c in s :: IsNumberChar(c)
    ensures s[0] == '-' || IsDigit(s[0])
  {
    var i, j := IntEnd(s), FracEnd(s, IntEnd(s));
    assert forall k | 0 <= k < i :: IsNumberChar(s[k]);
    assert forall k | i <= k < j :: IsNumberChar(s[k]);
    assert forall k | j <= k < |s| :: IsNumberChar(s[k]);
  }

  // ---- Values ----

  predicate Writable(v: Json) {
    match v
    case Number(literal) => IsNumber(literal)
    case Arr(items) => forall i | 0 <= i < |items| :: Writable(items[i])
    case Obj(members) => forall i | 0 <= i < |members| :: Writable(members[i].value)
    case _ => true
  }

  /** A printed value starts with none of the characters that a parser skips or stops at. */
  lemma Starts(v: Json)
    requires Writable(v)
    ensures var s := Unangle(Dumps(v)); s != "" && !IsWs(s[0]) && s[0] != ']' && s[0] != '}'
  {
    match v
    case Null => UnangleKeeps("null");
    case Bool(b) => UnangleKeeps(Dumps(v));
    case Number(literal) => NumberText(literal);
    case Str(s) => QuoteText(s);
    case Arr(items) => Brackets("[", DumpItems(items), "]");
    case Obj(members) => Brackets("{", DumpMembers(members), "}");
  }

  lemma NumberText(literal: string)
    requires IsNumber(literal)
    ensures Unangle(literal) == literal && (literal[0] == '-' || IsDigit(literal[0]))
  {
    NumberChars(literal);
    UnangleKeeps(literal);
  }

  lemma NotWord(word: string, s: string)
    requires word != "" && s != "" && word[0] != s[0]
    ensures !(word <= s)
  {
  }

  lemma NumberAt(t: string)
    requires t != "" && (t[0] == '-' || IsDigit(t[0])) && NumberEnd(t) != 0
    ensures ParseValue(t) == Done(Number(t[..NumberEnd(t)]), t[NumberEnd(t)..])
  {
    NotWord("null", t);
    NotWord("true", t);
    NotWord("false", t);
    assert SkipWs(t) == t;
  }

  lemma NumberReads(literal: string, rest: string)
    requires IsNumber(literal) && Ends(rest)
    ensures ParseValue(literal + rest) == Done(Number(literal), rest)
  {
    NumberText(literal);
    NumberExtends(literal, rest);
    NumberAt(literal + rest);
  }

  lemma WordReads(v: Json, rest: string)
    requires v.Null? || v.Bool?
    ensures ParseValue(Dumps(v) + rest) == Done(v, rest)
  {
    var s := Dumps(v) + rest;
    assert s[..|Dumps(v)|] == Dumps(v) && s[|Dumps(v)|..] == rest;
    assert s[0] == Dumps(v)[0];
  }

  lemma StrReads(t: string, rest: string)
    ensures ParseValue(Unangle(Quote(t)) + rest) == Done(Str(t), rest)
  {
    QuoteReads(t, rest);
    assert (Unangle(Quote(t)) + rest)[0] == '"';
  }

  lemma ScalarReads(v: Json, rest: string)
    requires Writable(v) && !v.Arr? && !v.Obj? && Ends(rest)
    ensures ParseValue(Unangle(Dumps(v)) + rest) == Done(v, rest)
  {
    match v
    case Str(t) => StrReads(t, rest);
    case Number(literal) =>
      NumberText(literal);
      NumberReads(literal, rest);
    case _ =>
      UnangleKeeps(Dumps(v));
      WordReads(v, rest);
  }

  lemma OpenArray(inner: string, close: string, rest: string)
    ensures ParseValue(("[" + inner + close) + rest) == ParseArray(inner + (close + rest))
    ensures ParseValue(("{" + inner + close) + rest) == ParseObject(inner + (close + rest))
  {
    Regroup("[", inner, close, rest);
    Regroup("{", inner, close, rest);
    assert ("[" + (inner + (close + rest)))[1..] == inner + (close + rest);
    assert ("{" + (inner + (close + rest)))[1..] == inner + (close + rest);
  }

  /** A printed value reads back, and the parser stops at its end. */
  lemma {:induction false} ValueReads(v: Json, rest: string)
    requires Writable(v) && Ends(rest)
    ensures ParseValue(Unangle(Dumps(v)) + rest) == Done(v, rest)
    decreases v, 1
  {
    match v
    case Arr(items) =>
      Brackets("[", DumpItems(items), "]");
      OpenArray(Unangle(DumpItems(items)), "]", rest);
      ArrayReads(v, rest);
    case Obj(members) =>
      Brackets("{", DumpMembers(members), "}");
      OpenArray(Unangle(DumpMembers(members)), "}", rest);
      ObjectReads(v, rest);
    case _ => ScalarReads(v, rest);
  }

  lemma {:induction false} ArrayReads(v: Json, rest: string)
    requires Writable(v) && v.Arr?
    ensures ParseArray(Unangle(DumpItems(v.items)) + ("]" + rest)) == Done(v, rest)
    decreases v, 0
  {
    if v.items == [] {
      assert "" + ("]" + rest) == "]" + rest;
    } else {
      ItemsRead(v.items, rest);
      ItemsStart(v.items);
    }
  }

  lemma ItemsText(items: seq<Json>)
    requires |items| > 1
    ensures Unangle(DumpItems(items)) == Unangle(Dumps(items[0])) + ", " + Unangle(DumpItems(items[1..]))
  {
    UnangleConcat(Dumps(items[0]) + ", ", DumpItems(items[1..]));
    UnangleConcat(Dumps(items[0]), ", ");
    UnangleKeeps(", ");
  }

  lemma ItemsStart(items: seq<Json>)
    requires items != [] && Writable(items[0])
    ensures var s := Unangle(DumpItems(items)); s != "" && !IsWs(s[0]) && s[0] != ']'
  {
    Starts(items[0]);
    if |items| > 1 { ItemsText(items); }
  }

  lemma SpaceBefore(s: string)
    ensures SkipWs(" " + s) == SkipWs(s)
    ensures ParseValue(" " + s) == ParseValue(s)
  {
    assert (" " + s)[1..] == s;
  }

  lemma Comma(s: string)
    ensures ", " + s == "," + (" " + s) && ("," + (" " + s))[1..] == " " + s
  {
  }

  lemma NextItem(first: string, v: Json, more: string, vs: seq<Json>, rest: string)
    requires ParseValue(first + ("," + (" " + more))) == Done(v, "," + (" " + more))
    requires ParseItems(more) == Done(vs, rest)
    ensures ParseItems(first + ("," + (" " + more))) == Done([v] + vs, rest)
  {
    SpaceBefore(more);
    Comma(more);
    assert ParseItems(" " + more) == ParseItems(more);
  }

  lemma LastItem(first: string, v: Json, rest: string)
    requires ParseValue(first + ("]" + rest)) == Done(v, "]" + rest)
    ensures ParseItems(first + ("]" + rest)) == Done([v], rest)
  {
    assert ("]" + rest)[1..] == rest;
  }

  lemma {:induction false} ItemsRead(items: seq<Json>, rest: string)
    requires items != [] && forall i | 0 <= i < |items| :: Writable(items[i])
    ensures ParseItems(Unangle(DumpItems(items)) + ("]" + rest)) == Done(items, rest)
    decreases items
  {
    hide Unangle, Dumps, ParseValue, ParseItems;
    var first, end := Unangle(Dumps(items[0])), "]" + rest;
    if |items| == 1 {
      ValueReads(items[0], end);
      LastItem(first, items[0], rest);
      assert items == [items[0]];
    } else {
      var tail := Unangle(DumpItems(items[1..]));
      ItemsText(items);
      hide DumpItems;
      Regroup(first, ", ", tail, end);
      Comma(tail + end);
      ValueReads(items[0], "," + (" " + (tail + end)));
      ItemsRead(items[1..], rest);
      NextItem(first, items[0], tail + end, items[1..], rest);
      assert items == [items[0]] + items[1..];
    }
  }

  lemma {:induction false} ObjectReads(v: Json, rest: string)
    requires Writable(v) && v.Obj?
    ensures ParseObject(Unangle(DumpMembers(v.members)) + ("}" + rest)) == Done(v, rest)
    decreases v, 0
  {
    if v.members == [] {
      assert "" + ("}" + rest) == "}" + rest;
    } else {
      MembersRead(v.members, rest);
      MembersStart(v.members);
    }
  }

  function MemberText(m: Member): string {
    Quote(m.key) + ": " + Dumps(m.value)
  }

  lemma MemberSplits(m: Member)
    ensures Unangle(MemberText(m)) == Unangle(Quote(m.key)) + ": " + Unangle(Dumps(m.value))
  {
    UnangleConcat(Quote(m.key) + ": ", Dumps(m.value));
    UnangleConcat(Quote(m.key), ": ");
    UnangleKeeps(": ");
  }

  lemma MembersText(members: seq<Member>)
    requires |members| > 1
    ensures Unangle(DumpMembers(members)) == Unangle(MemberText(members[0])) + ", " + Unangle(DumpMembers(members[1..]))
  {
    UnangleConcat(MemberText(members[0]) + ", ", DumpMembers(members[1..]));
    UnangleConcat(MemberText(members[0]), ", ");
    UnangleKeeps(", ");
  }

  lemma KeyReads(key: string, more: string)
    ensures ParseKey(Unangle(Quote(key)) + (":" + more)) == Done(key, more)
  {
    QuoteReads(key, ":" + more);
    assert (":" + more)[1..] == more;
  }

  lemma KeySpace(s: string)
    ensures ParseKey(" " + s) == ParseKey(s)
  {
    SpaceBefore(s);
  }

  /** A key, its value and what stands behind them. */
  lemma MemberReads(m: Member, end: string)
    requires ParseValue(Unangle(Dumps(m.value)) + end) == Done(m.value, end)
    ensures var s := Unangle(MemberText(m)) + end;
            ParseKey(s).Done? && ParseKey(s).value == m.key && ParseValue(ParseKey(s).rest) == Done(m.value, end)
  {
    hide Unangle, Dumps, Quote, ParseKey, ParseValue;
    var key, value := Unangle(Quote(m.key)), Unangle(Dumps(m.value));
    MemberSplits(m);
    Regroup(key, ": ", value, end);
    assert ": " + (value + end) == ":" + (" " + (value + end));
    KeyReads(m.key, " " + (value + end));
    SpaceBefore(value + end);
  }

  lemma LastMember(m: Member, rest: string)
    requires ParseValue(Unangle(Dumps(m.value)) + ("}" + rest)) == Done(m.value, "}" + rest)
    ensures ParseMembers(Unangle(MemberText(m)) + ("}" + rest)) == Done([m], rest)
  {
    MemberReads(m, "}" + rest);
    hide Unangle, MemberText, Dumps, ParseKey, ParseValue;
    assert ("}" + rest)[1..] == rest;
  }

  lemma SpaceFirst(more: string)
    ensures ParseMembers(" " + more) == ParseMembers(more)
  {
    KeySpace(more);
    hide ParseKey, ParseValue;
  }

  lemma NextMember(m: Member, more: string, ms: seq<Member>, rest: string)
    requires ParseValue(Unangle(Dumps(m.value)) + ("," + (" " + more))) == Done(m.value, "," + (" " + more))
    requires ParseMembers(more) == Done(ms, rest)
    ensures ParseMembers(Unangle(MemberText(m)) + ("," + (" " + more))) == Done([m] + ms, rest)
  {
    hide Unangle, MemberText, Dumps, ParseKey, ParseValue;
    MemberReads(m, "," + (" " + more));
    Comma(more);
    KeySpace(more);
    SpaceFirst(more);
  }

  lemma {:induction false} MembersRead(members: seq<Member>, rest: string)
    requires members != [] && forall i | 0 <= i < |members| :: Writable(members[i].value)
    ensures ParseMembers(Unangle(DumpMembers(members)) + ("}" + rest)) == Done(members, rest)
    decreases members
  {
    hide Unangle, Dumps, Quote, ParseValue, ParseMembers;
    var first, end := Unangle(MemberText(members[0])), "}" + rest;
    if |members| == 1 {
      ValueReads(members[0].value, end);
      LastMember(members[0], rest);
      assert members == [members[0]];
    } else {
      var tail := Unangle(DumpMembers(members[1..]));
      MembersText(members);
      hide DumpMembers, MemberText;
      Regroup(first, ", ", tail, end);
      Comma(tail + end);
      ValueReads(members[0].value, "," + (" " + (tail + end)));
      MembersRead(members[1..], rest);
      NextMember(members[0], tail + end, members[1..], rest);
      hide SkipWs;
      assert members == [members[0]] + members[1..];
    }
  }

  lemma MembersStart(members: seq<Member>)
    requires members != []
    ensures var s := Unangle(DumpMembers(members)); s != "" && s[0] == '"'
  {
    QuoteText(members[0].key);
    MemberSplits(members[0]);
    if |members| > 1 { MembersText(members); }
  }

  // ---- Main results ----

  /** A parser of JSON gives back the value that a script block carries. */
  lemma ScriptReadsBack(v: Json)
    requires Writable(v)
    ensures Loads(Script(v)) == Done(v, "")
  {
    ValueReads(v, "");
    assert Script(v) + "" == Script(v);
  }

  predicate Printable(s: string) { forall c | c in s :: ' ' <= c <= '~' }

  lemma Hex4Printable(n: nat)
    requires n < 0x10000
    ensures Printable("\\u" + Hex4(n))
  {
    HexReads(n / 4096);
    HexReads(n / 256 % 16);
    HexReads(n / 16 % 16);
    HexReads(n % 16);
  }

  lemma {:induction false} EscapePrintable(s: string)
    ensures Printable(EscapeAll(s)) && Printable(Quote(s))
  {
    if s != "" {
      hide Escape;
      EscapePrintable(s[1..]);
      CharPrintable(s[0]);
    }
  }

  lemma CharPrintable(c: char)
    ensures Printable(Escape(c))
  {
    hide Hex4;
    var n := c as nat;
    if n < 0x10000 {
      Hex4Printable(n);
    } else {
      var hi, lo := 0xD800 + (n - 0x10000) / 1024, 0xDC00 + (n - 0x10000) % 1024;
      Hex4Printable(hi);
      Hex4Printable(lo);
      assert EscapeCode(n) == ("\\u" + Hex4(hi)) + ("\\u" + Hex4(lo));
    }
  }

  lemma {:induction false} DumpsPrintable(v: Json)
    requires Writable(v)
    ensures Printable(Dumps(v))
  {
    match v
    case Number(literal) => NumberChars(literal);
    case Str(s) => EscapePrintable(s);
    case Arr(items) => ItemsPrintable(items);
    case Obj(members) => MembersPrintable(members);
    case _ =>
  }

  lemma {:induction false} ItemsPrintable(items: seq<Json>)
    requires forall i | 0 <= i < |items| :: Writable(items[i])
    ensures Printable(DumpItems(items))
  {
    if items != [] {
      DumpsPrintable(items[0]);
      ItemsPrintable(items[1..]);
    }
  }

  lemma {:induction false} MembersPrintable(members: seq<Member>)
    requires forall i | 0 <= i < |members| :: Writable(members[i].value)
    ensures Printable(DumpMembers(members))
  {
    if members != [] {
      hide Quote, Dumps;
      EscapePrintable(members[0].key);
      DumpsPrintable(members[0].value);
      MembersPrintable(members[1..]);
    }
  }

  /** The text cannot close the script block: it is printable ASCII without a `<`. */
  lemma ScriptIsSafe(v: Json)
    requires Writable(v)
    ensures AllSafe(Script(v))
  {
    DumpsPrintable(v);
    UnangleSafe(Dumps(v));
  }
}
