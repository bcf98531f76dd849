/**
 A value inside a script block: the JSON text of the value with each `<`
 written as an escape, and a parser of JSON (RFC 8259) that gives the value back.
 */
module ScriptJson {
  datatype Json =
    | Null
    | Bool(b: bool)
    | Number(literal: string)
    | Str(s: string)
    | Arr(items: seq<Json>)
    | Obj(members: seq<Member>)

  datatype Member = Member(key: string, value: Json)

  // ---- The printer ----

  function HexDigit(n: nat): char
    requires n < 16
  {
    if n < 10 then '0' + n as char else 'a' + (n - 10) as char
  }

  function Hex4(n: nat): (s: string)
    requires n < 0x10000
    ensures |s| == 4
  {
    [HexDigit(n / 4096), HexDigit(n / 256 % 16), HexDigit(n / 16 % 16), HexDigit(n % 16)]
  }

  /** One character inside a string, as ASCII. */
  function Escape(c: char): string {
    if c == '"' then "\\\""
    else if c == '\\' then "\\\\"
    else if c == '\n' then "\\n"
    else if c == '\r' then "\\r"
    else if c == '\t' then "\\t"
    else if c == '\U{c}' then "\\f"
    else if c == '\U{8}' then "\\b"
    else if ' ' <= c <= '~' then [c]
    else EscapeCode(c as nat)
  }

  /** A code outside printable ASCII, as one escape or as the two of a surrogate pair. */
  function EscapeCode(n: nat): string
    requires n < 0x110000
  {
    if n < 0x10000 then "\\u" + Hex4(n)
    else "\\u" + Hex4(0xD800 + (n - 0x10000) / 1024) + "\\u" + Hex4(0xDC00 + (n - 0x10000) % 1024)
  }

  function EscapeAll(s: string): string {
    if s == "" then "" else Escape(s[0]) + EscapeAll(s[1..])
  }

  function Quote(s: string): string {
    "\"" + EscapeAll(s) + "\""
  }

  function Dumps(v: Json): string {
    match v
    case Null => "null"
    case Bool(b) => if b then "true" else "false"
    case Number(literal) => literal
    case Str(s) => Quote(s)
    case Arr(items) => "[" + DumpItems(items) + "]"
    case Obj(members) => "{" + DumpMembers(members) + "}"
  }

  function DumpItems(items: seq<Json>): string {
    if items == [] then ""
    else if |items| == 1 then Dumps(items[0])
    else Dumps(items[0]) + ", " + DumpItems(items[1..])
  }

  function DumpMembers(members: seq<Member>): string {
    if members == [] then ""
    else if |members| == 1 then Quote(members[0].key) + ": " + Dumps(members[0].value)
    else Quote(members[0].key) + ": " + Dumps(members[0].value) + ", " + DumpMembers(members[1..])
  }

  function Unangle(s: string): string {
    if s == "" then "" else (if s[0] == '<' then "\\u003c" else [s[0]]) + Unangle(s[1..])
  }

  function Script(v: Json): string {
    Unangle(Dumps(v))
  }

  // ---- The parser ----

  datatype Parsed<T> = Fail | Done(value: T, rest: string)

  predicate IsWs(c: char) { c == ' ' || c == '\t' || c == '\n' || c == '\r' }

  function SkipWs(s: string): (r: string)
    ensures |r| <= |s|
  {
    if s != "" && IsWs(s[0]) then SkipWs(s[1..]) else s
  }

  function HexValue(c: char): (n: int)
    ensures -1 <= n < 16
  {
    if '0' <= c <= '9' then c as int - '0' as int
    else if 'a' <= c <= 'f' then c as int - 'a' as int + 10
    else if 'A' <= c <= 'F' then c as int - 'A' as int + 10
    else -1
  }

  /** The code of the escape `\uXXXX` at the start of `s`, or -1. */
  function CodeAt(s: string): (n: int)
    ensures -1 <= n < 0x10000
    ensures 0 <= n ==> 6 <= |s|
  {
    if |s| < 6 || s[0] != '\\' || s[1] != 'u' then -1
    else
      var a, b, c, d := HexValue(s[2]), HexValue(s[3]), HexValue(s[4]), HexValue(s[5]);
      if a < 0 || b < 0 || c < 0 || d < 0 then -1 else a * 4096 + b * 256 + c * 16 + d
  }

  function ParseCode(s: string): (r: Parsed<char>)
    ensures r.Done? ==> |r.rest| < |s|
  {
    var n := CodeAt(s);
    if n < 0 then Fail
    else if n < 0xD800 || 0xDFFF < n then Done(n as char, s[6..])
    else
      var m := CodeAt(s[6..]);
      if 0xDC00 <= n || m < 0xDC00 || 0xDFFF < m then Fail
      else Done((0x10000 + (n - 0xD800) * 1024 + (m - 0xDC00)) as char, s[12..])
  }

  function ParseShort(c: char): Parsed<char> {
    if c == '"' || c == '\\' || c == '/' then Done(c, "")
    else if c == 'b' then Done('\U{8}', "")
    else if c == 'f' then Done('\U{c}', "")
    else if c == 'n' then Done('\n', "")
    else if c == 'r' then Done('\r', "")
    else if c == 't' then Done('\t', "")
    else Fail
  }

  /** One character of a string, plain or escaped. */
  function ParseChar(s: string): (r: Parsed<char>)
    ensures r.Done? ==> |r.rest| < |s|
  {
    if s == "" || s[0] < ' ' || s[0] == '"' then Fail
    else if s[0] != '\\' then Done(s[0], s[1..])
    else if |s| == 1 then Fail
    else if s[1] == 'u' then ParseCode(s)
    else if ParseShort(s[1]).Fail? then Fail
    else Done(ParseShort(s[1]).value, s[2..])
  }

  /** The rest of a string, past its opening quote. */
  function ParseChars(s: string): (r: Parsed<string>)
    ensures r.Done? ==> |r.rest| < |s|
    decreases |s|
  {
    if s != "" && s[0] == '"' then Done("", s[1..])
    else
      match ParseChar(s)
      case Fail => Fail
      case Done(c, t) =>
        match ParseChars(t)
        case Fail => Fail
        case Done(cs, u) => Done([c] + cs, u)
  }

  predicate IsDigit(c: char) { '0' <= c <= '9' }

  function DigitsEnd(s: string, i: nat): (e: nat)
    requires i <= |s|
    ensures i <= e <= |s|
    ensures forall k | i <= k < e :: IsDigit(s[k])
    decreases |s| - i
  {
    if i < |s| && IsDigit(s[i]) then DigitsEnd(s, i + 1) else i
  }

  /** The end of the integer part, or 0. */
  function IntEnd(s: string): (e: nat)
    ensures e <= |s|
  {
    var i := if s != "" && s[0] == '-' then 1 else 0;
    if i == |s| || !IsDigit(s[i]) then 0 else if s[i] == '0' then i + 1 else DigitsEnd(s, i)
  }

  function FracEnd(s: string, i: nat): (e: nat)
    requires i <= |s|
    ensures i <= e <= |s|
  {
    if i + 1 < |s| && s[i] == '.' && IsDigit(s[i + 1]) then DigitsEnd(s, i + 1) else i
  }

  function ExpEnd(s: string, i: nat): (e: nat)
    requires i <= |s|
    ensures i <= e <= |s|
  {
    if i == |s| || (s[i] != 'e' && s[i] != 'E') then i
    else
      var j := if i + 1 < |s| && (s[i + 1] == '+' || s[i + 1] == '-') then i + 2 else i + 1;
      if j < |s| && IsDigit(s[j]) then DigitsEnd(s, j) else i
  }

  /** The end of the longest number at the start of `s`, or 0. */
  function NumberEnd(s: string): (e: nat)
    ensures e <= |s|
  {
    if IntEnd(s) == 0 then 0 else ExpEnd(s, FracEnd(s, IntEnd(s)))
  }

  /** The literal of a number, as section 6 of RFC 8259 has it. */
  predicate IsNumber(literal: string) {
    literal != "" && NumberEnd(literal) == |literal|
  }

  function ParseValue(s: string): (r: Parsed<Json>)
    ensures r.Done? ==> |r.rest| < |s|
    decreases |s|, 2
  {
    var t := SkipWs(s);
    if t == "" then Fail
    else if t[0] == '[' then ParseArray(t[1..])
    else if t[0] == '{' then ParseObject(t[1..])
    else ParseScalar(t)
  }

  function ParseScalar(t: string): (r: Parsed<Json>)
    requires t != ""
    ensures r.Done? ==> |r.rest| < |t|
  {
    if t[0] == '"' then
      match ParseChars(t[1..])
      case Fail => Fail
      case Done(s, u) => Done(Str(s), u)
    else if "null" <= t then Done(Null, t[4..])
    else if "true" <= t then Done(Bool(true), t[4..])
    else if "false" <= t then Done(Bool(false), t[5..])
    else if NumberEnd(t) == 0 then Fail
    else Done(Number(t[..NumberEnd(t)]), t[NumberEnd(t)..])
  }

  function ParseArray(s: string): (r: Parsed<Json>)
    ensures r.Done? ==> |r.rest| < |s|
    decreases |s|, 4
  {
    var t := SkipWs(s);
    if t != "" && t[0] == ']' then Done(Arr([]), t[1..])
    else
      match ParseItems(s)
      case Fail => Fail
      case Done(items, u) => Done(Arr(items), u)
  }

  function ParseItems(s: string): (r: Parsed<seq<Json>>)
    ensures r.Done? ==> |r.rest| < |s|
    decreases |s|, 3
  {
    match ParseValue(s)
    case Fail => Fail
    case Done(v, t) =>
      var u := SkipWs(t);
      if u == "" then Fail
      else if u[0] == ']' then Done([v], u[1..])
      else if u[0] != ',' then Fail
      else
        match ParseItems(u[1..])
        case Fail => Fail
        case Done(vs, w) => Done([v] + vs, w)
  }

  function ParseObject(s: string): (r: Parsed<Json>)
    ensures r.Done? ==> |r.rest| < |s|
    decreases |s|, 5
  {
    var t := SkipWs(s);
    if t != "" && t[0] == '}' then Done(Obj([]), t[1..])
    else
      match ParseMembers(s)
      case Fail => Fail
      case Done(members, u) => Done(Obj(members), u)
  }

  /** A key with its colon. */
  function ParseKey(s: string): (r: Parsed<string>)
    ensures r.Done? ==> |r.rest| < |s|
  {
    var t := SkipWs(s);
    if t == "" || t[0] != '"' then Fail
    else
      match ParseChars(t[1..])
      case Fail => Fail
      case Done(key, u) =>
        var w := SkipWs(u);
        if w == "" || w[0] != ':' then Fail else Done(key, w[1..])
  }

  function ParseMembers(s: string): (r: Parsed<seq<Member>>)
    ensures r.Done? ==> |r.rest| < |s|
    decreases |s|, 4
  {
    match ParseKey(s)
    case Fail => Fail
    case Done(key, k) =>
      match ParseValue(k)
      case Fail => Fail
      case Done(v, t) =>
        var u := SkipWs(t);
        if u == "" then Fail
        else if u[0] == '}' then Done([Member(key, v)], u[1..])
        else if u[0] != ',' then Fail
        else
          match ParseMembers(u[1..])
          case Fail => Fail
          case Done(ms, w) => Done([Member(key, v)] + ms, w)
  }

  /** The one value that a whole text holds. */
  function Loads(s: string): Parsed<Json> {
    match ParseValue(s)
    case Fail => Fail
    case Done(v, t) => if SkipWs(t) == "" then Done(v, "") else Fail
  }
}
