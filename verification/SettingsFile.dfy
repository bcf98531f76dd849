/**
 The strict format of `settings.env`: one `KEY=value` line each, read and
 written as text. A missing file reads as the empty text.
 */
module SettingsFile {
  import opened Results
  import Blanks

  const MAX_VALUE_CHARS := 4096
  const KEY_PREFIX := "ANALYSIS_"

  datatype SettingsLine = SettingsLine(number: nat, variable: string, value: string)

  /** Why a text is not a `settings.env`: the line number at fault. */
  datatype FileError = NotKeyValue(number: nat) | SetAgain(number: nat)

  predicate IsKeyChar(c: char) {
    'A' <= c <= 'Z' || '0' <= c <= '9' || c == '_'
  }

  predicate IsKey(key: string) {
    |KEY_PREFIX| < |key| && key[..|KEY_PREFIX|] == KEY_PREFIX
    && forall i | |KEY_PREFIX| <= i < |key| :: IsKeyChar(key[i])
  }

  /**
   Control characters are not printable, and of the blanks only the space is, so
   that a value is stripped where no space starts or ends it.
   */
  predicate IsPrintable(c: char) {
    ' ' <= c && !('\U{7f}' <= c <= '\U{9f}') && (Blanks.IsSpace(c) ==> c == ' ')
  }

  /** The one value rule: what a value of `settings.env` may hold. */
  predicate IsValue(value: string) {
    && |value| <= MAX_VALUE_CHARS
    && (forall i | 0 <= i < |value| :: IsPrintable(value[i]) && value[i] != '\\' && value[i] != '$')
    && (value != "" ==>
          value[0] != ' ' && value[|value| - 1] != ' ' && value[0] != '\'' && value[0] != '"')
  }

  function Variables(lines: seq<SettingsLine>): (vars: set<string>) {
    set i | 0 <= i < |lines| :: lines[i].variable
  }

  predicate Distinct(lines: seq<SettingsLine>) {
    forall i, j | 0 <= i < j < |lines| :: lines[i].variable != lines[j].variable
  }

  /** The lines that a file may hold: numbered from one, each key once, each key and value allowed. */
  predicate Writable(lines: seq<SettingsLine>) {
    && Distinct(lines)
    && forall i | 0 <= i < |lines| ::
         lines[i].number == i + 1 && IsKey(lines[i].variable) && IsValue(lines[i].value)
  }

  /** The index of the first `c` of `s`, or the length of `s`. */
  function Find(s: string, c: char): (at: nat)
    ensures at <= |s|
    ensures forall i | 0 <= i < at :: s[i] != c
    ensures at < |s| ==> s[at] == c
  {
    if s == "" || s[0] == c then 0 else 1 + Find(s[1..], c)
  }

  /** The lines `seen` with one more line of text. */
  function ReadLine(line: string, number: nat, seen: seq<SettingsLine>): Result<seq<SettingsLine>, FileError> {
    var split := Find(line, '=');
    if line == "" then Ok(seen)
    else if split == |line| || !IsKey(line[..split]) then Err(NotKeyValue(number))
    else if line[..split] in Variables(seen) then Err(SetAgain(number))
    else Ok(seen + [SettingsLine(number, line[..split], line[split + 1..])])
  }

  /** The lines of `text`, whose first line has the number `number`, after the lines `seen`. */
  function ReadFrom(text: string, number: nat, seen: seq<SettingsLine>): Result<seq<SettingsLine>, FileError>
    decreases |text|
  {
    var end := Find(text, '\n');
    var now := ReadLine(text[..end], number, seen);
    if now.Err? || end == |text| then now else ReadFrom(text[end + 1..], number + 1, now.value)
  }

  function ReadSettings(text: string): Result<seq<SettingsLine>, FileError> {
    ReadFrom(text, 1, [])
  }

  function Print(lines: seq<SettingsLine>): string {
    if lines == [] then ""
    else lines[0].variable + "=" + lines[0].value + "\n" + Print(lines[1..])
  }

  lemma {:induction false} FindInLine(key: string, value: string, rest: string)
    requires IsKey(key) && IsValue(value)
    ensures Find(key + "=" + value + "\n" + rest, '\n') == |key| + 1 + |value|
    ensures Find(key + "=" + value, '=') == |key|
  {
    var text := key + "=" + value + "\n" + rest;
    var line := key + "=" + value;
    assert forall i | 0 <= i < |key| :: IsKeyChar(key[i]) by {
      forall i | 0 <= i < |key| ensures IsKeyChar(key[i]) {
        if i < |KEY_PREFIX| { assert key[i] == key[..|KEY_PREFIX|][i]; }
      }
    }
    assert forall i | 0 <= i < |key| :: text[i] == key[i] && line[i] == key[i];
    assert text[|key|] == '=' && line[|key|] == '=';
    assert forall i | 0 <= i < |value| :: text[|key| + 1 + i] == value[i];
    assert text[|key| + 1 + |value|] == '\n';
    assert forall i | 0 <= i < |key| + 1 + |value| :: text[i] != '\n' by {
      forall i | 0 <= i < |key| + 1 + |value| ensures text[i] != '\n' {
        if i > |key| { assert text[i] == value[i - |key| - 1]; }
      }
    }
  }

  lemma {:induction false} ReadBackFrom(lines: seq<SettingsLine>, at: nat)
    requires Writable(lines) && at <= |lines|
    ensures ReadFrom(Print(lines[at..]), at + 1, lines[..at]) == Ok(lines)
    decreases |lines| - at
  {
    if at == |lines| {
      assert lines[..at] == lines && Print(lines[at..]) == "";
    } else {
      var line := lines[at];
      var text := Print(lines[at..]);
      var rest := Print(lines[at + 1..]);
      assert lines[at..][1..] == lines[at + 1..];
      assert text == line.variable + "=" + line.value + "\n" + rest;
      FindInLine(line.variable, line.value, rest);
      var end := |line.variable| + 1 + |line.value|;
      assert text[..end] == line.variable + "=" + line.value;
      assert text[..end][..|line.variable|] == line.variable;
      assert text[..end][|line.variable| + 1..] == line.value;
      assert line.variable !in Variables(lines[..at]);
      assert lines[..at] + [line] == lines[..at + 1];
      assert text[end + 1..] == rest;
      hide IsKey, IsValue, Print, Variables;
      ReadBackFrom(lines, at + 1);
    }
  }

  /** What a save writes is what the next read gives, number by number. */
  lemma ReadsBack(lines: seq<SettingsLine>)
    requires Writable(lines)
    ensures ReadSettings(Print(lines)) == Ok(lines)
  {
    assert lines[0..] == lines;
    ReadBackFrom(lines, 0);
  }

  lemma OneMoreDistinct(seen: seq<SettingsLine>, line: SettingsLine)
    requires Distinct(seen) && line.variable !in Variables(seen)
    ensures Distinct(seen + [line])
  {
    forall i | 0 <= i < |seen| ensures seen[i].variable != line.variable {
      assert seen[i].variable in Variables(seen);
    }
  }

  ghost predicate Proper(lines: seq<SettingsLine>) {
    Distinct(lines) && forall i | 0 <= i < |lines| :: IsKey(lines[i].variable)
  }

  lemma LineStaysProper(line: string, number: nat, seen: seq<SettingsLine>)
    requires Proper(seen) && ReadLine(line, number, seen).Ok?
    ensures Proper(ReadLine(line, number, seen).value)
  {
    hide IsKey;
    if line != "" {
      var split := Find(line, '=');
      OneMoreDistinct(seen, SettingsLine(number, line[..split], line[split + 1..]));
    }
  }

  /** A text that reads holds each variable once, and only variables of the key form. */
  lemma {:induction false} ReadsDistinct(text: string, number: nat, seen: seq<SettingsLine>)
    requires Distinct(seen) && forall i | 0 <= i < |seen| :: IsKey(seen[i].variable)
    ensures ReadFrom(text, number, seen).Ok? ==>
              var lines := ReadFrom(text, number, seen).value;
              Distinct(lines) && forall i | 0 <= i < |lines| :: IsKey(lines[i].variable)
    decreases |text|
  {
    hide IsKey, ReadLine;
    var end := Find(text, '\n');
    var now := ReadLine(text[..end], number, seen);
    if now.Ok? {
      LineStaysProper(text[..end], number, seen);
      if end != |text| { ReadsDistinct(text[end + 1..], number + 1, now.value); }
    }
  }
}
