/** What any text of `settings.env` reads as, said of its lines. */
module SettingsReading {
  import opened Results
  import opened SettingsFile

  /** Lines of text, none of them with a line break, with one between each two. */
  function Joined(parts: seq<string>): string
    requires parts != []
  {
    if |parts| == 1 then parts[0] else parts[0] + "\n" + Joined(parts[1..])
  }

  /** The line holds nothing, or a key of the form, an equals sign and a value. */
  ghost predicate PartReads(part: string) {
    part == "" || exists key, value :: Sets(part, key, value)
  }

  predicate Sets(part: string, key: string, value: string) { IsKey(key) && part == key + "=" + value }

  lemma FirstEquals(part: string, key: string, value: string)
    requires Sets(part, key, value)
    ensures Find(part, '=') == |key| && part[..|key|] == key && part[|key| + 1..] == value
  {
    forall i | 0 <= i < |key| ensures part[i] == key[i] && IsKeyChar(key[i]) {
      if i < |KEY_PREFIX| { assert key[i] == key[..|KEY_PREFIX|][i]; }
    }
    assert part[|key|] == '=';
  }

  /** An empty line adds nothing, and another adds the new key that it sets. */
  ghost predicate Adds(part: string, number: nat, seen: seq<SettingsLine>, lines: seq<SettingsLine>) {
    (part == "" && lines == seen)
    || exists key, value :: Sets(part, key, value) && key !in Variables(seen) && lines == seen + [SettingsLine(number, key, value)]
  }

  ghost predicate SetsAgain(part: string, seen: seq<SettingsLine>) {
    exists key, value :: Sets(part, key, value) && key in Variables(seen)
  }

  /** What one line adds, by what it says. */
  lemma LineReads(part: string, number: nat, seen: seq<SettingsLine>)
    ensures ReadLine(part, number, seen).Ok? ==> Adds(part, number, seen, ReadLine(part, number, seen).value)
    ensures ReadLine(part, number, seen).Err? ==>
              var e := ReadLine(part, number, seen).error;
              e.number == number && (e.NotKeyValue? <==> !PartReads(part)) && (e.SetAgain? ==> SetsAgain(part, seen))
  {
    var split := Find(part, '=');
    hide IsKey, Find, Variables;
    if key, value :| Sets(part, key, value) {
      FirstEquals(part, key, value);
    }
    if split < |part| && IsKey(part[..split]) {
      assert Sets(part, part[..split], part[split + 1..]);
    }
  }

  lemma {:induction false} PartsRead(parts: seq<string>, number: nat, seen: seq<SettingsLine>)
    requires parts != [] && forall part | part in parts :: '\n' !in part
    ensures ReadFrom(Joined(parts), number, seen) == ReadParts(parts, number, seen)
    decreases |parts|
  {
    var text, first := Joined(parts), parts[0];
    assert first in parts;
    if |parts| == 1 {
      assert Find(text, '\n') == |text| && text[..|text|] == text;
      assert parts[1..] == [];
    } else {
      assert text[|first|] == '\n' && forall i | 0 <= i < |first| :: text[i] == first[i];
      assert Find(text, '\n') == |first| && text[..|first|] == first && text[|first| + 1..] == Joined(parts[1..]);
      assert forall part | part in parts[1..] :: part in parts;
      hide ReadLine, Find;
      var now := ReadLine(first, number, seen);
      if now.Ok? { PartsRead(parts[1..], number + 1, now.value); }
    }
  }

  /** The lines read one after the other, up to the first that does not read. */
  ghost function ReadParts(parts: seq<string>, number: nat, seen: seq<SettingsLine>): Result<seq<SettingsLine>, FileError> {
    if parts == [] then Ok(seen)
    else
      match ReadLine(parts[0], number, seen)
      case Err(e) => Err(e)
      case Ok(now) => ReadParts(parts[1..], number + 1, now)
  }

  /** The line at fault is no `KEY=value`, or one that sets a key which a line before it sets. */
  ghost predicate RefusedFor(parts: seq<string>, e: FileError) {
    && 0 < e.number <= |parts| && (e.NotKeyValue? <==> !PartReads(parts[e.number - 1]))
    && (e.SetAgain? ==> exists i | 0 <= i < e.number - 1 :: SameKey(parts[i], parts[e.number - 1]))
  }

  ghost predicate SameKey(part: string, other: string) { exists key, a, b :: Sets(part, key, a) && Sets(other, key, b) }

  ghost predicate Numbers(lines: seq<SettingsLine>, number: nat) { exists k | 0 <= k < |lines| :: lines[k].number == number }

  /** Each line read comes from the part of its number, and each part that is not empty gives a line. */
  ghost predicate ReadsAs(parts: seq<string>, lines: seq<SettingsLine>) {
    && (forall k | 0 <= k < |lines| ::
          0 < lines[k].number <= |parts| && Sets(parts[lines[k].number - 1], lines[k].variable, lines[k].value))
    && (forall j, k | 0 <= j < k < |lines| :: lines[j].number < lines[k].number)
    && (forall i | 0 <= i < |parts| && parts[i] != "" :: Numbers(lines, i + 1))
    && Distinct(lines)
  }

  lemma {:induction false} PartsGive(parts: seq<string>, n: nat, lines: seq<SettingsLine>)
    requires n <= |parts| && ReadsAs(parts[..n], lines)
    ensures ReadParts(parts[n..], n + 1, lines).Ok? ==> ReadsAs(parts, ReadParts(parts[n..], n + 1, lines).value)
    ensures ReadParts(parts[n..], n + 1, lines).Err? ==> RefusedFor(parts, ReadParts(parts[n..], n + 1, lines).error)
    decreases |parts| - n
  {
    if n == |parts| {
      assert parts[..n] == parts;
    } else {
      var part := parts[n];
      assert parts[n..][0] == part && parts[n..][1..] == parts[n + 1..];
      LineReads(part, n + 1, lines);
      var now := ReadLine(part, n + 1, lines);
      hide ReadLine, PartReads;
      if now.Ok? {
        OneMorePart(parts, n, lines, now.value);
        PartsGive(parts, n + 1, now.value);
      } else if now.error.SetAgain? {
        AgainThere(parts, n, lines);
      }
    }
  }

  lemma AgainThere(parts: seq<string>, n: nat, lines: seq<SettingsLine>)
    requires n < |parts| && ReadsAs(parts[..n], lines) && SetsAgain(parts[n], lines)
    ensures exists i | 0 <= i < n :: SameKey(parts[i], parts[n])
  {
    hide Sets;
    var key, value :| Sets(parts[n], key, value) && key in Variables(lines);
    var k :| 0 <= k < |lines| && lines[k].variable == key;
    var i := lines[k].number - 1;
    assert parts[..n][i] == parts[i] && Sets(parts[i], key, lines[k].value);
    assert SameKey(parts[i], parts[n]);
  }

  lemma OneMorePart(parts: seq<string>, n: nat, lines: seq<SettingsLine>, now: seq<SettingsLine>)
    requires n < |parts| && ReadsAs(parts[..n], lines)
    requires Adds(parts[n], n + 1, lines, now)
    ensures ReadsAs(parts[..n + 1], now)
  {
    hide Sets;
    var upto := parts[..n + 1];
    assert forall i | 0 <= i < n :: upto[i] == parts[..n][i];
    assert upto[n] == parts[n];
    if now != lines {
      OneMoreDistinct(lines, now[|lines|]);
      assert now[|lines|].number == n + 1;
    }
    forall i | 0 <= i < |upto| && upto[i] != "" ensures Numbers(now, i + 1) {
      if i < n {
        assert parts[..n][i] != "" && Numbers(lines, i + 1);
        var k :| 0 <= k < |lines| && lines[k].number == i + 1;
        assert now[k].number == i + 1;
      }
    }
  }

  /**
   What a text reads as, line by line: each line that is not empty gives its key and
   its value under its own number, or the first line that is no `KEY=value`, or sets
   a key again, refuses the text. It does not matter whether the last line has a break.
   */
  lemma ReadsLineByLine(parts: seq<string>)
    requires parts != [] && forall part | part in parts :: '\n' !in part
    ensures ReadSettings(Joined(parts)).Ok? ==> ReadsAs(parts, ReadSettings(Joined(parts)).value)
    ensures ReadSettings(Joined(parts)).Err? ==> RefusedFor(parts, ReadSettings(Joined(parts)).error)
    ensures ReadSettings(Joined(parts)) == ReadSettings(Joined(parts) + "\n")
  {
    PartsRead(parts, 1, []);
    assert parts[..0] == [] && parts[0..] == parts;
    assert ReadsAs(parts[..0], []);
    PartsGive(parts, 0, []);
    var more := parts + [""];
    BreakAtEnd(parts);
    assert forall part | part in more :: part in parts || part == "";
    PartsRead(more, 1, []);
    EmptyEnd(parts, 1, []);
  }

  lemma {:induction false} BreakAtEnd(parts: seq<string>)
    requires parts != []
    ensures Joined(parts + [""]) == Joined(parts) + "\n"
  {
    assert (parts + [""])[1..] == parts[1..] + [""];
    if |parts| > 1 { BreakAtEnd(parts[1..]); }
  }

  lemma {:induction false} EmptyEnd(parts: seq<string>, number: nat, seen: seq<SettingsLine>)
    ensures ReadParts(parts + [""], number, seen) == ReadParts(parts, number, seen)
  {
    if parts == [] {
      assert (parts + [""])[1..] == [] && (parts + [""])[0] == "";
    } else {
      assert (parts + [""])[1..] == parts[1..] + [""];
      var now := ReadLine(parts[0], number, seen);
      if now.Ok? { EmptyEnd(parts[1..], number + 1, now.value); }
    }
  }
}
