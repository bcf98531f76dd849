/**
 The key files of the settings directory: how a save names one, which names
 its cleanup reads as one, and the writes and deletes of a save.
 */
module KeyFiles {
  import opened Results
  import Blanks
  import opened SettingsFile
  import opened SettingsLines
  import opened SaveRules

  const TOKEN_CHARS := 16
  const SECRET_FILE_SUFFIX := "_FILE"

  /** A file: by its name in the settings directory, or by its path elsewhere. */
  datatype Path = InDir(name: string) | Elsewhere(text: string)

  type Files = map<Path, string>

  // ---- Names ----

  predicate IsStemChar(c: char) {
    'a' <= c <= 'z' || '0' <= c <= '9' || c == '_'
  }

  predicate IsHex(c: char) {
    '0' <= c <= '9' || 'a' <= c <= 'f'
  }

  predicate IsToken(token: string) {
    |token| == TOKEN_CHARS && forall i | 0 <= i < |token| :: IsHex(token[i])
  }

  /** The form that a cleanup matches: a stem, a dot and sixteen hexadecimal characters. */
  predicate HasKeyForm(name: string) {
    && TOKEN_CHARS + 1 < |name|
    && (forall i | 0 <= i < |StemOf(name)| :: IsStemChar(StemOf(name)[i]))
    && name[|name| - TOKEN_CHARS - 1] == '.'
    && IsToken(name[|name| - TOKEN_CHARS..])
  }

  function StemOf(name: string): string {
    if |name| <= TOKEN_CHARS then "" else name[..|name| - TOKEN_CHARS - 1]
  }

  function RemoveSuffix(s: string, suffix: string): string {
    if |suffix| <= |s| && s[|s| - |suffix|..] == suffix then s[..|s| - |suffix|] else s
  }

  function RemovePrefix(s: string, prefix: string): string {
    if |prefix| <= |s| && s[..|prefix|] == prefix then s[|prefix|..] else s
  }

  function LowerChar(c: char): char {
    if 'A' <= c <= 'Z' then c - 'A' + 'a' else c
  }

  function Lower(s: string): string {
    seq(|s|, i requires 0 <= i < |s| => LowerChar(s[i]))
  }

  function KeyStem(variable: string): string {
    Lower(RemovePrefix(RemoveSuffix(variable, SECRET_FILE_SUFFIX), KEY_PREFIX))
  }

  /** The name of a new key file of `variable`. It holds no part of the key. */
  function KeyFileName(variable: string, token: string): string {
    KeyStem(variable) + "." + token
  }

  /** The stem is what stands between the prefix and the suffix of the variable, in lower case. */
  lemma KeyStemIs(middle: string)
    ensures KeyStem(KEY_PREFIX + middle + SECRET_FILE_SUFFIX) == Lower(middle)
  {
    var variable := KEY_PREFIX + middle + SECRET_FILE_SUFFIX;
    var n := |variable| - |SECRET_FILE_SUFFIX|;
    assert variable[n..] == SECRET_FILE_SUFFIX && variable[..n] == KEY_PREFIX + middle;
    assert variable[..n][..|KEY_PREFIX|] == KEY_PREFIX && variable[..n][|KEY_PREFIX|..] == middle;
  }

  /** The printer of a name and the pattern of the cleanup agree exactly where the stem is not empty. */
  lemma NameHasForm(variable: string, token: string)
    requires IsKey(variable) && IsToken(token)
    ensures HasKeyForm(KeyFileName(variable, token)) <==> KeyStem(variable) != ""
    ensures StemOf(KeyFileName(variable, token)) == KeyStem(variable)
    ensures '/' !in KeyFileName(variable, token)
  {
    var name, stem := KeyFileName(variable, token), KeyStem(variable);
    assert forall i | 0 <= i < |variable| :: IsKeyChar(variable[i]) by {
      assert forall i | 0 <= i < |KEY_PREFIX| :: variable[i] == variable[..|KEY_PREFIX|][i];
    }
    var bare := RemoveSuffix(variable, SECRET_FILE_SUFFIX);
    assert forall i | 0 <= i < |bare| :: IsKeyChar(bare[i]);
    var body := RemovePrefix(bare, KEY_PREFIX);
    assert forall i | 0 <= i < |body| :: IsKeyChar(body[i]);
    assert forall i | 0 <= i < |stem| :: IsStemChar(stem[i]);
    assert name[..|name| - TOKEN_CHARS - 1] == stem;
    assert name[|name| - TOKEN_CHARS..] == token;
    assert forall i | 0 <= i < |name| :: name[i] != '/' by {
      forall i | 0 <= i < |name| ensures name[i] != '/' {
        if i > |stem| { assert name[i] == token[i - |stem| - 1]; }
      }
    }
  }

  const HEX: set<char> := {'0', '1', '2', '3', '4', '5', '6', '7', '8', '9', 'a', 'b', 'c', 'd', 'e', 'f'}

  lemma CharsAre(c: char)
    ensures IsHex(c) <==> c in HEX
    ensures IsStemChar(c) <==> c in Blanks.LOWER || c in Blanks.DIGITS || c == '_'
    ensures IsKeyChar(c) <==> c in Blanks.UPPER || c in Blanks.DIGITS || c == '_'
    ensures c in Blanks.UPPER ==> LowerChar(c) in Blanks.LOWER && LowerChar(c) - 'a' == c - 'A'
    ensures c !in Blanks.UPPER ==> LowerChar(c) == c
  {
    Blanks.RangesAre(c);
  }

  /** A stem of lower-case letters, digits and underscores, a dot, and sixteen hexadecimal characters. */
  ghost predicate IsKeyName(name: string, stem: string, token: string) {
    && name == stem + "." + token && stem != "" && |token| == 16 && (forall c | c in token :: c in HEX)
    && forall c | c in stem :: c in Blanks.LOWER || c in Blanks.DIGITS || c == '_'
  }

  /** The names that a cleanup reads as those of key files are exactly these, each with its stem. */
  lemma FormIs(name: string)
    ensures HasKeyForm(name) <==> exists stem, token :: IsKeyName(name, stem, token)
    ensures forall stem, token | IsKeyName(name, stem, token) :: StemOf(name) == stem
  {
    forall stem, token | |token| == 16 && name == stem + "." + token
      ensures (HasKeyForm(name) <==> IsKeyName(name, stem, token)) && StemOf(name) == stem
    {
      FormOf(name, stem, token);
    }
    if HasKeyForm(name) {
      assert name == name[..|name| - 17] + "." + name[|name| - 16..];
    }
  }

  lemma FormOf(name: string, stem: string, token: string)
    requires |token| == 16 && name == stem + "." + token
    ensures HasKeyForm(name) <==> IsKeyName(name, stem, token)
    ensures StemOf(name) == stem
  {
    assert StemOf(name) == stem && name[|name| - 16..] == token && name[|name| - 17] == '.';
    assert HasKeyForm(name) <==> stem != "" && (forall i | 0 <= i < |stem| :: IsStemChar(stem[i])) && IsToken(token);
    forall c ensures (IsHex(c) <==> c in HEX) && (IsStemChar(c) <==> c in Blanks.LOWER || c in Blanks.DIGITS || c == '_') { CharsAre(c); }
    hide IsHex, IsStemChar, HEX, Blanks.LOWER, Blanks.DIGITS;
    assert IsToken(token) <==> forall c | c in token :: c in HEX by {
      assert forall i | 0 <= i < 16 :: token[i] in token;
      assert forall c | c in token :: exists i :: 0 <= i < 16 && token[i] == c;
    }
    assert forall i | 0 <= i < |stem| :: stem[i] in stem;
    assert forall c | c in stem :: exists i :: 0 <= i < |stem| && stem[i] == c;
  }

  // ---- Paths ----

  /** The absolute path of a file, as a line of `settings.env` holds it. */
  function PathText(dir: string, path: Path): string {
    match path
    case InDir(name) => dir + "/" + name
    case Elsewhere(text) => text
  }

  function Resolve(dir: string, text: string): Path {
    if |dir| + 1 < |text| && text[..|dir| + 1] == dir + "/" && '/' !in text[|dir| + 1..]
    then InDir(text[|dir| + 1..])
    else Elsewhere(text)
  }

  lemma ResolveName(dir: string, name: string)
    requires name != "" && '/' !in name
    ensures Resolve(dir, PathText(dir, InDir(name))) == InDir(name)
  {
    var text := PathText(dir, InDir(name));
    assert text[..|dir| + 1] == dir + "/" && text[|dir| + 1..] == name;
  }

  /** A text names a file of the directory exactly where it is the directory, a slash and a name. */
  lemma ResolveWhen(dir: string, text: string)
    ensures match Resolve(dir, text)
            case InDir(name) => text == dir + "/" + name && name != "" && '/' !in name
            case Elsewhere(other) => other == text && !exists name :: text == dir + "/" + name && name != "" && '/' !in name
  {
    forall name | text == dir + "/" + name && name != "" && '/' !in name ensures Resolve(dir, text).InDir? {
      ResolveName(dir, name);
    }
    if Resolve(dir, text).InDir? { assert text == text[..|dir| + 1] + text[|dir| + 1..]; }
  }

  /** Each file that a key variable of `env` names. */
  function Named(cat: Catalog, dir: string, env: Env): set<Path> {
    set v | v in cat.secrets && v in env && env[v] != "" :: Resolve(dir, env[v])
  }

  /** Each file of the directory whose name has the form of a key file and that no key variable of `env` names. */
  function UnusedKeyFiles(cat: Catalog, dir: string, files: Files, env: Env): set<Path> {
    var stems := set v | v in cat.secrets :: KeyStem(v);
    set p | p in files && p.InDir? && HasKeyForm(p.name) && StemOf(p.name) in stems && p !in Named(cat, dir, env)
  }

  // ---- Writes and deletes ----

  class Directory {
    var files: Files

    constructor (found: Files)
      ensures files == found
    {
      files := found;
    }

    /** Make a new file, or fail and change nothing: the path exists, or the write fails. */
    method Create(path: Path, text: string, fails: bool) returns (made: bool)
      modifies this
      ensures made <==> !fails && path !in old(files)
      ensures files == if made then old(files)[path := text] else old(files)
    {
      made := !fails && path !in files;
      if made {
        files := files[path := text];
      }
    }

    /** Delete each file of `paths` that exists, up to the first delete that fails. */
    method DeleteFiles(paths: seq<Path>, failsAt: nat) returns (done: bool)
      modifies this
      ensures done <==> |paths| <= failsAt
      ensures done ==> files == old(files) - set p | p in paths
      ensures !done ==> files == old(files) - set p | p in paths[..failsAt]
    {
      for i := 0 to |paths|
        invariant i <= failsAt
        invariant files == old(files) - set p | p in paths[..i]
      {
        if i == failsAt {
          return false;
        }
        assert paths[..i + 1] == paths[..i] + [paths[i]];
        files := files - {paths[i]};
      }
      assert paths[..|paths|] == paths;
      return true;
    }

    /**
     Write each key to its new file. Where the i-th write fails, for any i,
     the directory is exactly as it was found.
     */
    method WriteKeys(keys: seq<KeyText>, tokens: seq<string>, fails: seq<bool>) returns (written: Option<map<string, Path>>)
      requires |tokens| == |keys| == |fails|
      modifies this
      ensures match WriteAll(old(files), keys, tokens, fails)
              case None => written == None && files == old(files)
              case Some(after) => written == Some(WrittenPaths(keys, tokens)) && files == after
    {
      hide KeyPath, WriteAll, WrittenPaths, PathsOf;
      var done: map<string, Path> := map[];
      var paths: seq<Path> := [];
      NoWrites(old(files));
      for i := 0 to |keys|
        invariant WriteAll(old(files), keys[..i], tokens[..i], fails[..i]) == Some(files)
        invariant done == WrittenPaths(keys[..i], tokens[..i])
        invariant paths == PathsOf(keys[..i], tokens[..i])
      {
        OneWrite(old(files), keys, tokens, fails, i);
        var path := KeyPath(keys[i], tokens[i]);
        var made := Create(path, keys[i].text, fails[i]);
        if !made {
          UndoWrites(old(files), keys[..i], tokens[..i], fails[..i]);
          var undone := DeleteFiles(paths, |paths|);
          WriteStops(old(files), keys, tokens, fails, i + 1);
          return None;
        }
        paths := paths + [path];
        done := done[keys[i].variable := path];
      }
      assert keys[..|keys|] == keys && tokens[..|keys|] == tokens && fails[..|keys|] == fails;
      return Some(done);
    }
  }

  lemma NoWrites(files: Files)
    ensures WriteAll(files, [], [], []) == Some(files) && WrittenPaths([], []) == map[] && PathsOf([], []) == []
  {
  }

  /** The `i`-th write, after the writes before it. */
  lemma OneWrite(files: Files, keys: seq<KeyText>, tokens: seq<string>, fails: seq<bool>, i: nat)
    requires |tokens| == |keys| == |fails| && i < |keys|
    ensures WriteAll(files, keys[..i + 1], tokens[..i + 1], fails[..i + 1]) ==
            match WriteAll(files, keys[..i], tokens[..i], fails[..i])
            case None => None
            case Some(after) =>
              if fails[i] || KeyPath(keys[i], tokens[i]) in after then None
              else Some(after[KeyPath(keys[i], tokens[i]) := keys[i].text])
    ensures WrittenPaths(keys[..i + 1], tokens[..i + 1]) == WrittenPaths(keys[..i], tokens[..i])[keys[i].variable := KeyPath(keys[i], tokens[i])]
    ensures PathsOf(keys[..i + 1], tokens[..i + 1]) == PathsOf(keys[..i], tokens[..i]) + [KeyPath(keys[i], tokens[i])]
  {
    hide KeyPath;
    assert keys[..i + 1][..i] == keys[..i] && tokens[..i + 1][..i] == tokens[..i] && fails[..i + 1][..i] == fails[..i];
  }

  function KeyPath(key: KeyText, token: string): Path {
    InDir(KeyFileName(key.variable, token))
  }

  /** The files after each write of `keys`, in order, or nothing where one of them fails. */
  ghost function WriteAll(files: Files, keys: seq<KeyText>, tokens: seq<string>, fails: seq<bool>): Option<Files>
    requires |tokens| == |keys| == |fails|
  {
    if keys == [] then Some(files)
    else
      var n := |keys| - 1;
      match WriteAll(files, keys[..n], tokens[..n], fails[..n])
      case None => None
      case Some(after) =>
        var path := KeyPath(keys[n], tokens[n]);
        if fails[n] || path in after then None else Some(after[path := keys[n].text])
  }

  ghost function WrittenPaths(keys: seq<KeyText>, tokens: seq<string>): map<string, Path>
    requires |tokens| == |keys|
  {
    if keys == [] then map[]
    else
      var n := |keys| - 1;
      WrittenPaths(keys[..n], tokens[..n])[keys[n].variable := KeyPath(keys[n], tokens[n])]
  }

  ghost function PathsOf(keys: seq<KeyText>, tokens: seq<string>): (paths: seq<Path>)
    requires |tokens| == |keys|
    ensures |paths| == |keys| && forall i | 0 <= i < |keys| :: paths[i] == KeyPath(keys[i], tokens[i])
  {
    seq(|keys|, i requires 0 <= i < |keys| => KeyPath(keys[i], tokens[i]))
  }

  lemma {:induction false} UndoWrites(files: Files, keys: seq<KeyText>, tokens: seq<string>, fails: seq<bool>)
    requires |tokens| == |keys| == |fails|
    ensures WriteAll(files, keys, tokens, fails).Some? ==>
              && WriteAll(files, keys, tokens, fails).value - (set p | p in PathsOf(keys, tokens)) == files
              && files.Keys <= WriteAll(files, keys, tokens, fails).value.Keys
  {
    if keys != [] && WriteAll(files, keys, tokens, fails).Some? {
      var n := |keys| - 1;
      UndoWrites(files, keys[..n], tokens[..n], fails[..n]);
      var before := WriteAll(files, keys[..n], tokens[..n], fails[..n]).value;
      var path := KeyPath(keys[n], tokens[n]);
      assert PathsOf(keys, tokens) == PathsOf(keys[..n], tokens[..n]) + [path];
      assert (set p | p in PathsOf(keys, tokens)) == (set p | p in PathsOf(keys[..n], tokens[..n])) + {path};
      assert before[path := keys[n].text] - (set p | p in PathsOf(keys, tokens))
          == before - (set p | p in PathsOf(keys[..n], tokens[..n]));
    }
  }

  lemma {:induction false} WriteStops(files: Files, keys: seq<KeyText>, tokens: seq<string>, fails: seq<bool>, n: nat)
    requires |tokens| == |keys| == |fails| && n <= |keys|
    requires WriteAll(files, keys[..n], tokens[..n], fails[..n]).None?
    ensures WriteAll(files, keys, tokens, fails).None?
    decreases |keys| - n
  {
    if n == |keys| {
      assert keys[..n] == keys && tokens[..n] == tokens && fails[..n] == fails;
    } else {
      assert keys[..n + 1][..n] == keys[..n] && tokens[..n + 1][..n] == tokens[..n] && fails[..n + 1][..n] == fails[..n];
      WriteStops(files, keys, tokens, fails, n + 1);
    }
  }

  lemma {:induction false} WrittenAre(keys: seq<KeyText>, tokens: seq<string>)
    requires |tokens| == |keys|
    requires forall i, j | 0 <= i < j < |keys| :: keys[i].variable != keys[j].variable
    ensures WrittenPaths(keys, tokens).Keys == KeyVariables(keys)
    ensures forall i | 0 <= i < |keys| ::
              keys[i].variable in WrittenPaths(keys, tokens)
              && WrittenPaths(keys, tokens)[keys[i].variable] == KeyPath(keys[i], tokens[i])
  {
    if keys != [] {
      var n := |keys| - 1;
      hide KeyPath, KeyVariables;
      WrittenAre(keys[..n], tokens[..n]);
      VariablesSnoc(keys);
      OneMoreWritten(keys, tokens, n, WrittenPaths(keys[..n], tokens[..n]));
    }
  }

  lemma OneMoreWritten(keys: seq<KeyText>, tokens: seq<string>, n: nat, before: map<string, Path>)
    requires |tokens| == |keys| == n + 1
    requires forall i, j | 0 <= i < j < |keys| :: keys[i].variable != keys[j].variable
    requires forall i | 0 <= i < n ::
               keys[..n][i].variable in before && before[keys[..n][i].variable] == KeyPath(keys[..n][i], tokens[..n][i])
    ensures var after := before[keys[n].variable := KeyPath(keys[n], tokens[n])];
            forall i | 0 <= i < |keys| :: keys[i].variable in after && after[keys[i].variable] == KeyPath(keys[i], tokens[i])
  {
    hide KeyPath;
    var after := before[keys[n].variable := KeyPath(keys[n], tokens[n])];
    forall i | 0 <= i < |keys| ensures keys[i].variable in after && after[keys[i].variable] == KeyPath(keys[i], tokens[i]) {
      if i < n { assert keys[..n][i] == keys[i] && tokens[..n][i] == tokens[i]; }
    }
  }

  lemma VariablesSnoc(keys: seq<KeyText>)
    requires keys != []
    ensures KeyVariables(keys) == KeyVariables(keys[..|keys| - 1]) + {keys[|keys| - 1].variable}
  {
    var n := |keys| - 1;
    assert forall i | 0 <= i < n :: keys[..n][i] == keys[i];
    forall v | v in KeyVariables(keys) ensures v in KeyVariables(keys[..n]) + {keys[n].variable} {
      var i :| 0 <= i < |keys| && keys[i].variable == v;
      if i < n { assert keys[..n][i].variable == v; }
    }
  }

  /** Each key gets a file of its own that no file held before, with its text; every other file stays. */
  lemma {:induction false} WritesAre(files: Files, keys: seq<KeyText>, tokens: seq<string>, fails: seq<bool>)
    requires |tokens| == |keys| == |fails|
    requires WriteAll(files, keys, tokens, fails).Some?
    ensures forall p | p in files ::
              p in WriteAll(files, keys, tokens, fails).value && WriteAll(files, keys, tokens, fails).value[p] == files[p]
    ensures forall i | 0 <= i < |keys| ::
              && KeyPath(keys[i], tokens[i]) !in files
              && KeyPath(keys[i], tokens[i]) in WriteAll(files, keys, tokens, fails).value
              && WriteAll(files, keys, tokens, fails).value[KeyPath(keys[i], tokens[i])] == keys[i].text
    ensures forall i, j | 0 <= i < j < |keys| :: KeyPath(keys[i], tokens[i]) != KeyPath(keys[j], tokens[j])
  {
    if keys != [] {
      var n := |keys| - 1;
      WritesAre(files, keys[..n], tokens[..n], fails[..n]);
      forall i | 0 <= i < n
        ensures KeyPath(keys[i], tokens[i]) in WriteAll(files, keys[..n], tokens[..n], fails[..n]).value
        ensures WriteAll(files, keys[..n], tokens[..n], fails[..n]).value[KeyPath(keys[i], tokens[i])] == keys[i].text
        ensures KeyPath(keys[i], tokens[i]) !in files
      {
        assert keys[..n][i] == keys[i] && tokens[..n][i] == tokens[i];
      }
      forall i, j | 0 <= i < j < |keys| ensures KeyPath(keys[i], tokens[i]) != KeyPath(keys[j], tokens[j]) {
        if j < n {
          assert keys[..n][i] == keys[i] && tokens[..n][i] == tokens[i] && keys[..n][j] == keys[j] && tokens[..n][j] == tokens[j];
        }
      }
    }
  }
}
