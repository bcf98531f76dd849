/** One run over the documents of the repository, and why a check after a write finds nothing. */
module IncludeRun {
  import opened Results
  import opened IncludeSync
  import opened IncludeProofs

  datatype Synced = Synced(repo: Repo, result: Result<seq<string>, IncludeError>)

  /** A run over the documents at `paths`, in order: the files it leaves and the paths it found stale. */
  function SyncFrom(r: Repo, paths: seq<string>, stale: seq<string>, write: bool): Synced
    requires forall path | path in paths :: path in r.files
    decreases |paths|
  {
    if paths == [] then Synced(r, Ok(stale))
    else
      var path := paths[0];
      match Render(r, r.files[path])
      case Err(e) => Synced(r, Err(e))
      case Ok(updated) =>
        if updated == r.files[path] then SyncFrom(r, paths[1..], stale, write)
        else
          var next := if write then r.(files := r.files[path := updated]) else r;
          SyncFrom(next, paths[1..], stale + [path], write)
  }

  /** The working tree. */
  class Tree {
    var files: map<string, string>
    const marks: Syntax

    constructor (files: map<string, string>, letters: set<char>)
      ensures this.files == files && marks == Includes(letters)
    {
      this.files, this.marks := files, Includes(letters);
    }

    function Repo(): Repo
      reads this
    {
      IncludeSync.Repo(files, marks)
    }

    /** An error stops the run and leaves what was written before it. */
    method Sync(paths: seq<string>, write: bool) returns (result: Result<seq<string>, IncludeError>)
      requires forall path | path in paths :: path in files
      modifies this
      ensures Synced(Repo(), result) == SyncFrom(old(Repo()), paths, [], write)
      ensures !write ==> files == old(files)
    {
      hide Render;
      var stale, i := [], 0;
      while i < |paths|
        invariant i <= |paths| && files.Keys == old(files.Keys)
        invariant SyncFrom(Repo(), paths[i..], stale, write) == SyncFrom(old(Repo()), paths, [], write)
        invariant !write ==> files == old(files)
      {
        var path := paths[i];
        assert paths[i..][0] == path && paths[i..][1..] == paths[i + 1..];
        var current := files[path];
        var rendered := Render(Repo(), current);
        if rendered.Err? { return Err(rendered.error); }
        var updated := rendered.value;
        i := i + 1;
        if updated == current { continue; }
        stale := stale + [path];
        if write { files := files[path := updated]; }
      }
      result := Ok(stale);
    }
  }

  // ---- A document that does not include what changed ----

  predicate SameFile(r: Repo, s: Repo, path: string) {
    (path in r.files <==> path in s.files) && (path in r.files ==> r.files[path] == s.files[path])
  }

  ghost predicate Reads(r: Repo, doc: string, path: string) {
    exists p | p in Scan(r.marks, doc) :: p.Include? && p.source == path
  }

  lemma {:induction false} FillSame(r: Repo, s: Repo, pieces: seq<Piece>)
    requires forall p | p in pieces && p.Include? :: SameFile(r, s, p.source)
    ensures FillAll(r, pieces) == FillAll(s, pieces)
  {
    if pieces != [] {
      assert pieces[0] in pieces && forall p | p in pieces[1..] :: p in pieces;
      FillSame(r, s, pieces[1..]);
    }
  }

  /** What a document renders as depends on the files it includes and on nothing else. */
  lemma RenderSame(r: Repo, s: Repo, doc: string)
    requires r.marks == s.marks && forall path | Reads(r, doc, path) :: SameFile(r, s, path)
    ensures Render(r, doc) == Render(s, doc)
  {
    var pieces := Scan(r.marks, doc);
    forall p | p in pieces && p.Include? ensures SameFile(r, s, p.source) {
      assert Reads(r, doc, p.source);
    }
    FillSame(r, s, pieces);
  }

  lemma RenderReads(r: Repo, doc: string, path: string)
    requires r.marks.Sound() && CleanSources(r, doc) && Render(r, doc).Ok? && Reads(r, Render(r, doc).value, path)
    ensures Reads(r, doc, path)
  {
    RenderIsIdempotent(r, doc);
    var before, after := Scan(r.marks, doc), Scan(r.marks, Render(r, doc).value);
    var p :| p in after && p.Include? && p.source == path;
    var i :| 0 <= i < |after| && after[i] == p;
    assert SameKind(before[i], after[i]) && before[i] in before;
  }

  // ---- A whole run ----

  ghost predicate Distinct(paths: seq<string>) {
    forall i, j | 0 <= i < j < |paths| :: paths[i] != paths[j]
  }

  /** No document of `paths` includes a file of `touched`. */
  ghost predicate Apart(r: Repo, paths: seq<string>, touched: set<string>) {
    forall path, source | path in paths && path in r.files && source in touched :: !Reads(r, r.files[path], source)
  }

  ghost predicate SameOutside(r: Repo, s: Repo, touched: set<string>) {
    r.marks == s.marks && forall path | path !in touched :: SameFile(r, s, path)
  }

  /** A run that writes gives each document what `base` renders it as, and leaves every other file. */
  lemma {:induction false} WriteRun(base: Repo, r: Repo, paths: seq<string>, stale: seq<string>, touched: set<string>)
    requires (forall path | path in paths :: path in r.files) && Distinct(paths)
    requires SyncFrom(r, paths, stale, true).result.Ok?
    requires forall path | path in SyncFrom(r, paths, stale, true).result.value :: path in touched
    requires SameOutside(base, r, touched) && Apart(r, paths, touched)
    ensures var end := SyncFrom(r, paths, stale, true);
            && SameOutside(base, end.repo, touched) && stale <= end.result.value && end.repo.files.Keys == r.files.Keys
            && (forall path | path in r.files && path !in paths :: end.repo.files[path] == r.files[path])
            && (forall path | path in paths :: Render(base, r.files[path]) == Ok(end.repo.files[path]))
    decreases |paths|
  {
    if paths != [] {
      var path, rest := paths[0], paths[1..];
      assert forall p | p in rest :: p in paths && p != path;
      RenderSame(r, base, r.files[path]) by {
        forall source | Reads(r, r.files[path], source) ensures SameFile(r, base, source) {
          assert source !in touched;
        }
      }
      var updated := Render(r, r.files[path]).value;
      if updated == r.files[path] {
        WriteRun(base, r, rest, stale, touched);
      } else {
        var next := r.(files := r.files[path := updated]);
        StaleStays(next, rest, stale + [path], true);
        assert path in stale + [path];
        WriteRun(base, next, rest, stale + [path], touched);
      }
    }
  }

  lemma {:induction false} StaleStays(r: Repo, paths: seq<string>, stale: seq<string>, write: bool)
    requires forall path | path in paths :: path in r.files
    requires SyncFrom(r, paths, stale, write).result.Ok?
    ensures stale <= SyncFrom(r, paths, stale, write).result.value
    decreases |paths|
  {
    if paths != [] {
      var path := paths[0];
      var updated := Render(r, r.files[path]).value;
      if updated == r.files[path] {
        StaleStays(r, paths[1..], stale, write);
      } else {
        StaleStays(if write then r.(files := r.files[path := updated]) else r, paths[1..], stale + [path], write);
      }
    }
  }

  /** A run that only checks names exactly the documents that would be rendered otherwise, and leaves every file. */
  lemma {:induction false} CheckNamesStale(r: Repo, paths: seq<string>, stale: seq<string>)
    requires forall path | path in paths :: path in r.files
    ensures SyncFrom(r, paths, stale, false).repo == r
    ensures SyncFrom(r, paths, stale, false).result.Ok? <==> forall path | path in paths :: Render(r, r.files[path]).Ok?
    ensures SyncFrom(r, paths, stale, false).result.Ok? ==>
              forall path :: path in SyncFrom(r, paths, stale, false).result.value <==>
                path in stale || (path in paths && Render(r, r.files[path]) != Ok(r.files[path]))
    decreases |paths|
  {
    if paths != [] {
      assert paths == [paths[0]] + paths[1..];
      assert forall path | path in paths[1..] :: path in paths;
      if Render(r, r.files[paths[0]]) == Ok(r.files[paths[0]]) {
        CheckNamesStale(r, paths[1..], stale);
      } else if Render(r, r.files[paths[0]]).Ok? {
        CheckNamesStale(r, paths[1..], stale + [paths[0]]);
      }
    }
  }

  lemma {:induction false} NothingStale(r: Repo, paths: seq<string>, write: bool)
    requires forall path | path in paths :: path in r.files && Render(r, r.files[path]) == Ok(r.files[path])
    ensures SyncFrom(r, paths, [], write) == Synced(r, Ok([]))
  {
    if paths != [] {
      assert paths[0] in paths && forall p | p in paths[1..] :: p in paths;
      NothingStale(r, paths[1..], write);
    }
  }

  /**
   After a run that writes, a run that checks finds no stale document, and a
   second run that writes changes nothing: provided no document includes a file
   that the first run rewrote, and no included text holds a closing fence.
   */
  lemma CheckAfterWrite(r: Repo, paths: seq<string>, write: bool)
    requires r.marks.Sound() && Distinct(paths) && forall path | path in paths :: path in r.files && CleanSources(r, r.files[path])
    requires SyncFrom(r, paths, [], true).result.Ok?
    requires Apart(r, paths, set path | path in SyncFrom(r, paths, [], true).result.value)
    ensures var first := SyncFrom(r, paths, [], true).repo;
            && (forall path | path in paths :: path in first.files)
            && SyncFrom(first, paths, [], write) == Synced(first, Ok([]))
  {
    var stale := SyncFrom(r, paths, [], true).result.value;
    var touched := set path | path in stale;
    WriteRun(r, r, paths, [], touched);
    var first := SyncFrom(r, paths, [], true).repo;
    forall path | path in paths ensures Render(first, first.files[path]) == Ok(first.files[path]) {
      var doc := r.files[path];
      RenderIsIdempotent(r, doc);
      forall source | Reads(r, first.files[path], source) ensures SameFile(r, first, source) {
        RenderReads(r, doc, source);
        assert source !in touched;
      }
      RenderSame(r, first, first.files[path]);
    }
    NothingStale(first, paths, write);
  }

  // ---- A document of one include ----

  lemma ScanOne(x: Syntax, p: Piece)
    requires x.Sound() && p.Include? && WellFormed(x, p) && Clean(x, p.body)
    ensures Scan(x, Text(x, p)) == [p]
  {
    TextMatches(x, p, "");
    assert Text(x, p) + "" == Text(x, p);
    ScanFirst(x, p, "");
    assert [p] + Scan(x, "") == [p];
  }

  lemma FillOne(r: Repo, p: Piece, q: Piece)
    requires Fill(r, p) == Ok(q)
    ensures FillAll(r, [p]) == Ok([q])
  {
    assert [p][1..] == [] && [q] + [] == [q];
  }
}
