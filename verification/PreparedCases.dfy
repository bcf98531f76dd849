/**
 A case prepared once and kept with the digests of the files it was built from,
 and exactly when the kept copy is what a fresh preparation would give.
 */
module PreparedCases {
  import opened Results

  /** The files of one case directory, by name. */
  type Disk = map<string, string>

  /** One block of the system as a reader meets it. A text stands for what is laid out from it. */
  datatype Block = SourceBlock(caption: string, kind: string, text: string) | ModelBlock(text: string) | AliasBlock(aliases: seq<Alias>)

  /** A reviewed alias as it is shown: the element with its other name, and the words behind it. */
  datatype Alias = Alias(term: string, text: string)

  /** What a reader is served: the title, the system, and the recorded set of each framework. */
  datatype Content = Content(title: string, partOne: seq<Block>, partTwo: seq<(string, string)>)

  datatype Prepared = Prepared(files: seq<string>, digests: map<string, string>, content: Content)

  type Preparation = Disk -> Result<Prepared, string>

  type Digest = string -> string

  /** The digests of the named files, or the first file that is missing. */
  function Digests(digest: Digest, disk: Disk, files: seq<string>): Result<map<string, string>, string> {
    if files == [] then Ok(map[])
    else if files[0] !in disk then Err(files[0])
    else
      match Digests(digest, disk, files[1..])
      case Err(e) => Err(e)
      case Ok(rest) => Ok(rest[files[0] := digest(disk[files[0]])])
  }

  /** The kept case where its files still hold the bytes it was built from, else a new preparation. */
  function Answer(prepare: Preparation, digest: Digest, kept: Option<Prepared>, disk: Disk): Result<Prepared, string> {
    if kept.None? then prepare(disk)
    else
      match Digests(digest, disk, kept.value.files)
      case Err(e) => Err(e)
      case Ok(now) => if now == kept.value.digests then Ok(kept.value) else prepare(disk)
  }

  function KeptAfter(prepare: Preparation, digest: Digest, kept: Option<Prepared>, disk: Disk): Option<Prepared> {
    match Answer(prepare, digest, kept, disk)
    case Ok(p) => Some(p)
    case Err(_) => kept
  }

  class Session {
    var kept: Option<Prepared>

    constructor ()
      ensures kept == None
    {
      kept := None;
    }

    /**
     Whatever is answered carries the digests that its files have now and is what is
     kept from here on. A case none of whose files moved is not prepared again, and a
     refusal leaves what was kept.
     */
    method Prepare(prepare: Preparation, digest: Digest, disk: Disk) returns (result: Result<Prepared, string>)
      modifies this
      ensures Signed(prepare, digest) && result.Ok? ==> Digests(digest, disk, result.value.files) == Ok(result.value.digests)
      ensures kept == if result.Ok? then Some(result.value) else old(kept)
      ensures old(kept).Some? && Digests(digest, disk, old(kept.value.files)) == Ok(old(kept.value.digests)) ==> result == Ok(old(kept.value))
      ensures result.Ok? && result != prepare(disk) ==> old(kept) == Some(result.value)
      ensures result == Answer(prepare, digest, old(kept), disk)
      ensures kept == KeptAfter(prepare, digest, old(kept), disk)
    {
      if kept.Some? {
        var now := Digests(digest, disk, kept.value.files);
        if now.Err? { return Err(now.error); }
        if now.value == kept.value.digests { return Ok(kept.value); }
      }
      result := prepare(disk);
      if result.Ok? { kept := Some(result.value); }
    }
  }

  // ---- What is asked of a preparation ----

  ghost predicate Injective(digest: Digest) { forall a, b | digest(a) == digest(b) :: a == b }

  ghost predicate Holds(disk: Disk, files: seq<string>) { forall f | f in files :: f in disk }

  /** A preparation carries the digests of its files as it read them. */
  ghost predicate Signed(prepare: Preparation, digest: Digest) {
    forall d: Disk | prepare(d).Ok? :: Digests(digest, d, prepare(d).value.files) == Ok(prepare(d).value.digests)
  }

  ghost predicate SameBytes(a: Disk, b: Disk, files: seq<string>) {
    forall f | f in files :: f in a && f in b && a[f] == b[f]
  }

  /** What is prepared depends on the bytes of the files it digests and on nothing else. */
  ghost predicate Determined(prepare: Preparation) {
    forall a: Disk, b: Disk | prepare(a).Ok? && SameBytes(a, b, prepare(a).value.files) :: prepare(b) == prepare(a)
  }

  /** A case that was prepared from a file cannot be prepared without it. */
  ghost predicate NeedsFiles(prepare: Preparation) {
    forall a: Disk, b: Disk | prepare(a).Ok? && !Holds(b, prepare(a).value.files) :: prepare(b).Err?
  }

  /** Equal, or both a refusal. */
  predicate SameAnswer(a: Result<Prepared, string>, b: Result<Prepared, string>) {
    a == b || (a.Err? && b.Err?)
  }

  /** What is kept after requests at the given states of the case. */
  function KeptThrough(prepare: Preparation, digest: Digest, disks: seq<Disk>): Option<Prepared> {
    if disks == [] then None
    else KeptAfter(prepare, digest, KeptThrough(prepare, digest, disks[..|disks| - 1]), disks[|disks| - 1])
  }

  /** In every run of edits and requests, each request gets what a fresh preparation would give. */
  ghost predicate AlwaysFresh(prepare: Preparation, digest: Digest) {
    forall disks: seq<Disk>, d: Disk :: SameAnswer(Answer(prepare, digest, KeptThrough(prepare, digest, disks), d), prepare(d))
  }

  lemma {:induction false} DigestsAre(digest: Digest, disk: Disk, files: seq<string>)
    ensures Digests(digest, disk, files).Ok? <==> Holds(disk, files)
    ensures Holds(disk, files) ==> Digests(digest, disk, files).value == map f | f in files :: digest(disk[f])
  {
    if files != [] {
      assert files == [files[0]] + files[1..];
      DigestsAre(digest, disk, files[1..]);
    }
  }

  /** Equal digests are equal bytes. */
  lemma SameDigests(digest: Digest, a: Disk, b: Disk, files: seq<string>)
    requires Injective(digest) && Holds(a, files) && Holds(b, files)
    ensures Digests(digest, a, files) == Digests(digest, b, files) <==> SameBytes(a, b, files)
  {
    DigestsAre(digest, a, files);
    DigestsAre(digest, b, files);
    var x, y := map f | f in files :: digest(a[f]), map f | f in files :: digest(b[f]);
    if x == y {
      forall f | f in files ensures a[f] == b[f] { assert x[f] == y[f]; }
    }
  }

  /** What is kept was prepared from some earlier state of the case. */
  lemma {:induction false} KeptWasPrepared(prepare: Preparation, digest: Digest, disks: seq<Disk>) returns (d: Disk)
    requires KeptThrough(prepare, digest, disks).Some?
    ensures prepare(d) == Ok(KeptThrough(prepare, digest, disks).value)
  {
    var n := |disks| - 1;
    var before := KeptThrough(prepare, digest, disks[..n]);
    if before.Some? && KeptThrough(prepare, digest, disks) == before {
      d := KeptWasPrepared(prepare, digest, disks[..n]);
    } else {
      d := disks[n];
    }
  }

  /** One request after the case was prepared at `a` and moved to `b`. */
  lemma OneRequest(prepare: Preparation, digest: Digest, a: Disk, b: Disk)
    requires Injective(digest) && Signed(prepare, digest) && prepare(a).Ok?
    ensures var p := prepare(a).value;
            var answer := Answer(prepare, digest, Some(p), b);
            if Holds(b, p.files) then answer == (if SameBytes(a, b, p.files) then Ok(p) else prepare(b)) else answer.Err?
  {
    var p := prepare(a).value;
    DigestsAre(digest, a, p.files);
    DigestsAre(digest, b, p.files);
    if Holds(b, p.files) { SameDigests(digest, a, b, p.files); }
  }

  /**
   The kept copy always agrees with a fresh preparation exactly where the
   preparation reads nothing but the files it digests, and cannot do without one
   of them.
   */
  lemma FreshWhenDetermined(prepare: Preparation, digest: Digest)
    requires Injective(digest) && Signed(prepare, digest)
    ensures AlwaysFresh(prepare, digest) <==> Determined(prepare) && NeedsFiles(prepare)
  {
    if Determined(prepare) && NeedsFiles(prepare) {
      forall disks: seq<Disk>, d: Disk
        ensures SameAnswer(Answer(prepare, digest, KeptThrough(prepare, digest, disks), d), prepare(d))
      {
        if KeptThrough(prepare, digest, disks).Some? {
          var a := KeptWasPrepared(prepare, digest, disks);
          OneRequest(prepare, digest, a, d);
        }
      }
    }
    if AlwaysFresh(prepare, digest) {
      forall a: Disk, b: Disk | prepare(a).Ok?
        ensures SameBytes(a, b, prepare(a).value.files) ==> prepare(b) == prepare(a)
        ensures !Holds(b, prepare(a).value.files) ==> prepare(b).Err?
      {
        KeptAtOnce(prepare, digest, a);
        OneRequest(prepare, digest, a, b);
        assert SameAnswer(Answer(prepare, digest, KeptThrough(prepare, digest, [a]), b), prepare(b));
      }
    }
  }

  lemma KeptAtOnce(prepare: Preparation, digest: Digest, a: Disk)
    requires prepare(a).Ok?
    ensures KeptThrough(prepare, digest, [a]) == Some(prepare(a).value)
  {
    assert [a][..0] == [];
    assert KeptThrough(prepare, digest, [a][..0]) == None;
  }

  /** Whatever the preparation depends on, an answer carries the digests the files have now. */
  lemma AnswerIsCurrent(prepare: Preparation, digest: Digest, disks: seq<Disk>, d: Disk)
    requires Signed(prepare, digest)
    requires Answer(prepare, digest, KeptThrough(prepare, digest, disks), d).Ok?
    ensures var p := Answer(prepare, digest, KeptThrough(prepare, digest, disks), d).value;
            Digests(digest, d, p.files) == Ok(p.digests)
  {
  }

  // ---- The preparation of a case ----

  datatype Source = Source(file: string, kind: string, caption: string)

  /** What the case file decides about a sitting: its files, and all that is served beside their text. */
  datatype Declaration = Declaration(title: string, sources: seq<Source>, frameworks: seq<string>, aliases: seq<Alias>)

  /**
   What the loader makes of the bytes: the case file it can read, what it refuses
   about the declared files with each finding keyed, and what it refuses about the
   rulings that stand beside them.
   */
  datatype Loader = Loader(
    read: string -> Option<Declaration>,
    refuses: (Declaration, map<string, string>) -> Option<string>,
    refusesRulings: (Declaration, map<string, string>, string) -> Option<string>)

  const CASE_FILE := "case.json"
  const SOURCE_FILE := "source.md"
  const MODEL_FILE := "model.json"
  const RULINGS_FILE := "rulings.json"

  function SourceFiles(sources: seq<Source>): seq<string> {
    seq(|sources|, i requires 0 <= i < |sources| => sources[i].file)
  }

  function ClaimFile(framework: string): string { "claims/" + framework + ".json" }

  function ClaimFiles(frameworks: seq<string>): seq<string> {
    seq(|frameworks|, i requires 0 <= i < |frameworks| => ClaimFile(frameworks[i]))
  }

  /** The declared sources, the model, and one set of claims for each framework. Neither the case file nor the rulings are among them. */
  function RequiredFiles(d: Declaration): seq<string> {
    SourceFiles(d.sources) + [MODEL_FILE] + ClaimFiles(d.frameworks)
  }

  /** A case declares at least one source, and at least one framework, each once. */
  predicate Admissible(d: Declaration) {
    d.sources != [] && d.frameworks != [] && forall i, j | 0 <= i < j < |d.frameworks| :: d.frameworks[i] != d.frameworks[j]
  }

  function Declared(loader: Loader, disk: Disk): (d: Option<Declaration>)
    ensures d.Some? ==> CASE_FILE in disk && Admissible(d.value)
  {
    if CASE_FILE !in disk || loader.read(disk[CASE_FILE]).None? || !Admissible(loader.read(disk[CASE_FILE]).value) then None
    else loader.read(disk[CASE_FILE])
  }

  function Texts(disk: Disk, files: seq<string>): map<string, string> {
    map f | f in files && f in disk :: disk[f]
  }

  /** The refusal of the rulings file, which a case need not have. */
  function RulingsRefusal(loader: Loader, d: Declaration, disk: Disk): Option<string> {
    if RULINGS_FILE !in disk then None
    else loader.refusesRulings(d, Texts(disk, RequiredFiles(d)), disk[RULINGS_FILE])
  }

  function PartOne(d: Declaration, disk: Disk): seq<Block>
    requires forall f | f in RequiredFiles(d) :: f in disk
  {
    seq(|d.sources|, i requires 0 <= i < |d.sources| =>
      assert SourceFiles(d.sources)[i] in RequiredFiles(d); SourceBlock(d.sources[i].caption, d.sources[i].kind, disk[d.sources[i].file]))
    + [ModelBlock(disk[MODEL_FILE])]
    + if d.aliases == [] then [] else [AliasBlock(d.aliases)]
  }

  function PartTwo(d: Declaration, disk: Disk): seq<(string, string)>
    requires forall f | f in RequiredFiles(d) :: f in disk
  {
    seq(|d.frameworks|, i requires 0 <= i < |d.frameworks| =>
      assert ClaimFiles(d.frameworks)[i] in RequiredFiles(d); (d.frameworks[i], disk[ClaimFile(d.frameworks[i])]))
  }

  function Served(d: Declaration, disk: Disk): Content
    requires forall f | f in RequiredFiles(d) :: f in disk
  {
    Content(d.title, PartOne(d, disk), PartTwo(d, disk))
  }

  /** The preparation: the case is loaded or refused, and its declared files are digested. */
  function CasePreparation(loader: Loader, digest: Digest): Preparation {
    (disk: Disk) => Prepare(loader, digest, disk)
  }

  function Prepare(loader: Loader, digest: Digest, disk: Disk): Result<Prepared, string> {
    if SOURCE_FILE !in disk then Err(SOURCE_FILE)
    else
      match Declared(loader, disk)
      case None => Err(CASE_FILE)
      case Some(d) =>
        DigestsAre(digest, disk, RequiredFiles(d));
        match Digests(digest, disk, RequiredFiles(d))
        case Err(e) => Err(e)
        case Ok(digests) =>
          if loader.refuses(d, Texts(disk, RequiredFiles(d))).Some? then Err(loader.refuses(d, Texts(disk, RequiredFiles(d))).value)
          else if RulingsRefusal(loader, d, disk).Some? then Err(RulingsRefusal(loader, d, disk).value)
          else Ok(Prepared(RequiredFiles(d), digests, Served(d, disk)))
  }

  /** The case can be prepared: its files are there, and the loader refuses none of them. */
  ghost predicate Prepares(loader: Loader, disk: Disk) {
    && SOURCE_FILE in disk && Declared(loader, disk).Some?
    && var d := Declared(loader, disk).value;
       && Holds(disk, RequiredFiles(d)) && loader.refuses(d, Texts(disk, RequiredFiles(d))).None?
       && RulingsRefusal(loader, d, disk).None?
  }

  /** A sitting reads the declared sources, the model, and the claims of each declared framework, in this order. */
  lemma RequiredAre(d: Declaration)
    ensures var files, n := RequiredFiles(d), |d.sources|;
            && |files| == n + 1 + |d.frameworks| && files[n] == "model.json"
            && (forall i | 0 <= i < n :: files[i] == d.sources[i].file)
            && forall i | 0 <= i < |d.frameworks| :: files[n + 1 + i] == "claims/" + d.frameworks[i] + ".json"
  {
  }

  /** A case that declares a framework twice, or no source or framework, is not read as a case. */
  lemma DeclaredOnce(loader: Loader, disk: Disk)
    requires Declared(loader, disk).Some?
    ensures var d := Declared(loader, disk).value;
            && |d.sources| > 0 && |d.frameworks| > 0 && forall f :: multiset(d.frameworks)[f] <= 1
  {
    var d := Declared(loader, disk).value;
    forall f ensures multiset(d.frameworks)[f] <= 1 { AtMostOnce(d.frameworks, f); }
  }

  lemma {:induction false} AtMostOnce(s: seq<string>, f: string)
    requires forall i, j | 0 <= i < j < |s| :: s[i] != s[j]
    ensures multiset(s)[f] <= 1
  {
    if s != [] {
      var n := |s| - 1;
      assert s == s[..n] + [s[n]];
      AtMostOnce(s[..n], f);
      if s[n] == f { assert f !in s[..n]; }
    }
  }

  /** Nothing but the case file, the rulings, the presence of `source.md` and the declared files bears on a preparation. */
  lemma PreparationReads(loader: Loader, digest: Digest, a: Disk, b: Disk)
    requires Declared(loader, a).Some? && CASE_FILE in b && a[CASE_FILE] == b[CASE_FILE]
    requires (SOURCE_FILE in a <==> SOURCE_FILE in b)
    requires (RULINGS_FILE in a <==> RULINGS_FILE in b) && (RULINGS_FILE in a ==> a[RULINGS_FILE] == b[RULINGS_FILE])
    requires SameBytes(a, b, RequiredFiles(Declared(loader, a).value))
    ensures CasePreparation(loader, digest)(a) == CasePreparation(loader, digest)(b)
  {
    var d := Declared(loader, a).value;
    SameServed(d, a, b);
    DigestsAre(digest, a, RequiredFiles(d));
    DigestsAre(digest, b, RequiredFiles(d));
    assert (map f | f in RequiredFiles(d) :: digest(a[f])) == (map f | f in RequiredFiles(d) :: digest(b[f]));
    assert Declared(loader, b) == Some(d);
    hide RequiredFiles, Served, Digests, Texts;
  }

  lemma CasePrepared(loader: Loader, digest: Digest, a: Disk)
    ensures var result := CasePreparation(loader, digest)(a);
            && (result.Ok? <==> Prepares(loader, a))
            && (result.Ok? ==>
                  var d := Declared(loader, a).value;
                  result == Ok(Prepared(RequiredFiles(d), map f | f in RequiredFiles(d) :: digest(a[f]), Served(d, a))))
  {
    if Declared(loader, a).Some? { DigestsAre(digest, a, RequiredFiles(Declared(loader, a).value)); }
  }

  lemma CaseIsSigned(loader: Loader, digest: Digest)
    ensures Signed(CasePreparation(loader, digest), digest)
  {
    forall a: Disk | CasePreparation(loader, digest)(a).Ok?
      ensures var p := CasePreparation(loader, digest)(a).value; Digests(digest, a, p.files) == Ok(p.digests)
    {
      CasePrepared(loader, digest, a);
      DigestsAre(digest, a, RequiredFiles(Declared(loader, a).value));
    }
  }

  /** What is served, with the names of the files, tells the whole declaration. */
  lemma ServedTells(d: Declaration, e: Declaration, a: Disk, b: Disk)
    requires Holds(a, RequiredFiles(d)) && Holds(b, RequiredFiles(e))
    requires RequiredFiles(d) == RequiredFiles(e) && Served(d, a) == Served(e, b)
    ensures d == e
  {
    var x, y := Served(d, a), Served(e, b);
    assert |x.partTwo| == |d.frameworks| && |y.partTwo| == |e.frameworks|;
    assert |RequiredFiles(d)| == |d.sources| + 1 + |d.frameworks| && |RequiredFiles(e)| == |e.sources| + 1 + |e.frameworks|;
    forall i | 0 <= i < |d.frameworks| ensures d.frameworks[i] == e.frameworks[i] {
      assert x.partTwo[i] == y.partTwo[i];
    }
    forall i | 0 <= i < |d.sources| ensures d.sources[i] == e.sources[i] {
      assert RequiredFiles(d)[i] == d.sources[i].file && RequiredFiles(e)[i] == e.sources[i].file;
      assert x.partOne[i] == y.partOne[i];
    }
    var n := |d.sources| + 1;
    assert |x.partOne| == n + (if d.aliases == [] then 0 else 1) && |y.partOne| == n + (if e.aliases == [] then 0 else 1);
    if d.aliases != [] { assert x.partOne[n] == AliasBlock(d.aliases) && y.partOne[n] == AliasBlock(e.aliases); }
  }

  /** The same declaration over the same bytes serves the same. */
  lemma SameServed(d: Declaration, a: Disk, b: Disk)
    requires SameBytes(a, b, RequiredFiles(d))
    ensures Texts(a, RequiredFiles(d)) == Texts(b, RequiredFiles(d)) && Served(d, a) == Served(d, b)
  {
    forall i | 0 <= i < |d.sources| ensures d.sources[i].file in RequiredFiles(d) {
      assert SourceFiles(d.sources)[i] in RequiredFiles(d);
    }
    forall i | 0 <= i < |d.frameworks| ensures ClaimFile(d.frameworks[i]) in RequiredFiles(d) {
      assert ClaimFiles(d.frameworks)[i] in RequiredFiles(d);
    }
    assert MODEL_FILE in RequiredFiles(d);
    assert PartOne(d, a) == PartOne(d, b) && PartTwo(d, a) == PartTwo(d, b);
  }

  /**
   When a request gets what a fresh preparation would give, with the case prepared
   at `a` and its files as in `b`. Where the required files hold the same bytes, the
   case file must still declare the same title, sources with their kinds and labels,
   frameworks and aliases, `source.md` must be there, and the rulings must load.
   Where a required file is gone, the case must be one that cannot be prepared.
   */
  lemma FreshRequestWhen(loader: Loader, digest: Digest, a: Disk, b: Disk)
    requires Injective(digest) && CasePreparation(loader, digest)(a).Ok?
    ensures Declared(loader, a).Some?
    ensures var prepare, was := CasePreparation(loader, digest), Declared(loader, a).value;
            SameAnswer(Answer(prepare, digest, Some(prepare(a).value), b), prepare(b)) <==>
              && (SameBytes(a, b, RequiredFiles(was)) ==>
                    Declared(loader, b) == Some(was) && SOURCE_FILE in b && RulingsRefusal(loader, was, b).None?)
              && (!Holds(b, RequiredFiles(was)) ==> !Prepares(loader, b))
  {
    var prepare := CasePreparation(loader, digest);
    CaseIsSigned(loader, digest);
    CasePrepared(loader, digest, a);
    CasePrepared(loader, digest, b);
    var was := Declared(loader, a).value;
    OneRequest(prepare, digest, a, b);
    if SameBytes(a, b, RequiredFiles(was)) {
      SameRequest(loader, digest, a, b);
    }
  }

  lemma SameRequest(loader: Loader, digest: Digest, a: Disk, b: Disk)
    requires Prepares(loader, a) && SameBytes(a, b, RequiredFiles(Declared(loader, a).value))
    ensures var prepare, was := CasePreparation(loader, digest), Declared(loader, a).value;
            prepare(b) == prepare(a) <==> Declared(loader, b) == Some(was) && SOURCE_FILE in b && RulingsRefusal(loader, was, b).None?
  {
    var prepare, was := CasePreparation(loader, digest), Declared(loader, a).value;
    CasePrepared(loader, digest, a);
    CasePrepared(loader, digest, b);
    SameServed(was, a, b);
    if prepare(b) == prepare(a) { ServedTells(was, Declared(loader, b).value, a, b); }
    assert (map f | f in RequiredFiles(was) :: digest(a[f])) == (map f | f in RequiredFiles(was) :: digest(b[f]));
  }

  /** No case is kept fresh over every run: the case file is read, and it is not digested. */
  lemma CaseFileIsNotDigested(loader: Loader, digest: Digest, a: Disk)
    requires Injective(digest) && CasePreparation(loader, digest)(a).Ok? && CASE_FILE !in RequiredFiles(Declared(loader, a).value)
    ensures !Determined(CasePreparation(loader, digest)) && !AlwaysFresh(CasePreparation(loader, digest), digest)
  {
    var prepare := CasePreparation(loader, digest);
    CasePrepared(loader, digest, a);
    var b := a - {CASE_FILE};
    assert SameBytes(a, b, prepare(a).value.files) && prepare(b).Err?;
    CaseIsSigned(loader, digest);
    FreshWhenDetermined(prepare, digest);
  }

  // ---- Requests that are not fresh ----

  const STRIDE := ClaimFile("stride")
  const ASVS := ClaimFile("asvs")
  const FIRST := Declaration("Checkout", [Source(SOURCE_FILE, "description", "System description")], ["asvs", "stride"], [])
  const RENAMED := FIRST.(title := "Order capture")
  const RELABELLED := FIRST.(sources := [Source(SOURCE_FILE, "description", "Interview")])
  const ALIASED := FIRST.(aliases := [Alias("boundary:core - core network", "Source: in our core network")])
  const NARROWED := FIRST.(frameworks := ["stride"])

  /** Five case files of one case. */
  function ReadCase(text: string): Option<Declaration> {
    if text == "first" then Some(FIRST)
    else if text == "renamed" then Some(RENAMED)
    else if text == "relabelled" then Some(RELABELLED)
    else if text == "aliased" then Some(ALIASED)
    else if text == "narrowed" then Some(NARROWED)
    else None
  }

  /** A loader that takes the files of the case, and refuses rulings that name no case. */
  const LOADER := Loader(ReadCase, (d, texts) => None, (d, texts, text) => if text == "{}" then Some(RULINGS_FILE) else None)

  function CaseDisk(text: string): Disk {
    map[CASE_FILE := text, SOURCE_FILE := "A checkout.", MODEL_FILE := "m", STRIDE := "s", ASVS := "v"]
  }

  lemma FileNames()
    ensures CASE_FILE != SOURCE_FILE && SOURCE_FILE != MODEL_FILE && MODEL_FILE != CASE_FILE && RULINGS_FILE !in {CASE_FILE, SOURCE_FILE, MODEL_FILE, STRIDE, ASVS}
    ensures STRIDE !in {CASE_FILE, SOURCE_FILE, MODEL_FILE, ASVS} && ASVS !in {CASE_FILE, SOURCE_FILE, MODEL_FILE}
  {
    assert STRIDE[..8] == "claims/s" && ASVS[..8] == "claims/a";
    assert CASE_FILE[2] == 's' && STRIDE[2] == 'a' && ASVS[2] == 'a' && STRIDE[7] != ASVS[7];
    assert SOURCE_FILE[0] == 's' && MODEL_FILE[0] == 'm' && RULINGS_FILE[0] == 'r' && CASE_FILE[0] == 'c';
  }

  lemma FiveCases()
    ensures ReadCase("first") == Some(FIRST) && ReadCase("renamed") == Some(RENAMED) && ReadCase("relabelled") == Some(RELABELLED)
    ensures ReadCase("aliased") == Some(ALIASED) && ReadCase("narrowed") == Some(NARROWED)
    ensures forall d | d in {FIRST, RENAMED, RELABELLED, ALIASED} :: Admissible(d) && RequiredFiles(d) == [SOURCE_FILE, MODEL_FILE, ASVS, STRIDE]
    ensures Admissible(NARROWED) && RequiredFiles(NARROWED) == [SOURCE_FILE, MODEL_FILE, STRIDE]
    ensures FIRST !in {RENAMED, RELABELLED, ALIASED}
  {
    assert "first"[0] == 'f' && "renamed"[2] == 'n' && "relabelled"[2] == 'l' && "aliased"[0] == 'a' && "narrowed"[0] == 'n';
    assert "asvs"[0] != "stride"[0] && "Checkout"[0] != "Order capture"[0] && "System description"[0] != "Interview"[0];
    assert ClaimFiles(["asvs", "stride"]) == [ASVS, STRIDE] && ClaimFiles(["stride"]) == [STRIDE];
  }

  /** Each of the five case files can be prepared over its files. */
  lemma DiskPrepares(text: string, d: Declaration)
    requires ReadCase(text) == Some(d) && d in {FIRST, RENAMED, RELABELLED, ALIASED}
    ensures Declared(LOADER, CaseDisk(text)) == Some(d) && Prepares(LOADER, CaseDisk(text))
    ensures SameBytes(CaseDisk("first"), CaseDisk(text), RequiredFiles(FIRST))
  {
    FileNames();
    FiveCases();
    hide ReadCase, RequiredFiles, Admissible, ClaimFile;
    assert LOADER.read(text) == Some(d);
  }

  /** The digested bytes are the same, so the request serves what was kept, which is not what a fresh preparation serves. */
  lemma StillServed(loader: Loader, digest: Digest, a: Disk, b: Disk)
    requires Prepares(loader, a) && SameBytes(a, b, RequiredFiles(Declared(loader, a).value))
    ensures var prepare := CasePreparation(loader, digest);
            && prepare(a).Ok? && prepare(a).value.content == Served(Declared(loader, a).value, a)
            && Digests(digest, b, prepare(a).value.files) == Ok(prepare(a).value.digests)
            && Answer(prepare, digest, Some(prepare(a).value), b) == prepare(a)
            && (Prepares(loader, b) ==> prepare(b).Ok? && prepare(b).value.content == Served(Declared(loader, b).value, b))
  {
    var was := Declared(loader, a).value;
    CasePrepared(loader, digest, a);
    CasePrepared(loader, digest, b);
    DigestsAre(digest, a, RequiredFiles(was));
    DigestsAre(digest, b, RequiredFiles(was));
    assert (map f | f in RequiredFiles(was) :: digest(a[f])) == (map f | f in RequiredFiles(was) :: digest(b[f]));
  }

  /** The title of the case file changes, no digested file does, and the request still shows the first title. */
  lemma TitleGoesStale(digest: Digest)
    ensures var prepare, a, b := CasePreparation(LOADER, digest), CaseDisk("first"), CaseDisk("renamed");
            && prepare(a).Ok? && Answer(prepare, digest, Some(prepare(a).value), b) == prepare(a)
            && prepare(a).value.content.title == "Checkout"
            && prepare(b).Ok? && prepare(b).value.content.title == "Order capture"
  {
    FiveCases();
    hide ReadCase, CaseDisk, RequiredFiles;
    DiskPrepares("first", FIRST);
    DiskPrepares("renamed", RENAMED);
    StillServed(LOADER, digest, CaseDisk("first"), CaseDisk("renamed"));
  }

  /** So it is with the label of a source: the title, the files and their bytes stay, and the request shows the first label. */
  lemma LabelGoesStale(digest: Digest)
    ensures var prepare, a, b := CasePreparation(LOADER, digest), CaseDisk("first"), CaseDisk("relabelled");
            && prepare(a).Ok? && Answer(prepare, digest, Some(prepare(a).value), b) == prepare(a)
            && prepare(a).value.content.partOne[..1] == [SourceBlock("System description", "description", "A checkout.")]
            && prepare(b).Ok? && prepare(b).value.content.partOne[..1] == [SourceBlock("Interview", "description", "A checkout.")]
  {
    FiveCases();
    hide ReadCase, RequiredFiles;
    DiskPrepares("first", FIRST);
    DiskPrepares("relabelled", RELABELLED);
    StillServed(LOADER, digest, CaseDisk("first"), CaseDisk("relabelled"));
  }

  /** A reviewed alias that the case file gains is not shown. */
  lemma AliasGoesStale(digest: Digest)
    ensures var prepare, a, b := CasePreparation(LOADER, digest), CaseDisk("first"), CaseDisk("aliased");
            && prepare(a).Ok? && Answer(prepare, digest, Some(prepare(a).value), b) == prepare(a)
            && |prepare(a).value.content.partOne| == 2
            && prepare(b).Ok? && prepare(b).value.content.partOne[2..] == [AliasBlock(ALIASED.aliases)]
  {
    FiveCases();
    hide ReadCase, CaseDisk, RequiredFiles;
    DiskPrepares("first", FIRST);
    DiskPrepares("aliased", ALIASED);
    StillServed(LOADER, digest, CaseDisk("first"), CaseDisk("aliased"));
  }

  /** The case gains rulings that do not load: a fresh preparation refuses it, and the request still serves it. */
  lemma RulingsGoStale(digest: Digest)
    ensures var prepare, a, b := CasePreparation(LOADER, digest), CaseDisk("first"), CaseDisk("first")[RULINGS_FILE := "{}"];
            && prepare(a).Ok? && Answer(prepare, digest, Some(prepare(a).value), b) == prepare(a)
            && prepare(b).Err?
  {
    var a, b := CaseDisk("first"), CaseDisk("first")[RULINGS_FILE := "{}"];
    FileNames();
    FiveCases();
    DiskPrepares("first", FIRST);
    hide ReadCase, RequiredFiles, CASE_FILE, SOURCE_FILE, MODEL_FILE, ASVS, STRIDE, RULINGS_FILE;
    assert SameBytes(a, b, RequiredFiles(FIRST)) && Declared(LOADER, b) == Some(FIRST);
    StillServed(LOADER, digest, a, b);
    assert RulingsRefusal(LOADER, FIRST, b).Some?;
    CasePrepared(LOADER, digest, b);
  }

  lemma NarrowedPrepares()
    ensures var b := CaseDisk("narrowed") - {ASVS}; Prepares(LOADER, b) && !Holds(b, RequiredFiles(FIRST))
  {
    var b := CaseDisk("narrowed") - {ASVS};
    FileNames();
    FiveCases();
    hide ReadCase, RequiredFiles, CASE_FILE, SOURCE_FILE, MODEL_FILE, ASVS, STRIDE, RULINGS_FILE;
    assert Declared(LOADER, b) == Some(NARROWED);
    assert ASVS in RequiredFiles(FIRST) && ASVS !in b;
  }

  /** The case drops one of its two frameworks and its claims are deleted: a fresh preparation works, and the request is refused. */
  lemma DroppedFileRefuses(digest: Digest)
    ensures var prepare, a, b := CasePreparation(LOADER, digest), CaseDisk("first"), CaseDisk("narrowed") - {ASVS};
            && prepare(a).Ok? && prepare(b).Ok?
            && Answer(prepare, digest, Some(prepare(a).value), b).Err?
  {
    var a, b := CaseDisk("first"), CaseDisk("narrowed") - {ASVS};
    FiveCases();
    DiskPrepares("first", FIRST);
    NarrowedPrepares();
    hide ReadCase, RequiredFiles, CaseDisk, ASVS, FIRST, Prepares;
    CasePrepared(LOADER, digest, a);
    CasePrepared(LOADER, digest, b);
    DigestsAre(digest, b, RequiredFiles(FIRST));
  }
}
