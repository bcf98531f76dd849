# Verified model of the review tools, the local web app and its settings

This project models five parts of the repository in Dafny and proves what their
documentation and tests promise of them. `dafny verify dfyconfig.toml` checks it
all.

**The settings save** (`webapp/settings_save.py`). `SettingsFile` reads and
prints `settings.env`, `SettingsReading` says what any text of it reads as,
`SettingsLines` and `SaveRules` make the saved lines and
the refusals, `KeyFiles` names, writes and deletes key files. `SaveProtocol` puts
these together as steps of interleaved saves over one directory and one lock,
with a failure at every step and hand edits while the check runs. `SaveSafety`
proves an invariant over every run, `SaveRefinement` that every run is one of
saves in a single step, `SaveProgress` when a save goes on rather than being
undone and that none is stuck, `SaveOutcome` that the file and the key files come to
what each save was asked, `SaveDeployment` what the deployment that serves has to do with the file.
A revision stands for the bytes it hashes. For key safety a hand edit may land
anywhere but from the second revision check of a save to the end of its cleanup,
and names only existing files that no uncommitted save owns; that no update is
lost asks less.

**Strings that are undone or must not interfere.** `IncludeSync`, `IncludeExtract`,
`IncludeProofs`, `IncludeRun` and `IncludeSettles` are the generated blocks of the
documents; `ScriptJson` and its proofs are JSON inside a script block with a
parser to undo it, `JsonNumbers` the grammar of its numbers; `PageTemplate` is the
filling of a page field by field; `MarkdownText` is the two-pass escape of a
report. The results hold for all strings.

**References of the compact transport** (`evals/bench/deterministic.py`).
`CompactRefs` gives each element a fresh ref and rewrites what refers to it,
`CompactProofs` expands the result again as `src/analysis_service/compact.py`
does, and `CompactExpansion` says what that does to any compact model. A name's slug is a parameter. Element IDs are assumed distinct.

**The job workspace** (`webapp/main.py`, over `src/analysis_service/jobs.py`).
`JobStore` is admission, locking and deletion over the rows of one owner; a job
is named by its place in the order of admission, and a deleted job leaves a row
with its status and parent. `MakeRoom` is the bound on held jobs, `ResumeChains`
which job of an analysis waits for answers. `MakeRoom` takes the choice of the jobs
as one read of the store; `RoomRaces` takes it read by read, with everyone else's
steps between the reads and up to the deletes. `ContinueHandoff` is the automatic
continue racing with readers, `Analyses` the grouping and the deletion of an
analysis.

**Review ledger and sittings** (`evals/review_submission.py`,
`webapp/sitting_base.py`, `webapp/sitting.py`). `Ledger` and `LedgerLaws` reduce
merged sittings to live ones and ties, `Contributions` validates a new file,
`ReviewCoverage` folds live sittings to coverage. `PreparedCases` is the cache of
prepared cases. `SittingDraft` is one reader's draft of one case over the routes,
`CaseDesks` these routes as they run on its fields,
`SittingMarks` what its marks come to under the findings of today,
`SittingRuns` what holds over every sequence of requests, corpus edits and merges.

## Where the code and its documentation part

Some promises hold under a condition only; each has a lemma that says when.

- A second rendering can change a document whose includes pull in the closing
  fence and its marker. Where no such text opens another include behind that
  fence, the document settles exactly where none holds the fence
  (`SettlesExactly`), and else every run adds to it (`NeverSettles`). A text that
  does open one can settle all the same (`UncleanCanSettle`).
- The order of the fields can decide what a page is filled to. It never does
  exactly where no part of a placeholder stands right in front of a placeholder
  of another name (`OrderFreeWhenSeparate`); `UnfinishedDependsOnOrder` is a page
  where it does.
- `make_room` says that a job waiting for answers is never deleted. It reads the
  lock of each job, and then the job that holds the lock. A pause whose lock is
  held by a running job can be chosen, and if that job fails, the pause waits
  again and its delete still goes through (`PassTakesAWaitingJob`). Where the
  pause asks nobody, the failure may come at any time before the delete, and
  where it asks people, between the two reads. No other job is ever deleted
  while it waits (`TakenExactlyWhen`); with both reads at one moment, only a
  pause that asks nobody is (`TakenWhenReadAtOnce`).
- The gate answers where every case loads. The rail then signs a case exactly where
  the gate clears it (`RailAndGateAgree`), except for a case that loads and cannot be
  prepared, for example because a claim of it has no key: it declares no framework,
  so the gate lists no work for it while the rail signs nothing
  (`UnpreparedCaseIsNeither`).
- The kept preparation of a case can differ from a fresh one, because `case.json`
  and `rulings.json` are read and not digested (`CaseFileIsNotDigested`). A new
  title, source label or alias alone goes unnoticed (`TitleGoesStale`,
  `LabelGoesStale`, `AliasGoesStale`), a case with rulings that do not load is still
  served (`RulingsGoStale`), and a case that drops a framework and its claims is
  refused, though it could be prepared (`DroppedFileRefuses`). `FreshRequestWhen`
  says exactly which requests are fresh.
- Putting a held-back case back records it without the check that recording it
  first had (`PutBackLooksAtNoFile`); the contribution checks again.
- The own list pins the files as they are when it comes, not as part one showed
  them (`FirstListPinsItsOwnRead`).
- A hand edit between the second revision check and the replace is written over
  (`EditBeforeReplaceIsLost`), and where it changes a line that the save keeps, the
  file is not what the save makes of it (`EditOfSurvivorIsLost`). No other edit is
  lost (`NoUpdateLost`).
- A save that ends before the replace says that it changed nothing. The directory is
  as found exactly where no delete of its rollback fails (`FailedSaveLeavesAll`).

## Model

| member | source | states |
|---|---|---|
| SettingsFile.ReadsBack | src/analysis_service/config_files.py:212-273 | whatever lines may be written, reading the written file gives the same variables, values and numbers |
| SettingsFile.ReadsDistinct | src/analysis_service/config_files.py:239-252 | a file that reads at all reads as lines with distinct keys of the key form: a line set twice refuses the file |
| SettingsReading.ReadsLineByLine | src/analysis_service/config_files.py:212-252 | any text, with or without a break at its end: each line that is not empty gives its key and value under its own number, or the text is refused at a line that is no `KEY=value`, or that sets a key again |
| SettingsLines.SavedLines | webapp/settings_save.py:265-290 | the loop over lines, changes and drops gives the closed form: kept lines in order, new ones last, numbered from 1, for every save |
| SettingsLines.SavedLookup | webapp/settings_save.py:276-286 | a variable has a line afterwards exactly where it is not dropped and is either set by a change or an old line neither removed nor reset, and the value is the change's or the old one |
| SettingsLines.SavedOrder | webapp/settings_save.py:276-290 | a surviving line stays before every later surviving line and before every new one |
| SettingsLines.SavedAnyOrder | webapp/settings_save.py:277-283 | the saved values do not depend on the order of the changes in the body |
| SaveRules.Refusals | webapp/settings_save.py:163-217 | the refusals, in the order of the body; there are none exactly where every change and every removal is accepted |
| SaveRules.RefusedWhen | webapp/settings_save.py:176-203 | which change is refused, and what for, by its setting, the process environment and the characters of its value |
| SaveRules.AcceptedWhen | webapp/settings_save.py:163-217 | a body is refused nothing exactly where each change sets a free variable of a setting that the page changes to a value it can hold, and each removal names a line that this version does not read |
| SaveRules.KeyTextsAre | webapp/settings_save.py:220-227 | the keys to write are, in order and for exactly the changes that give a key setting a value, the setting's variable with that value |
| SaveRules.AcceptedHasLines | webapp/settings_save.py:277-283 | an accepted save whose keys are written never runs into the missing-variable or missing-key-file error |
| SaveRules.MergedIsLoose | src/analysis_service/settings_variables.py:100-122 | where the merge refuses nothing, no line is shadowed by the process environment and every line is known |
| SaveRules.SavedLinesAre | webapp/settings_save.py:286-290 | the saved lines are distinct, carry the closed form's values and are numbered 1 to n |
| SaveRules.CheckedIsCommitted | webapp/settings_save.py:438-450 | the mapping that is committed equals the mapping that was checked, except that it lacks key variables of vendors that no tier uses; it passes the merge whenever the checked one did |
| SaveRules.UsedKeyStays | webapp/settings_save.py:304-317 | a key variable of a vendor that a tier uses, in the checked mapping, is in the committed one exactly where the process environment sets it or no vendor without a tier lists it too |
| SaveRules.RemovalsApart | webapp/settings_save.py:202-216 | an accepted removal never names the variable of a change; it names an existing line that this version does not read |
| KeyFiles.NameHasForm | webapp/settings_save.py:66-68 | the printed key file name matches the name pattern exactly where its stem is not empty, and reads back as that stem |
| KeyFiles.FormIs | webapp/settings_save.py:66-68 | a name has the form of a key file exactly where it is a stem of lower-case letters, digits and underscores, a dot and sixteen hexadecimal characters |
| KeyFiles.KeyStemIs | webapp/settings_save.py:234-239 | the stem of a key file name is the variable without its prefix and suffix, in lower case |
| KeyFiles.ResolveName | webapp/settings_save.py:234-239 | the absolute path that a line holds resolves back to the file that was written |
| KeyFiles.ResolveWhen | webapp/settings_save.py:325-333 | the text of a line names a file of the directory exactly where it is the directory, a slash and a name |
| KeyFiles.Directory.WriteKeys | webapp/settings_save.py:242-256 | all keys are written to new files, or, for a failure at any key, the directory is as it was found |
| KeyFiles.Directory.DeleteFiles | webapp/settings_save.py:259-262 | each file named and no other is deleted, up to a delete that fails |
| KeyFiles.UndoWrites | webapp/settings_save.py:253-255 | taking the written files away again gives back the directory as found |
| KeyFiles.WritesAre | webapp/settings_save.py:246-252 | successful writes overwrite nothing, put each text at its own new path and use no path twice |
| KeyFiles.WrittenAre | webapp/settings_save.py:246-252 | what the writes return names exactly the variables of the keys, each with the path of its own file |
| SaveProgress.AcceptedMergesWhen | src/analysis_service/settings_variables.py:100-122 | the loader takes the lines of a save that no rule refuses exactly where it takes each line that survives the save and the process environment breaks no value rule |
| SaveProgress.ReadGoesOn | webapp/settings_save.py:421-430 | a save that has the lock goes on to write its keys exactly where the file reads, still holds what the page showed, and the rules take its body; otherwise it ends at once and lets the lock go, with a conflict exactly where the file reads and holds something else |
| SaveProgress.MergeGoesOn | webapp/settings_save.py:430-438 | a save that has written its keys goes on to its check exactly where each surviving line loads; else it is refused, and it never raises |
| SaveProgress.RecheckGoesOn | webapp/settings_save.py:443-452 | a checked save goes on to the replace exactly where the file still holds what it read and the lines can be written; a changed file is a conflict, and the loader refuses nothing that the check accepted |
| SaveProgress.NeverStuck | webapp/settings_save.py:379-455 | in every state of the invariant the step that leads on from its phase is open to each save, and takes it to the next phase: no save waits for anything but the lock |
| SaveProgress.FailuresCome | webapp/settings_save.py:404-455 | a failure can come at each key, the check, the replace, each delete and the listing: before the replace it undoes the save's own files, behind it the save stays made |
| SaveSafety.StepKeeps | webapp/settings_save.py:379-455 | every step of every save, failure and hand edit keeps the invariant over lines, files, lock and program counters |
| SaveSafety.KeySafety | webapp/settings_save.py:379-418 | over every run, every key variable of the merged mapping names an existing file, and at most one save is between lock and release |
| SaveSafety.DeleteSafety | webapp/settings_save.py:320-333 | over every run, a rollback or cleanup deletes no file that the mapping names and none that another save has written and not committed |
| SaveSafety.CleanupIsComplete | webapp/settings_save.py:411-417 | over every run, when a cleanup ends well no file of key-file form is left unnamed |
| SaveRefinement.StepRefines | webapp/settings_save.py:421-455 | each step of the protocol is invisible, a hand edit, one atomic save, the collection of an unnamed key file, or a leak of unnamed key files |
| SaveRefinement.RunRefines | webapp/settings_save.py:379-455 | any interleaved run shows the directory the same changes as atomic saves in commit order |
| SaveRefinement.NoUpdateLost | webapp/settings_save.py:421-455 | the file after any run is the committed saves applied in commit order over the hand edits, wherever these land but between the second revision check and the replace |
| SaveRefinement.FailedSaveLeavesAll | webapp/settings_save.py:432-455 | a save that ends in a conflict, a refusal or an exception before the replace leaves `settings.env` as found or as the last hand edit left it, and every file as found exactly where no delete of its rollback fails |
| SaveRefinement.OnlyReplaceWrites | webapp/settings_save.py:451-452 | no step but the replace and a hand edit changes `settings.env` |
| SaveOutcome.SaveDoesAsAsked | webapp/settings_save.py:265-290 | over every run, from the replace of a save to the next replace or hand edit, the file reads as lines in which each change is made, each removed or dropped variable is gone and every other line is as read, and each key that a change sets and no drop takes is named by its line and stands in that file |
| SaveRefinement.EditBeforeReplaceIsLost | webapp/settings_save.py:443-451 | a hand edit between the second revision check and the replace is written over: the replace comes to the same state with it and without it |
| SaveDeployment.DeploymentServesTheFile | webapp/settings_save.py:404-418 | over every run, from the swap of a save until the next replace or hand edit, the deployment that serves was built from a mapping that agrees with `settings.env` except on key variables of vendors that no tier of its check uses |
| SaveDeployment.EditDuringCleanup | webapp/settings_save.py:411-417 | a hand edit that lands while a save cleans up keeps the key files it names exactly where it names none that the cleanup listed |
| SaveDeployment.EditBeforeListing | webapp/settings_save.py:404-417 | a hand edit that lands after the replace and before the cleanup lists the directory keeps the key files it names exactly where it names none of key-file form that the committed mapping leaves unnamed |
| SaveDeployment.EditOfSurvivorIsLost | webapp/settings_save.py:443-451 | where a hand edit between the second revision check and the replace changes, adds or takes a line that the save keeps, the file is not the save applied to the edited one, so that hypothesis of the no-lost-update result is needed |
| IncludeSync.RegionBody | examples/sync_docs.py:96-101 | the tail loop gives the lines up to the last that is not blank |
| IncludeSync.RegionIs | examples/sync_docs.py:84-101 | a region resolves exactly where each marker stands on one line, in order, and is the lines between them up to the last that is not blank |
| Blanks.StripIs | examples/sync_docs.py:86-87 | stripping cuts off exactly the white space at both ends |
| IncludeExtract.ClassesAre | examples/sync_docs.py:55-62 | the characters that a path, a region and a language may hold, one by one |
| IncludeExtract.PrintedIs | examples/sync_docs.py:125-132 | an include as the documents hold it, character by character, for every source, region, language and body |
| IncludeExtract.LinesAre | examples/sync_docs.py:85 | the lines of a text are the text, cut behind each line break and nowhere else, with a carriage return and a line feed as one break |
| IncludeExtract.ExtractIs | examples/sync_docs.py:71-101 | an include pulls in the whole text of a file, or the piece of that text between the lines of the two markers without the blank lines at its end; it is an error exactly where the file is not there, a marker does not stand on exactly one line, or the end marker comes first |
| IncludeExtract.SuffixIs | examples/sync_docs.py:104-112 | the language of a fence goes by what stands behind the last dot of the last component of the path |
| IncludeExtract.NoSuffix | examples/sync_docs.py:104-112 | a last component without a dot, or with its only one in front or its last at the end, has no language |
| IncludeExtract.RenderFills | examples/sync_docs.py:115-133 | a rendering is the document with each include keeping its source and region and holding the text pulled in, with a line break at its end, and all else as it was; or the error of the first include that cannot be filled |
| IncludeProofs.IncludesSound | examples/sync_docs.py:55-62 | the real marks meet what the proofs ask: the opening mark occurs in no header, the closing one does not overlap itself |
| IncludeProofs.NoInnerOpen | examples/sync_docs.py:56-58 | no include opens inside the header of another |
| IncludeProofs.HeaderLocal | examples/sync_docs.py:56-58 | whether a header matches depends on no character behind it |
| IncludeProofs.CloseAfter | examples/sync_docs.py:59-62 | the non-greedy body ends where the printed body ended exactly where that body holds no closing fence |
| IncludeProofs.TextMatches | examples/sync_docs.py:115-133 | a printed include matches again as itself exactly where its body holds no closing fence |
| IncludeProofs.ScanPrints | examples/sync_docs.py:133 | leftmost matching splits every document into matches and characters that print as the document |
| IncludeProofs.NoStraddle | examples/sync_docs.py:133 | a character that starts no match starts none after the includes behind it are filled |
| IncludeProofs.ScanFilled | examples/sync_docs.py:133 | what a filled scan prints scans as the same pieces |
| IncludeProofs.RenderIsIdempotent | examples/sync_docs.py:115-133 | rendering twice is rendering once, for every document; the text outside the includes and each source and region stay |
| IncludeRun.Tree.Sync | examples/sync_docs.py:142-153 | the run over the files: what it writes, what it calls stale, and what stays after an error part way |
| IncludeRun.RenderSame | examples/sync_docs.py:115-133 | what a document renders as depends on the files it includes and on nothing else |
| IncludeRun.WriteRun | examples/sync_docs.py:142-153 | a writing run gives each document what the files before the run render it as and leaves every other file, where no document includes a rewritten one |
| IncludeRun.CheckNamesStale | examples/sync_docs.py:142-153 | a checking run names exactly the documents that would render otherwise, and changes nothing |
| IncludeRun.CheckAfterWrite | examples/sync_docs.py:142-153 | after a writing run, a checking run finds nothing stale and a second writing run changes nothing, where no included file is itself rewritten |
| IncludeSettles.ScanFilledCuts | examples/sync_docs.py:115-133 | what a filled document scans as, unclean texts included: each is cut at its first closing fence, and what stays behind is plain text where it opens no include |
| IncludeSettles.SettlesExactly | examples/sync_docs.py:115-133 | for every document whose pulled-in texts open no include behind a closing fence of their own, a second rendering changes nothing exactly where none of them holds such a fence; else it is longer than the first |
| IncludeSettles.NeverSettles | examples/sync_docs.py:142-153 | one such fence makes a document that no number of runs settles |
| IncludeSettles.UncleanCanSettle | examples/sync_docs.py:115-133 | two files, with the documents' own marks, where a pulled-in text holds the fence and opens an include behind it, and the document settles all the same: why the result above asks what it asks |
| JsonNumbers.NumberIsGrammar | webapp/page.py:147-161 | the numbers that a block may hold are those of section 6 of RFC 8259: a sign, an integer, a fraction and an exponent |
| ScriptJsonProofs.CharReads | webapp/page.py:147-161 | every character, escaped and with `<` replaced, reads back as itself whatever follows |
| ScriptJsonProofs.UnangleConcat | webapp/page.py:161 | the replacement of `<` works piece by piece, so it splits no escape |
| ScriptJsonProofs.ValueReads | webapp/page.py:147-161 | a parser reads any nested value back and stops at its end |
| ScriptJsonProofs.ScriptReadsBack | webapp/page.py:147-161 | parsing the text of a script block gives the value again, for every nested value |
| ScriptJsonProofs.ScriptIsSafe | webapp/page.py:147-161 | the text holds printable ASCII and no `<`, so it cannot close the block |
| PageTemplate.Render | webapp/page.py:209-219 | the loop fills the nonce, the script and the fields in order, or stops at the first missing placeholder |
| PageTemplateProofs.ReplaceTokens | webapp/page.py:216-219 | one replacement fills the holes of one name and touches nothing else, and finds its placeholder exactly where there is such a hole |
| PageTemplateProofs.SubFinished | webapp/page.py:216-219 | filling a hole with an inert value leaves no placeholder of a name yet to be filled unfinished in front of a hole of another |
| PageTemplateProofs.FillIsSimultaneous | webapp/page.py:187-220 | filling in order is filling at once; it fails exactly at the first field without a placeholder, and no value is read again |
| PageTemplateProofs.OrderDoesNotMatter | webapp/page.py:187-220 | the order of the fields changes neither the page nor whether there is one |
| PageTemplateProofs.ScriptComesFirst | webapp/page.py:211-219 | the script's own placeholders are filled with the fields, after it |
| PageTemplateProofs.PlainIsInert | webapp/page.py:134-161 | a value in either escape cannot form a placeholder |
| PageTemplateProofs.OrderFreeWhenSeparate | webapp/page.py:187-220 | for every page and names, no two orders of the same inert fields differ exactly where no part of a placeholder stands right in front of a placeholder of another name |
| PageTemplateProofs.UnfinishedDependsOnOrder | webapp/page.py:187-220 | a page that breaks this, and renders in one order and raises in the other |
| MarkdownText.TwoPasses | webapp/report_export.py:44-50 | the two passes are one pass that escapes markup and autolink characters: the second splits no pair of the first |
| MarkdownText.TextReadsBack | webapp/report_export.py:44-50 | undoing backslash escapes gives the value with whitespace normalised, and a character was escaped exactly where it starts markup or an autolink |
| MarkdownText.MarkupIs | webapp/report_export.py:38-38 | the characters of markup, one by one |
| MarkdownText.PunctuationIs | webapp/report_export.py:36-50 | the characters that a backslash can escape are the 32 of section 2.4 of CommonMark |
| MarkdownText.NormalisedKeeps | webapp/report_export.py:47 | normalising keeps the words and every character that is no whitespace, and doing it twice changes nothing |
| MarkdownText.InkAt | webapp/report_export.py:47 | the characters kept are exactly those that are no white space, in order |
| CompactRefs.CandidatesDiffer | evals/bench/deterministic.py:626-629 | no two suffixes give one ref |
| CompactRefs.TriesLeft | evals/bench/deterministic.py:627-629 | as many candidates as are taken fit in the taken refs: the pigeonhole behind the loop |
| CompactRefs.FirstFreeIs | evals/bench/deterministic.py:626-629 | the loop ends within the number of refs taken, at the first candidate that is free |
| CompactRefs.FreshRef | evals/bench/deterministic.py:621-629 | the loop ends, with the first free candidate |
| CompactRefs.GiveRefs | evals/bench/deterministic.py:617-631 | the refs given, group by group in order, or the first name without a slug |
| CompactRefs.AsCompact | evals/bench/deterministic.py:591-658 | the compact model of the nested loops over groups, rows, fields and assumptions |
| CompactProofs.NamesAreFresh | evals/bench/deterministic.py:617-631 | every element gets a ref of its own with the tag of its type, also where a name already ends in a suffix |
| CompactProofs.RefsAreSlugs | evals/bench/deterministic.py:616-632 | each ref is the letter of the element's type, a colon and the slug of its own name, or that with a hyphen and a number from two on |
| CompactExpansion.StandInIs | src/analysis_service/compact.py:552-559 | the stand-in ID of an element is the word for its type and the part of its ref behind the colon |
| CompactProofs.RewriteIs | evals/bench/deterministic.py:642-644 | the three assignments in place are one rewriting of the row, and fail exactly where a reference names no element |
| CompactProofs.CompactAssumptionsAre | evals/bench/deterministic.py:649-657 | each assumption keeps its words and names its element by the ref, or the first whose element has none is reported |
| CompactProofs.CompactRowOmits | evals/bench/deterministic.py:636-647 | a compact row holds its ref, the operations of a flow, and exactly the fields of the row that are neither the ID nor omittable and empty |
| CompactProofs.RowReadsBack | src/analysis_service/compact.py:562-586 | expanding a compact row gives the row back, completed with its defaults, under the renaming |
| CompactExpansion.ClaimIs | src/analysis_service/compact.py:528-549 | a ref names the first element that claims it, and is ambiguous exactly where a second one does |
| CompactExpansion.FollowIs | src/analysis_service/system_model.py:1303-1307 | a flow endpoint that names no element follows the zoned element of its slug exactly where there is one and no other |
| CompactExpansion.EndpointStays | src/analysis_service/system_model.py:1303-1307 | an endpoint that names an element, or has no tag of a zoned type, stays as it is |
| CompactExpansion.ReferencesBecome | src/analysis_service/compact.py:562-586 | in an expanded row a ref that one element claims becomes its stand-in ID and any other stays; an endpoint that names no element becomes what the ref of the one zoned element of its slug becomes |
| CompactProofs.CompactWhenClosed | evals/bench/deterministic.py:591-658 | a model has a compact form exactly where every name has a slug and every reference names an element |
| CompactProofs.CompactIsFaithful | evals/bench/deterministic.py:591-658 | expanding the compact form gives the whole model back under a one-to-one renaming of its IDs |
| MakeRoom.Workspace.Enter | webapp/main.py:632-646 | the entry chooses and changes nothing, or refuses |
| MakeRoom.Workspace.Exit | webapp/main.py:648-651 | the exit deletes the chosen jobs that the store lets go |
| MakeRoom.Workspace.Submit | webapp/main.py:2349-2362 | a submission is taken exactly where there is room and the store admits the job; then exactly the chosen jobs that nothing changed are gone, and with none changed the workspace is within its bound; otherwise nothing is deleted |
| MakeRoom.ChosenAreOldest | webapp/main.py:634-648 | the chosen jobs are the oldest that ended, wait for nothing and are not being answered, exactly as many as are needed |
| MakeRoom.FullMeansBusy | webapp/main.py:632-646 | the refusal comes exactly where as many jobs as the workspace holds run, wait for answers or are the one being answered |
| MakeRoom.DeletesAre | webapp/main.py:649-651 | the deletes remove exactly the chosen jobs that did not change, and the count falls by as many |
| MakeRoom.PassRestoresBound | webapp/main.py:615-651 | from any state a pass ends within the bound, plus one where it answers a job, plus one for each chosen job that changed |
| MakeRoom.RunStaysBounded | webapp/main.py:615-651 | over any run of submissions, passes with others in between, and other steps there is never more than one job over the bound |
| MakeRoom.SubmissionAdmits | src/analysis_service/jobs.py:1374-1397 | what admission does meets what a pass asks of the step between choice and delete |
| JobStore.ReserveWhen | src/analysis_service/jobs.py:1380-1399 | a job is admitted exactly where nothing runs, the budget holds and its parent, if any, is held at the revision read with no job that took its answers; it then is the last row and the parent's refusal is gone; each refusal says which of these fails |
| JobStore.DeleteWhen | src/analysis_service/jobs.py:1700-1730 | a job is deleted exactly where it is held, does not run, nothing changed it since the time given, and no running job resumes or amends it; each refusal says which of these fails |
| ResumeChains.StepKeeps | src/analysis_service/jobs.py:1374-1422 | every step keeps: parents are older and were read, one child locks a parent, and the parent of a running job is held |
| ResumeChains.WaitingWhen | webapp/main.py:591-612 | a held job waits for answers exactly where it is paused and no job took its answers, or it asks people and the one that did still runs |
| ResumeChains.AdmittedReadsLatest | src/analysis_service/jobs.py:1387-1388 | over every run, a job is admitted only where nothing saved answers to its parent since the revision that it names was read |
| ResumeChains.PausedJobsAsk | src/analysis_service/jobs.py:570-587 | over every run, only a job that asks people or continues at its pause is ever paused, and none that resumes another |
| ResumeChains.CanPause | src/analysis_service/jobs.py:570-587 | a running job can pause exactly where it is of these kinds |
| ResumeChains.OldRowsStay | src/analysis_service/jobs.py:934-945 | no step changes what a job came from, a deleted job, or the status of a job that ended |
| ResumeChains.EveryStepHappens | src/analysis_service/jobs.py:1374-1422 | a run through every step: a job pauses to ask, an amendment of it fails, a refusal and answers are stored, a job that resumes it completes, and the pause is deleted |
| ResumeChains.AdmittedLocks | src/analysis_service/jobs.py:1380-1397 | an admitted child was within the budget, alone in flight and read its parent as it is; it locks that parent at once, clears its refusal, and no second child comes in |
| ResumeChains.OneWaits | webapp/main.py:591-612 | at most one job of an analysis waits for answers, deleted jobs between them included |
| ResumeChains.OneWaitsInEveryRun | webapp/main.py:591-612 | the same over every run of start, resume, amend, finish, fail, save and delete steps |
| ResumeChains.RetryPlaceIsKept | webapp/main.py:594-611 | while a job runs that resumes a question-asking pause, the pause is held and waits, and no delete takes it |
| ResumeChains.FailedResumeCanRetry | src/analysis_service/jobs.py:1219-1232 | where that run fails, is rejected or is stopped, the pause takes answers again |
| RoomRaces.ChosenAtOnce | webapp/main.py:632-648 | where nothing happens while a pass reads the jobs, it chooses what `MakeRoom.Chosen` chooses at once |
| RoomRaces.OneSlotInEveryRun | src/analysis_service/jobs.py:1374-1397 | over every run one job at most is in flight, so the results on passes hold from every state that a run reaches |
| RoomRaces.TakenExactlyWhen | webapp/main.py:591-651 | with the listing, the lock read and the read of the locking job as separate steps of a run, a pass can choose a job and delete it while it waits for answers exactly where, at the lock read, it is a pause that a running job locks and that changed before the choice |
| RoomRaces.TakenWhenReadAtOnce | webapp/main.py:602-612 | where both reads of the job find one state, exactly where that pause also asks nobody |
| RoomRaces.PassTakesAWaitingJob | webapp/main.py:614-651 | a pass over two jobs that does it, for a pause that asks people and for one that does not: the lock is read, the resuming job fails, that job is read, the pause is chosen, the new job is admitted, and the pause is deleted while it waits |
| ContinueHandoff.StepKeeps | webapp/main.py:459-503 | every step of the task, a reader and everyone else keeps: a reader that found no task looks at a store to which no refusal comes any more |
| ContinueHandoff.AdmissionContinues | webapp/main.py:476-503 | the task's admission, by the rows: exactly where the job waits at its pause as it was read, nobody took its answers, nothing runs and the budget holds, the new job comes in, locks it and clears its refusal; otherwise the words are kept for storing, or nothing happens where the job waits no more |
| ContinueHandoff.PausedJobContinues | webapp/main.py:459-487 | the undisturbed task of a job that paused for its Controls alone, from the end of the run to the end of the task: the new job locks it |
| ContinueHandoff.OnlyUnstoppedContinues | webapp/main.py:459-487 | in every run, the task comes to its admission only after the job's run returned unstopped and room was made |
| ContinueHandoff.TaskAdvances | webapp/main.py:446-503 | no step of the task goes back or stays, and no other step moves it |
| ContinueHandoff.TaskNeverStuck | webapp/main.py:446-503 | each phase of the task has a step for every answer of the run, of the room and of the store |
| ContinueHandoff.ReaderAdvances | webapp/main.py:519-539 | no step of a reader goes back or stays, it changes neither store nor task, and no other step moves it |
| ContinueHandoff.ReaderNeverStuck | webapp/main.py:504-539 | a reader has a next step in every state but while it follows a task that is still there |
| ContinueHandoff.OthersGoOn | webapp/main.py:459-503 | everyone else can take any step of the store but the one that stores this job's refusal, and moves neither the task nor the reader |
| ContinueHandoff.StoredWordsAreShown | webapp/main.py:519-539 | a reader whose record holds a refusal answers with it |
| ContinueHandoff.StreamFollows | webapp/main.py:2704-2714 | a stream waits for the task exactly of a job that waits to be continued and whose task is there |
| ContinueHandoff.WordsAreStored | webapp/main.py:490-503 | storing a refusal changes the job's refusal alone, and nothing where the store fails or the job is gone |
| ContinueHandoff.NotContinuedIsTrue | webapp/main.py:524-539 | in every run, a reader says "not continued" only at a moment with no live Resumed Job, no stored refusal and no task |
| ContinueHandoff.SilenceHasAReason | webapp/main.py:524-539 | in every run, a reader shows no words only for a job that did not wait to be continued, whose task is there, or that a Resumed Job continues |
| ContinueHandoff.ContinuedIsTrue | webapp/main.py:2704-2714 | in every run, a stream says that a job continued only of one that waited to be continued, with a Resumed Job of it there and the task gone |
| ContinueHandoff.PausedJobAccountsForItself | webapp/main.py:519-539 | in every run, whatever comes between a reader's steps, a job paused for its Controls alone that no task continues answers with a Resumed Job that is there, a refusal stored meanwhile, or the sentence that it did not continue; it is silent only where a Resumed Job is there |
| ContinueHandoff.OldRecordMisses | webapp/main.py:530-537 | a run in which the record in hand, the task and the children all miss a stored refusal: why the store is read again |
| Analyses.RootIs | webapp/main.py:653-677 | the analysis of a job is at the end of the chain of parents that the records name: the first job that is gone, or that names no parent this version can read |
| Analyses.WorkspaceId | webapp/main.py:666-677 | the walk ends because parents are older, at the root of the chain |
| Analyses.Snapshots | webapp/main.py:692-705 | one snapshot for each analysis, the newest first |
| Analyses.ShownJob | webapp/main.py:698-703 | the latest job that waits, else the latest |
| Analyses.GroupsPartition | webapp/main.py:694-696 | the groups are the analyses: one group a root, each with exactly its jobs, oldest first |
| AnalysisProofs.InOneGroup | webapp/main.py:694-696 | every held job is in exactly one group, that of its root |
| AnalysisProofs.ChainIsOneGroup | webapp/main.py:666-677 | the root is constant along every retained parent chain |
| AnalysisProofs.RootGoes | webapp/main.py:669-676 | deleting a job without a parent moves no survivor to another group |
| AnalysisProofs.PrefixGoes | webapp/main.py:669-676 | deleting the oldest jobs of a chain keeps its survivors in one group |
| AnalysisProofs.Routes.DeleteAnalysis | webapp/main.py:2246-2274 | the route's deletes from the newest to the oldest, and what it answers when the store keeps one |
| AnalysisProofs.StopsAtNewest | webapp/main.py:2246-2274 | the deletes stop at the newest job that is held and that the store keeps, with every newer one gone and every older one as it was, or nowhere; a job that is gone already stops nothing |
| AnalysisProofs.AnalysisGoesWhole | webapp/main.py:2246-2274 | undisturbed, the route deletes all of an ended analysis and nothing else, moves no other job to another group, and deletes nothing while one job runs |
| AnalysisProofs.ShownIsTheOneThatWaits | webapp/main.py:697-704 | where a job of an analysis waits for answers, it is the only one and the listing shows it |
| Ledger.LiveSittings | evals/review_submission.py:166-193 | the grouping and the choice of one live sitting or one tie a group |
| Ledger.LessIs | evals/review_submission.py:53-63 | one string is before another exactly where, behind a common start, it ends or has the smaller character |
| LedgerLaws.LiveExactly | evals/review_submission.py:166-193 | a sitting is live exactly where it is there once and every other one of its case by its signature has an earlier stamp |
| LedgerLaws.TiedExactly | evals/review_submission.py:166-193 | the ties are exactly all sittings of a case by a signature with one stamp, two or more, where every other one has an earlier stamp |
| LedgerLaws.OutcomeIs | evals/review_submission.py:178-193 | a group comes to its strictly newest sitting or to a tie of all that share its newest stamp, at least two |
| LedgerLaws.AnyOrder | evals/review_submission.py:166-193 | neither the live sittings nor the ties depend on the order of the submissions |
| LedgerLaws.LiveOrTied | evals/review_submission.py:166-193 | each case and signature has exactly one of a live sitting and a tie |
| LedgerLaws.LaterWins | evals/review_submission.py:166-177 | a sitting with a later stamp than every one of its group becomes live and dissolves a tie |
| LedgerLaws.OlderChangesNothing | evals/review_submission.py:178-193 | a sitting with an earlier stamp than another of its group changes neither the live sittings nor the ties |
| LedgerLaws.EqualStampTies | evals/review_submission.py:171-177 | a sitting with the newest stamp of its group takes the live one out and ties with it |
| Contributions.ReviewsAre | evals/review_submission.py:196-201 | the reviews of the files are, case by case, what each file says under its own name, signature and stamp |
| Contributions.ValidWhen | evals/review_submission.py:96-147 | a contribution has no problem exactly where its author fits, the corpus can be read and offers each of its cases, no answers have a problem, and no merged sitting ties with it |
| Contributions.ProblemsAre | evals/review_submission.py:96-147 | each problem is said of a contribution exactly where it is so |
| Contributions.UnknownInOrder | evals/review_submission.py:96-147 | the cases that the corpus does not offer are named in the order of the file |
| Contributions.MergedTree | evals/review_submission.py:157-163 | after the merge the files stand in the order of their names, the new one in place of its namesake and every other one kept |
| Contributions.InsertOrder | evals/review_submission.py:157-163 | where a file lands among the others changes only the order of the reviews |
| Contributions.ValidatedTreeHasNoTie | evals/review_submission.py:96-147 | where the merged files can be read, a contribution without a problem leaves a tree without a tie |
| ReviewCoverage.CurrentReviews | evals/review_submission.py:221-230 | the fold over the live sittings in order |
| ReviewCoverage.CurrentIsMaximum | evals/review_submission.py:204-230 | each case and framework maps to the last, by stamp and file name, of the live sittings that stand and read it, and to nothing where there is none |
| ReviewCoverage.RailSignatures | evals/review_submission.py:303-313 | who cleared each fully covered case, by the newest sitting over it, and what each other covered case waits for |
| ReviewCoverage.WaitingAre | evals/review_submission.py:242-253 | the frameworks that a case waits for are those it declares that no current sitting covers, in its order |
| ReviewCoverage.RailAndGateAgree | evals/review_submission.py:288-335 | the gate answers exactly where every case loads; a case is then signed exactly where it is not unreviewed, precisely for cases that declare a framework or have a covered part, and partial cases are unreviewed |
| ReviewCoverage.GateFailsFor | evals/review_submission.py:307-335 | the gate reports the first case that does not load, or a corpus without a case, and otherwise answers |
| ReviewCoverage.GateListsInOrder | evals/review_submission.py:307-335 | its list holds exactly the cases that declare a framework no current sitting covers, in corpus order |
| ReviewCoverage.UnpreparedCaseIsNeither | evals/review_submission.py:288-335 | a case that loads and cannot be prepared has no coverage, is not signed, and is not unreviewed |
| PreparedCases.Session.Prepare | webapp/sitting_base.py:146-160 | what is answered carries the digests its files have now and is what is kept; a case none of whose files moved is not prepared again, and a refusal leaves what was kept |
| PreparedCases.FreshWhenDetermined | webapp/sitting_base.py:146-160 | over every run of edits and requests the kept copy agrees with a fresh preparation exactly where preparing reads only the files it digests and cannot do without one of them |
| PreparedCases.AnswerIsCurrent | webapp/sitting_base.py:154-160 | over every run, whatever the preparation reads, an answer carries the digests the files have now |
| PreparedCases.FreshRequestWhen | evals/harness/sitting.py:814-849 | a request gets what a fresh preparation would give exactly where, with the digested bytes the same, the case file declares the same title, sources with kinds and labels, frameworks and aliases, `source.md` is there and the rulings load, and, with a digested file gone, the case cannot be prepared |
| PreparedCases.CasePrepared | evals/harness/reference.py:906-950 | a case is prepared exactly where its shared files are there, its case file declares a source and frameworks without repeats, each required file is there and the loader refuses neither these nor the rulings; it then carries their digests |
| PreparedCases.RequiredAre | evals/harness/sitting.py:398-422 | the files of a sitting are the declared sources, the model, and the claims of each framework, in this order |
| PreparedCases.DeclaredOnce | evals/harness/reference.py:906-935 | what is read as a case declares a source and a framework, and no framework twice |
| PreparedCases.PreparationReads | evals/harness/reference.py:906-950 | nothing but the case file, the rulings, the presence of `source.md` and the declared files bears on a preparation |
| PreparedCases.ServedTells | evals/build_review_docs.py:502-555 | what is served, with the names of the files, tells title, sources, labels, kinds, frameworks and aliases apart |
| PreparedCases.CaseFileIsNotDigested | evals/harness/sitting.py:398-422 | no case that can be prepared, and whose files leave out the case file, is kept fresh over every run |
| PreparedCases.TitleGoesStale | evals/harness/sitting.py:814-841 | a new title in the case file and no other change: the kept case still shows the old title |
| PreparedCases.LabelGoesStale | evals/build_review_docs.py:511-521 | a new label of a source and no other change: the kept case still shows the old label |
| PreparedCases.AliasGoesStale | evals/build_review_docs.py:524-552 | a reviewed alias is added and nothing else changes: the kept case does not show it |
| PreparedCases.RulingsGoStale | evals/harness/reference.py:988-1062 | rulings that do not load are added: a fresh preparation refuses the case, and the kept one is served |
| PreparedCases.DroppedFileRefuses | webapp/sitting_base.py:154-160 | a case of two frameworks drops one and its claims: a fresh preparation works, and the kept one makes the request fail |
| CaseDesks.CaseDesk.HeldDraft | webapp/sitting_base.py:430-477 | the case opens exactly where a draft is there, none is needed, or the merged sitting's marks do not contradict each other; a resumed draft keeps its list and says of each finding of today what that sitting says |
| CaseDesks.CaseDesk.ServeFiles | webapp/sitting_base.py:513-533 | each file handed over under a draft is pinned with its digest, and nothing else of the draft changes |
| CaseDesks.CaseDesk.RecordSitting | webapp/sitting_base.py:545-559 | a sitting is recorded exactly where its marks answer the findings, and then is no longer held back; a refusal changes nothing |
| CaseDesks.CaseDesk.GetPartOne | webapp/sitting_base.py:217-254 | part one comes to a reader without work unchanged, to one with a draft exactly where its marks do not contradict each other, and then it is pinned |
| CaseDesks.CaseDesk.PostOwnList | webapp/sitting_base.py:257-285 | an own list is taken exactly where there is no draft, no merged sitting and enough is written; the draft then holds the stripped items and pins every file |
| CaseDesks.CaseDesk.PostProgress | webapp/sitting_base.py:288-302 | progress is taken exactly where there is work on a case that opens; it replaces the answers and touches neither the own list nor a pin |
| CaseDesks.CaseDesk.GetPartTwo | webapp/sitting_base.py:305-333 | part two comes exactly to a reader with work on a case that opens, with each file of it pinned as handed over |
| CaseDesks.CaseDesk.PostFinish | webapp/sitting_base.py:336-360 | a sitting finishes exactly where its marks answer the findings and no pinned file that the case lists has moved; own list and pins stay |
| CaseDesks.CaseDesk.PostDrop | webapp/sitting_base.py:382-397 | exactly a recorded case is held back; every word of it stays and it leaves the contribution |
| CaseDesks.CaseDesk.PostPutBack | webapp/sitting_base.py:400-410 | a held-back case is recorded again exactly where its marks still answer the findings, with the draft as it was |
| CaseDesks.CaseDesk.PostReset | webapp/sitting.py:462-486 | a reset clears the answers and keeps the own list and the pins |
| CaseDesks.CaseDesk.CleanLocalRecord | webapp/sitting.py:209-222 | the record of a sent case is taken off and its draft discarded |
| SittingMarks.CurrentKeyIs | evals/harness/sitting.py:769-773 | a mark's key reads as the finding that had it before, the last one where two had it, and as itself where none had |
| SittingMarks.KnownIsCurrent | evals/harness/sitting.py:866-879 | a mark names a finding exactly where its key, as it reads now, is the key of one |
| SittingMarks.MarksAre | evals/harness/sitting.py:753-783 | the fold refuses exactly where two marks of one finding disagree, and else says of each finding what its marks say |
| SittingMarks.RecordedWhen | evals/harness/sitting.py:882-948 | a sitting is recorded exactly where every mark names a finding, no two marks of one finding disagree, and every finding has a mark |
| SittingMarks.ResumedSaysTheSame | webapp/sitting_base.py:454-477 | a draft opened on a merged sitting keeps its list, says of each finding of today what that sitting says, and drops every other mark |
| SittingMarks.WrittenAre | webapp/sitting_base.py:269-271 | the kept own list is the items with something in them, stripped |
| SittingMarks.WrittenInOrder | webapp/sitting_base.py:268-271 | the kept own list holds exactly the items that are not blank, in order, each without the blanks around it |
| SittingMarks.TypedIs | evals/harness/sitting.py:104-110 | how much an own list says is how long its items are together |
| SittingRuns.StepKeeps | webapp/sitting_base.py:216-410 | every request, failed save, corpus edit and merge keeps the pins of what was handed over and an open draft under each held-back case |
| SittingRuns.OwnListNeverChanges | webapp/sitting_base.py:257-285 | over every run, a draft's own list never changes while the draft is there |
| SittingRuns.PartTwoFollowsOwnList | webapp/sitting_base.py:257-333 | over every run, part two is served only after an own list that said enough was taken, or on the list of a merged sitting, and that list is the draft's own in every state since |
| SittingRuns.PinsAreWhatWasHanded | webapp/sitting_base.py:513-533 | over every run, what was last handed over under a draft is what the draft pins, and a held-back case has an open draft |
| SittingRuns.FinishSignsWhatWasHanded | webapp/sitting_base.py:336-360 | over every run, a sitting finishes only where each pinned file that the case lists holds on disk the bytes pinned, which are those last handed over |
| SittingRuns.ContributionSignsTheDisk | webapp/sitting.py:134-149 | over every run, a contribution carries a case only where no pinned file moved |
| SittingRuns.PutBackUndoesDrop | webapp/sitting_base.py:382-410 | a recorded case that is held back leaves the contribution, and putting it back restores every word of it where its marks still answer the findings |
| SittingRuns.PutBackLooksAtNoFile | webapp/sitting_base.py:400-410 | putting a case back records it whatever is on disk, with exactly the moved files the held-back draft had |
| SittingRuns.FirstListPinsItsOwnRead | webapp/sitting_base.py:217-285 | the own list pins the files as they are when it comes, whatever part one showed before |

## Left out

- HTTP handling, middleware, HTML, style sheets and servers: a route is its transition on state.
- Git, `gh`, pull requests and contribution links: foreign commands.
- Model and provider calls, prompts and benchmark timings: nothing deterministic to prove.
- The build of a Deployment, the store check and the value rules of single settings: inputs of the save protocol, which may accept or refuse.
- File modes, owners, `fsync`, symbolic links and mount points: a directory holds files by resolved path, and a file is created, replaced, deleted or listed in one step.
- The temporary file of an atomic replace: the replace is one step that lands or does not.
- Unicode tables: a printable character here is one that is neither a control character nor a blank other than the space, where `str.isprintable` also refuses format, private-use and unassigned characters; the word characters beyond ASCII are a parameter.
- Two spellings of one path: a file of the documents is known by the text of its path, so `./a.md` and `a.md` are two files.
- Lone surrogates, `NaN` and infinities in JSON, and keys that are no strings: a value here is one that JSON can carry.
- The message texts of refusals and ties: a refusal carries what it is about.
- The CSV report, the Controls document and the page's settings table: library quoting and tables.
- `html.escape`: a library call, of which the template results need only that it leaves no `<`.
- Bounds on token budgets and job rates: one yes or no at admission; the ceiling of one running job is modelled.
- Jobs of other owners: the app has one operator.
- Record contents beside status, parents, flags, revision and refusal: no modelled decision reads them.
- The rail's rows and which cases a sitting offers: a request for a case that is not offered changes nothing.
- Two sessions or hand edits on one draft file: the store of drafts is one reader's own.
- Marks and their rendering in the filled document: only which findings have one.
- Field bounds and patterns of the compact schema: an expansion here starts from a payload that the schema accepts.
- Identity derivation after expansion: the expanded IDs are the stand-in ones that it overwrites.
- SaveRefinement.StepRefines: a delete that fails while a save is rolled back leaves that save's key files behind, named by nothing, until the next cleanup; the abstract step says so, and `FailedSaveLeavesAll` says when.
- Record schemas of other versions: no step changes the schema of a record, as an upgrade of the service would; what is said of such a record holds of every state that meets the invariant, and no run from an empty store reaches one.
- A case file or rulings that change while a case is prepared: a preparation reads one state of the case.
- The targets that marks name, in what is served of a prepared case: they are keyed from the recorded sets, which are there.
