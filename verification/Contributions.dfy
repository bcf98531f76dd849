/** Contributed files: what validation asks of one, and the tree after its merge. */
module Contributions {
  import opened Results
  import opened Ledger
  import opened LedgerLaws

  datatype CaseAnswers = CaseAnswers(caseId: string, answers: string)

  datatype Submission = Submission(file: string, author: string, signature: string, generated: string, cases: seq<CaseAnswers>)

  function ReviewsIn(s: Submission): seq<Review> {
    seq(|s.cases|, i requires 0 <= i < |s.cases| => Review(s.file, s.cases[i].caseId, s.signature, s.generated, s.cases[i].answers))
  }

  function ReviewsOf(submissions: seq<Submission>): seq<Review> {
    if submissions == [] then [] else ReviewsIn(submissions[0]) + ReviewsOf(submissions[1..])
  }

  /** The sittings of the files are, file by file and case by case, what the files say. */
  lemma {:induction false} ReviewsAre(submissions: seq<Submission>, r: Review)
    ensures r in ReviewsOf(submissions) <==>
              exists s, c | s in submissions && c in s.cases ::
                r.file == s.file && r.signature == s.signature && r.generated == s.generated && r.caseId == c.caseId && r.answers == c.answers
  {
    if submissions != [] {
      var first := submissions[0];
      ReviewsAre(submissions[1..], r);
      assert submissions == [first] + submissions[1..];
      if c :| c in first.cases && r == Review(first.file, c.caseId, first.signature, first.generated, c.answers) {
        var i :| 0 <= i < |first.cases| && first.cases[i] == c;
        assert ReviewsIn(first)[i] == r;
      }
      if r in ReviewsIn(first) {
        var i :| 0 <= i < |ReviewsIn(first)| && ReviewsIn(first)[i] == r;
        assert first.cases[i] in first.cases;
      }
    }
  }

  function Others(submissions: seq<Submission>, file: string): seq<Submission> {
    if submissions == [] then []
    else (if submissions[0].file != file then [submissions[0]] else []) + Others(submissions[1..], file)
  }

  /** The files in the order of their names, with one more. */
  function Insert(submissions: seq<Submission>, s: Submission): seq<Submission> {
    if submissions == [] || Less(s.file, submissions[0].file) then [s] + submissions
    else [submissions[0]] + Insert(submissions[1..], s)
  }

  /** The tree once the file is in it; a file of its own name gives way to it. */
  function AfterMerge(merged: seq<Submission>, s: Submission): seq<Submission> {
    Insert(Others(merged, s.file), s)
  }

  /** The ties that the file would make; none where a merged file cannot be read. */
  function TiesWith(merged: Option<seq<Submission>>, s: Submission): seq<Tie> {
    if merged.None? then [] else AllTies(ReviewsOf(Others(merged.value, s.file) + [s]))
  }

  datatype Problem =
    | OtherAuthor(author: string)
    | NoCases
    | CorpusUnreadable
    | UnknownCases(cases: seq<string>)
    | CaseProblem(words: string)
    | TieProblem(tie: Tie)

  function TieProblems(ties: seq<Tie>): seq<Problem> {
    seq(|ties|, i requires 0 <= i < |ties| => TieProblem(ties[i]))
  }

  function CaseProblems(cases: seq<CaseAnswers>, offered: seq<string>, problems: CaseAnswers -> seq<string>): seq<Problem> {
    if cases == [] then []
    else
      var words := if cases[0].caseId in offered then problems(cases[0]) else [];
      seq(|words|, i requires 0 <= i < |words| => CaseProblem(words[i])) + CaseProblems(cases[1..], offered, problems)
  }

  function Unknown(cases: seq<CaseAnswers>, offered: seq<string>): seq<string> {
    if cases == [] then []
    else (if cases[0].caseId in offered then [] else [cases[0].caseId]) + Unknown(cases[1..], offered)
  }

  /** A contribution against the corpus, its author where one is known, and the merged files. */
  function Validate(merged: Option<seq<Submission>>, s: Submission, author: Option<string>,
                    offered: Option<seq<string>>, problems: CaseAnswers -> seq<string>): seq<Problem>
  {
    var first := if author.Some? && s.author != author.value then [OtherAuthor(author.value)] else [];
    if s.cases == [] then first + [NoCases]
    else if offered.None? then first + [CorpusUnreadable]
    else
      var unknown := Unknown(s.cases, offered.value);
      first + (if unknown != [] then [UnknownCases(unknown)] else [])
      + CaseProblems(s.cases, offered.value, problems) + TieProblems(TiesWith(merged, s))
  }

  // ---- What validation asks ----

  /** Each case of the file is one that the corpus offers and its answers have no problem. */
  ghost predicate CasesStand(cases: seq<CaseAnswers>, offered: seq<string>, problems: CaseAnswers -> seq<string>) {
    forall c | c in cases :: c.caseId in offered && problems(c) == []
  }

  lemma {:induction false} UnknownAre(cases: seq<CaseAnswers>, offered: seq<string>)
    ensures forall id :: id in Unknown(cases, offered) <==> id !in offered && exists c | c in cases :: c.caseId == id
  {
    if cases != [] {
      UnknownAre(cases[1..], offered);
      assert cases == [cases[0]] + cases[1..];
    }
  }

  /** The unknown cases are reported in the order of the body. */
  lemma {:induction false} UnknownInOrder(cases: seq<CaseAnswers>, offered: seq<string>, from: nat) returns (at: seq<nat>)
    requires from <= |cases|
    ensures |at| == |Unknown(cases[from..], offered)| && forall j, k | 0 <= j < k < |at| :: at[j] < at[k]
    ensures forall k | 0 <= k < |at| :: from <= at[k] < |cases| && Unknown(cases[from..], offered)[k] == cases[at[k]].caseId
    ensures forall i: nat | from <= i < |cases| :: i in at <==> cases[i].caseId !in offered
    decreases |cases| - from
  {
    at := [];
    if from < |cases| {
      assert cases[from..][1..] == cases[from + 1..];
      at := UnknownInOrder(cases, offered, from + 1);
      if cases[from].caseId !in offered { at := [from] + at; }
    }
  }

  lemma {:induction false} CaseProblemsAre(cases: seq<CaseAnswers>, offered: seq<string>, problems: CaseAnswers -> seq<string>)
    ensures forall p :: p in CaseProblems(cases, offered, problems) <==>
              p.CaseProblem? && exists c | c in cases :: c.caseId in offered && p.words in problems(c)
  {
    if cases != [] {
      CaseProblemsAre(cases[1..], offered, problems);
      assert cases == [cases[0]] + cases[1..];
      var words := if cases[0].caseId in offered then problems(cases[0]) else [];
      var said := seq(|words|, i requires 0 <= i < |words| => CaseProblem(words[i]));
      forall p ensures p in said <==> p.CaseProblem? && p.words in words {
        if p.CaseProblem? && p.words in words {
          var i :| 0 <= i < |words| && words[i] == p.words;
          assert said[i] == p;
        }
      }
    }
  }

  lemma CasesStandWhen(cases: seq<CaseAnswers>, offered: seq<string>, problems: CaseAnswers -> seq<string>)
    ensures CasesStand(cases, offered, problems)
            <==> Unknown(cases, offered) == [] && CaseProblems(cases, offered, problems) == []
  {
    UnknownAre(cases, offered);
    CaseProblemsAre(cases, offered, problems);
    HasFirst(Unknown(cases, offered));
    HasFirst(CaseProblems(cases, offered, problems));
    forall c | c in cases
      ensures c.caseId in offered || c.caseId in Unknown(cases, offered)
      ensures c.caseId in offered && problems(c) != [] ==> CaseProblem(problems(c)[0]) in CaseProblems(cases, offered, problems)
    {
      HasFirst(problems(c));
    }
  }

  lemma HasFirst<T>(s: seq<T>)
    ensures s == [] || s[0] in s
  {
  }

  /**
   A contribution is without a problem exactly where its author fits, the corpus
   can be read and offers each of its cases, the answers to each have no problem,
   and the file ties with no merged one.
   */
  lemma ValidWhen(merged: Option<seq<Submission>>, s: Submission, author: Option<string>,
                  offered: Option<seq<string>>, problems: CaseAnswers -> seq<string>)
    ensures Validate(merged, s, author, offered, problems) == [] <==>
              && (author.None? || s.author == author.value)
              && s.cases != [] && offered.Some? && CasesStand(s.cases, offered.value, problems)
              && TiesWith(merged, s) == []
  {
    if s.cases != [] && offered.Some? {
      CasesStandWhen(s.cases, offered.value, problems);
      assert |TieProblems(TiesWith(merged, s))| == |TiesWith(merged, s)|;
    }
  }

  /** What each problem says of the contribution; each is said exactly where it is so. */
  ghost predicate Says(p: Problem, merged: Option<seq<Submission>>, s: Submission, author: Option<string>,
                       offered: Option<seq<string>>, problems: CaseAnswers -> seq<string>)
  {
    match p
    case OtherAuthor(name) => author == Some(name) && s.author != name
    case NoCases => s.cases == []
    case CorpusUnreadable => s.cases != [] && offered.None?
    case UnknownCases(cases) =>
      s.cases != [] && offered.Some? && cases != [] && cases == Unknown(s.cases, offered.value)
    case CaseProblem(words) =>
      offered.Some? && exists c | c in s.cases :: c.caseId in offered.value && words in problems(c)
    case TieProblem(t) => s.cases != [] && offered.Some? && t in TiesWith(merged, s)
  }

  lemma ProblemsAre(merged: Option<seq<Submission>>, s: Submission, author: Option<string>,
                    offered: Option<seq<string>>, problems: CaseAnswers -> seq<string>, p: Problem)
    ensures p in Validate(merged, s, author, offered, problems) <==> Says(p, merged, s, author, offered, problems)
  {
    if s.cases != [] && offered.Some? {
      CaseProblemsAre(s.cases, offered.value, problems);
      var ties := TiesWith(merged, s);
      if p.TieProblem? && p.tie in ties {
        var i :| 0 <= i < |ties| && ties[i] == p.tie;
        assert TieProblems(ties)[i] == p;
      }
      assert p in TieProblems(ties) <==> p.TieProblem? && p.tie in ties;
    }
  }

  // ---- The tree ----

  ghost predicate ByName(submissions: seq<Submission>) {
    forall i, j | 0 <= i < j < |submissions| :: Earlier(submissions[i].file, submissions[j].file)
  }

  lemma {:induction false} OthersAre(submissions: seq<Submission>, file: string)
    ensures forall x :: x in Others(submissions, file) <==> x in submissions && x.file != file
    ensures ByName(submissions) ==> ByName(Others(submissions, file))
  {
    if submissions != [] {
      var rest := submissions[1..];
      OthersAre(rest, file);
      assert submissions == [submissions[0]] + rest;
      if ByName(submissions) {
        forall x | x in rest ensures Earlier(submissions[0].file, x.file) {
          var j :| 0 <= j < |rest| && rest[j] == x;
          assert submissions[j + 1] == x;
        }
        ByNameMore(submissions[0], Others(rest, file));
      }
    }
  }

  lemma ByNameMore(first: Submission, rest: seq<Submission>)
    requires ByName(rest) && forall x | x in rest :: Earlier(first.file, x.file)
    ensures ByName([first] + rest)
  {
    assert forall j | 0 <= j < |rest| :: rest[j] in rest;
  }

  lemma {:induction false} InsertIs(submissions: seq<Submission>, s: Submission)
    ensures forall x :: x in Insert(submissions, s) <==> x in submissions || x == s
    ensures ByName(submissions) && (forall x | x in submissions :: x.file != s.file) ==> ByName(Insert(submissions, s))
  {
    if submissions == [] {
    } else if Less(s.file, submissions[0].file) {
      if ByName(submissions) {
        LessIs(s.file, submissions[0].file);
        forall x | x in submissions ensures Earlier(s.file, x.file) {
          var j :| 0 <= j < |submissions| && submissions[j] == x;
          if j > 0 { EarlierTrans(s.file, submissions[0].file, x.file); }
        }
        ByNameMore(s, submissions);
      }
    } else {
      var first, rest := submissions[0], submissions[1..];
      InsertIs(rest, s);
      assert submissions == [first] + rest;
      if ByName(submissions) && forall x | x in submissions :: x.file != s.file {
        LessTotal(s.file, first.file);
        LessIs(first.file, s.file);
        forall x | x in Insert(rest, s) ensures Earlier(first.file, x.file) {
          if x in rest {
            var j :| 0 <= j < |rest| && rest[j] == x;
            assert submissions[j + 1] == x;
          }
        }
        ByNameMore(first, Insert(rest, s));
      }
    }
  }

  /** After the merge the files stand in the order of their names, the new one in place of its namesake. */
  lemma MergedTree(merged: seq<Submission>, s: Submission)
    requires ByName(merged)
    ensures ByName(AfterMerge(merged, s))
    ensures forall x :: x in AfterMerge(merged, s) <==> x == s || (x in merged && x.file != s.file)
  {
    OthersAre(merged, s.file);
    InsertIs(Others(merged, s.file), s);
  }

  // ---- Ties ----

  lemma {:induction false} ReviewsConcat(a: seq<Submission>, b: seq<Submission>)
    ensures ReviewsOf(a + b) == ReviewsOf(a) + ReviewsOf(b)
  {
    if a == [] {
      assert a + b == b;
    } else {
      assert (a + b)[1..] == a[1..] + b;
      ReviewsConcat(a[1..], b);
    }
  }

  /** Where a file lands among the others changes only the order of the reviews. */
  lemma {:induction false} InsertOrder(submissions: seq<Submission>, s: Submission)
    ensures multiset(ReviewsOf(Insert(submissions, s))) == multiset(ReviewsOf(submissions)) + multiset(ReviewsIn(s))
  {
    if submissions == [] || Less(s.file, submissions[0].file) {
      assert ([s] + submissions)[1..] == submissions;
    } else {
      InsertOrder(submissions[1..], s);
      var rest := Insert(submissions[1..], s);
      assert ([submissions[0]] + rest)[1..] == rest;
    }
  }

  /** A contribution without a problem leaves a tree without a tie, where the merged files can be read. */
  lemma {:induction false} ValidatedTreeHasNoTie(merged: seq<Submission>, s: Submission, author: Option<string>,
                              offered: Option<seq<string>>, problems: CaseAnswers -> seq<string>)
    requires Validate(Some(merged), s, author, offered, problems) == []
    ensures AllTies(ReviewsOf(AfterMerge(merged, s))) == []
  {
    var rest := Others(merged, s.file);
    var before, after := ReviewsOf(rest + [s]), ReviewsOf(AfterMerge(merged, s));
    assert |TieProblems(TiesWith(Some(merged), s))| == 0;
    assert AllTies(before) == [];
    ReviewsConcat(rest, [s]);
    assert ReviewsOf([s]) == ReviewsIn(s) + ReviewsOf([]) by { assert [s][1..] == []; }
    assert ReviewsOf([s]) == ReviewsIn(s);
    InsertOrder(rest, s);
    assert multiset(before) == multiset(ReviewsOf(rest)) + multiset(ReviewsIn(s));
    AnyOrder(before, after);
    if AllTies(after) != [] {
      var t := FirstTie(AllTies(after));
    }
  }

  lemma FirstTie(ties: seq<Tie>) returns (t: Tie)
    requires ties != []
    ensures t in ties
  {
    t := ties[0];
  }
}
