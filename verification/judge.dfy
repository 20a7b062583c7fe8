/** The grading logic of backend/controllers/codingController.js: the
    language table, the request gates shared by `runCode` and `submitCode`,
    the per-case verdicts, all-or-nothing scoring, and the redaction of hidden
    test cases in `getCodingQuestion`. The remote Judge0 service is a
    function parameter; its own error path (status "Error", empty stdout) is
    one of its possible answers. */
module Judge {
  import opened Common
  import opened Security

  datatype Language = JavaScript | Python | Java | Cpp

  function LanguageName(l: Language): string {
    match l
    case JavaScript => "javascript"
    case Python => "python"
    case Java => "java"
    case Cpp => "cpp"
  }

  /** The Judge0 language ids of `LANGUAGE_IDS`. */
  function LanguageId(l: Language): (r: nat)
    ensures r > 0
  {
    match l
    case JavaScript => 63
    case Python => 71
    case Java => 62
    case Cpp => 54
  }

  /** Distinct languages run under distinct Judge0 ids. */
  lemma LanguageIdInjective(a: Language, b: Language)
    ensures LanguageId(a) == LanguageId(b) <==> a == b
  {
  }

  /** A request's `language` field, read as one of the table's own keys. */
  function ParseLanguage(s: string): (r: Option<Language>)
    ensures r.Some? ==> LanguageName(r.value) == s
    ensures r.None? <==> s !in {"javascript", "python", "java", "cpp"}
  {
    if s == "javascript" then Some(JavaScript)
    else if s == "python" then Some(Python)
    else if s == "java" then Some(Java)
    else if s == "cpp" then Some(Cpp)
    else None
  }

  /** Naming a language and reading the name back gives the language. */
  lemma {:induction false} ParseLanguageRoundTrip(l: Language)
    ensures ParseLanguage(LanguageName(l)) == Some(l)
  {
    match l
    case JavaScript =>
    case Python =>
    case Java =>
    case Cpp =>
  }

  /** The names every plain JavaScript object inherits from
      `Object.prototype`; each holds a function (or, for `__proto__`, an
      object), so each is truthy. */
  const InheritedKeys: set<string> := {
    "constructor", "hasOwnProperty", "isPrototypeOf", "propertyIsEnumerable",
    "toLocaleString", "toString", "valueOf", "__proto__",
    "__defineGetter__", "__defineSetter__", "__lookupGetter__", "__lookupSetter__"
  }

  /** The language gate as written: `LANGUAGE_IDS[language]` is a property
      read on an object literal, and the request passes when the value read
      is truthy. */
  predicate LanguageGateAsWritten(s: string) {
    ParseLanguage(s).Some? || s in InheritedKeys
  }

  /** The discrepancy: "toString" is no supported language, yet it passes the
      gate as written. */
  lemma InheritedKeyPassesGate()
    ensures LanguageGateAsWritten("toString") && ParseLanguage("toString").None?
  {
    assert "toString" in InheritedKeys;
  }

  /** The gate as intended, which the rest of this model uses: it passes
      exactly the four table keys. */
  predicate LanguageGate(s: string) {
    ParseLanguage(s).Some?
  }

  lemma LanguageGateIff(s: string)
    ensures LanguageGate(s) <==> exists l :: LanguageName(l) == s
  {
    if LanguageGate(s) {
      assert LanguageName(ParseLanguage(s).value) == s;
    } else {
      forall l ensures LanguageName(l) != s {
        ParseLanguageRoundTrip(l);
      }
    }
  }

  datatype TestCase = TestCase(id: string, input: string, expectedOutput: string, isHidden: bool)

  datatype Question = Question(id: string, examId: string, testCases: seq<TestCase>, timeLimit: nat, points: nat)

  /** What Judge0 answers for one execution. `stdout` is absent when the
      program printed nothing; times are in milliseconds. */
  datatype ExecResult = ExecResult(stdout: Option<string>, statusDescription: string, timeMs: nat, memory: nat)

  /** The Judge0 service: source code, language id, stdin and time limit in,
      one result out. */
  type Judge0 = (string, nat, string, nat) -> ExecResult

  /** The request body of `runCode`/`submitCode`; an absent field is "". */
  datatype Request = Request(questionId: string, code: string, language: string)

  datatype CaseResult = CaseResult(
    testCaseId: string,
    input: string,
    expectedOutput: string,
    actualOutput: string,
    status: string,
    executionTime: nat,
    memory: nat)

  datatype Summary = Summary(total: nat, passed: nat, failed: nat)

  /** One entry of the submit response: no input and no outputs. */
  datatype BriefResult = BriefResult(testCaseId: string, status: string, executionTime: nat, memory: nat)

  /** The stored submission once graded. */
  datatype SubmissionRecord = SubmissionRecord(
    status: string,
    score: nat,
    executionTime: nat,
    testCaseResults: seq<CaseResult>)

  datatype Response =
    | Refused(httpStatus: nat, message: string, reason: Option<string>)
    | RunResponse(runResults: seq<CaseResult>, summary: Summary)
    | SubmitResponse(status: string, score: nat, totalTests: nat, results: seq<BriefResult>, record: SubmissionRecord)

  const MissingFields: string := "Missing required fields: questionId, code, language"
  const UnsupportedLanguage: string := "Unsupported language"
  const ForbiddenCode: string := "Code contains forbidden patterns"
  const QuestionNotFound: string := "Question not found"
  const NoSampleCases: string := "No sample test cases available"
  const NoCases: string := "No test cases available"

  datatype Admission = Rejected(response: Response) | Admitted(language: Language)

  /** The three gates both handlers run first, in order: missing fields
      (400), unsupported language (400), forbidden pattern (403). */
  function Gates(req: Request): (r: Admission)
    ensures r.Rejected? ==> r.response.Refused?
    ensures req.questionId == "" || req.code == "" || req.language == "" ==>
      r == Rejected(Refused(400, MissingFields, None))
    ensures req.questionId != "" && req.code != "" && req.language != "" && !LanguageGate(req.language) ==>
      r == Rejected(Refused(400, UnsupportedLanguage, None))
    ensures r.Admitted? <==>
      req.questionId != "" && req.code != "" && LanguageGate(req.language)
      && ValidateCode(req.code, req.language).Valid?
    ensures r.Admitted? ==> LanguageName(r.language) == req.language
    ensures (req.questionId != "" && req.code != "" && LanguageGate(req.language)
             && ValidateCode(req.code, req.language).Invalid?) ==>
      r == Rejected(Refused(403, ForbiddenCode, Some(ValidateCode(req.code, req.language).reason)))
    ensures r.Rejected? && r.response.httpStatus == 403 ==>
      r.response.message == ForbiddenCode
      && r.response.reason == Some(ValidateCode(req.code, req.language).reason)
  {
    if req.questionId == "" || req.code == "" || req.language == "" then
      Rejected(Refused(400, MissingFields, None))
    else match ParseLanguage(req.language)
      case None => Rejected(Refused(400, UnsupportedLanguage, None))
      case Some(l) =>
        match ValidateCode(req.code, req.language)
        case Invalid(reason) => Rejected(Refused(403, ForbiddenCode, Some(reason)))
        case Valid => Admitted(l)
  }

  /** `result.stdout || ''`. */
  function Stdout(e: ExecResult): string {
    match e.stdout
    case None => ""
    case Some(s) => s
  }

  /** A visible case passes when the trimmed outputs agree. */
  predicate OutputsMatch(tc: TestCase, e: ExecResult) {
    Trim(tc.expectedOutput) == Trim(Stdout(e))
  }

  /** The verdict on one case: a visible case compares outputs, a hidden one
      passes Judge0's own status description through as pass or fail. */
  function Verdict(tc: TestCase, e: ExecResult): (r: string)
    ensures !tc.isHidden ==> (r == "Accepted" <==> OutputsMatch(tc, e))
    ensures !tc.isHidden ==> (r == "Accepted" || r == "Wrong Answer")
    ensures tc.isHidden ==> (r == "Accepted" <==> e.statusDescription == "Accepted")
    ensures tc.isHidden ==> (r == "Accepted" || r == "Failed")
  {
    if !tc.isHidden then
      if OutputsMatch(tc, e) then "Accepted" else "Wrong Answer"
    else if e.statusDescription == "Accepted" then "Accepted" else "Failed"
  }

  /** The case record `runCode` builds: outputs are shown as they are. */
  function RunCase(tc: TestCase, e: ExecResult): CaseResult
    requires !tc.isHidden
  {
    CaseResult(tc.id, tc.input, tc.expectedOutput, Stdout(e), Verdict(tc, e), e.timeMs, e.memory)
  }

  /** The case record `submitCode` builds: a hidden case's expected output is
      reported as "Hidden". */
  function SubmitCase(tc: TestCase, e: ExecResult): (r: CaseResult)
    ensures r.testCaseId == tc.id && r.input == tc.input && r.actualOutput == Stdout(e)
    ensures r.expectedOutput == if tc.isHidden then "Hidden" else tc.expectedOutput
    ensures r.status == Verdict(tc, e) && r.executionTime == e.timeMs && r.memory == e.memory
  {
    CaseResult(tc.id, tc.input, if tc.isHidden then "Hidden" else tc.expectedOutput,
      Stdout(e), Verdict(tc, e), e.timeMs, e.memory)
  }

  /** Index of the first visible case. */
  function FirstVisible(cases: seq<TestCase>): (r: Option<nat>)
    ensures r.Some? ==>
      (r.value < |cases| && !cases[r.value].isHidden
       && forall k :: 0 <= k < r.value ==> cases[k].isHidden)
    ensures r.None? <==> forall k :: 0 <= k < |cases| ==> cases[k].isHidden
  {
    if |cases| == 0 then None
    else if !cases[0].isHidden then Some(0)
    else match FirstVisible(cases[1..])
      case None => None
      case Some(i) =>
        assert forall k :: 1 <= k <= i ==> cases[k] == cases[1..][k - 1];
        Some(i + 1)
  }

  function CountAccepted(rs: seq<CaseResult>): (n: nat)
    ensures n <= |rs|
  {
    if |rs| == 0 then 0
    else CountAccepted(rs[..|rs| - 1]) + (if rs[|rs| - 1].status == "Accepted" then 1 else 0)
  }

  /** Counting the results that are not accepted. */
  function CountNotAccepted(rs: seq<CaseResult>): (n: nat) {
    if |rs| == 0 then 0
    else CountNotAccepted(rs[..|rs| - 1]) + (if rs[|rs| - 1].status != "Accepted" then 1 else 0)
  }

  /** Every result is counted once, as passed or as failed. */
  lemma {:induction false} CountsPartition(rs: seq<CaseResult>)
    ensures CountAccepted(rs) + CountNotAccepted(rs) == |rs|
  {
    if |rs| > 0 {
      CountsPartition(rs[..|rs| - 1]);
    }
  }

  function RunSummary(rs: seq<CaseResult>): (s: Summary)
    ensures s.passed + s.failed == s.total == |rs|
  {
    CountsPartition(rs);
    Summary(|rs|, CountAccepted(rs), CountNotAccepted(rs))
  }

  /** `runCode`: gates, then the lookup of the question (given here as its
      result), then the first visible case alone is executed and judged. */
  function RunCode(req: Request, found: Option<Question>, judge: Judge0): (r: Response)
    ensures Gates(req).Rejected? ==> r == Gates(req).response
    ensures Gates(req).Admitted? && found.None? ==> r == Refused(404, QuestionNotFound, None)
    ensures Gates(req).Admitted? && found.Some? ==>
      match FirstVisible(found.value.testCases)
      case None => r == Refused(400, NoSampleCases, None)
      case Some(i) =>
        var tc := found.value.testCases[i];
        var e := judge(req.code, LanguageId(Gates(req).language), tc.input, found.value.timeLimit);
        r.RunResponse? && r.runResults == [RunCase(tc, e)]
        && r.summary.total == 1 && r.summary.passed + r.summary.failed == 1
        && (r.summary.passed == 1 <==> OutputsMatch(tc, e))
  {
    match Gates(req)
    case Rejected(resp) => resp
    case Admitted(l) =>
      match found
      case None => Refused(404, QuestionNotFound, None)
      case Some(q) =>
        match FirstVisible(q.testCases)
        case None => Refused(400, NoSampleCases, None)
        case Some(i) =>
          var tc := q.testCases[i];
          var results := [RunCase(tc, judge(req.code, LanguageId(l), tc.input, q.timeLimit))];
          assert results[..0] == [];
          RunResponse(results, RunSummary(results))
  }

  /** Every case, in order, through Judge0. */
  function ExecuteAll(code: string, languageId: nat, timeLimit: nat, cases: seq<TestCase>, judge: Judge0): (r: seq<ExecResult>)
    ensures |r| == |cases|
    ensures forall i :: 0 <= i < |cases| ==> r[i] == judge(code, languageId, cases[i].input, timeLimit)
  {
    seq(|cases|, i requires 0 <= i < |cases| => judge(code, languageId, cases[i].input, timeLimit))
  }

  /** The condition under which the loop clears `allPassed` for one case: a
      visible case whose outputs differ, a hidden case Judge0 did not
      accept. */
  predicate CaseFails(tc: TestCase, e: ExecResult) {
    if tc.isHidden then e.statusDescription != "Accepted" else !OutputsMatch(tc, e)
  }

  lemma CaseFailsIff(tc: TestCase, e: ExecResult)
    ensures CaseFails(tc, e) <==> Verdict(tc, e) != "Accepted"
  {
  }

  /** The `allPassed` flag as the loop keeps it. */
  function AllPassed(cases: seq<TestCase>, execs: seq<ExecResult>): bool
    requires |cases| == |execs|
  {
    if |cases| == 0 then true
    else AllPassed(cases[..|cases| - 1], execs[..|cases| - 1]) && !CaseFails(cases[|cases| - 1], execs[|cases| - 1])
  }

  /** The flag is set exactly when no case fails. */
  lemma {:induction false} AllPassedNoFailure(cases: seq<TestCase>, execs: seq<ExecResult>)
    requires |cases| == |execs|
    ensures AllPassed(cases, execs) <==> forall i :: 0 <= i < |cases| ==> !CaseFails(cases[i], execs[i])
  {
    if |cases| > 0 {
      var n := |cases| - 1;
      AllPassedNoFailure(cases[..n], execs[..n]);
      NoFailureStep(cases, execs);
    }
  }

  lemma NoFailureStep(cases: seq<TestCase>, execs: seq<ExecResult>)
    requires |cases| == |execs| > 0
    ensures var n := |cases| - 1;
      (forall i :: 0 <= i < |cases| ==> !CaseFails(cases[i], execs[i]))
      <==> (forall i :: 0 <= i < n ==> !CaseFails(cases[..n][i], execs[..n][i])) && !CaseFails(cases[n], execs[n])
  {
    var n := |cases| - 1;
    assert forall i :: 0 <= i < n ==> cases[..n][i] == cases[i] && execs[..n][i] == execs[i];
  }

  /** The flag is set exactly when every case's verdict is "Accepted". */
  lemma AllPassedIff(cases: seq<TestCase>, execs: seq<ExecResult>)
    requires |cases| == |execs|
    ensures AllPassed(cases, execs) <==> forall i :: 0 <= i < |cases| ==> Verdict(cases[i], execs[i]) == "Accepted"
  {
    AllPassedNoFailure(cases, execs);
    forall i | 0 <= i < |cases| ensures CaseFails(cases[i], execs[i]) <==> Verdict(cases[i], execs[i]) != "Accepted" {
      CaseFailsIff(cases[i], execs[i]);
    }
  }

  function TotalTime(rs: seq<CaseResult>): nat {
    if |rs| == 0 then 0 else TotalTime(rs[..|rs| - 1]) + rs[|rs| - 1].executionTime
  }

  function Brief(r: CaseResult): BriefResult {
    BriefResult(r.testCaseId, r.status, r.executionTime, r.memory)
  }

  /** Grading of all the cases of `q`: the verdicts, the all-or-nothing score
      and the total execution time. */
  function Grade(q: Question, execs: seq<ExecResult>): (r: SubmissionRecord)
    requires |execs| == |q.testCases|
    ensures |r.testCaseResults| == |q.testCases|
    ensures forall i :: 0 <= i < |q.testCases| ==> r.testCaseResults[i] == SubmitCase(q.testCases[i], execs[i])
    ensures r.status == "Accepted" || r.status == "Wrong Answer"
    ensures r.status == "Accepted" <==> forall i :: 0 <= i < |r.testCaseResults| ==> r.testCaseResults[i].status == "Accepted"
    ensures r.score == if r.status == "Accepted" then q.points else 0
    ensures r.executionTime == TotalTime(r.testCaseResults)
  {
    var results := seq(|q.testCases|, i requires 0 <= i < |q.testCases| => SubmitCase(q.testCases[i], execs[i]));
    var passed := AllPassed(q.testCases, execs);
    AllPassedIff(q.testCases, execs);
    SubmissionRecord(if passed then "Accepted" else "Wrong Answer", if passed then q.points else 0,
      TotalTime(results), results)
  }

  /** `submitCode`: gates, lookup, then every case is executed and judged and
      the response lists, per case, only the id, status, time and memory. */
  function SubmitCode(req: Request, found: Option<Question>, judge: Judge0): (r: Response)
    ensures Gates(req).Rejected? ==> r == Gates(req).response
    ensures Gates(req).Admitted? && found.None? ==> r == Refused(404, QuestionNotFound, None)
    ensures Gates(req).Admitted? && found.Some? && |found.value.testCases| == 0 ==> r == Refused(400, NoCases, None)
    ensures Gates(req).Admitted? && found.Some? && |found.value.testCases| > 0 ==>
      var q := found.value;
      r.SubmitResponse?
      && r.record == Grade(q, ExecuteAll(req.code, LanguageId(Gates(req).language), q.timeLimit, q.testCases, judge))
      && r.status == r.record.status && r.score == r.record.score
      && r.totalTests == |q.testCases| == |r.results|
      && forall i :: 0 <= i < |r.results| ==> r.results[i] == Brief(r.record.testCaseResults[i])
  {
    match Gates(req)
    case Rejected(resp) => resp
    case Admitted(l) =>
      match found
      case None => Refused(404, QuestionNotFound, None)
      case Some(q) =>
        if |q.testCases| == 0 then Refused(400, NoCases, None)
        else GradeSubmission(q, ExecuteAll(req.code, LanguageId(l), q.timeLimit, q.testCases, judge))
  }

  /** The graded response for a question with cases: the stored record and,
      per case, its brief. */
  function GradeSubmission(q: Question, execs: seq<ExecResult>): (r: Response)
    requires |execs| == |q.testCases|
    ensures r.SubmitResponse? && r.record == Grade(q, execs)
    ensures r.status == r.record.status && r.score == r.record.score
    ensures r.totalTests == |q.testCases| == |r.results|
    ensures forall i :: 0 <= i < |r.results| ==> r.results[i] == Brief(r.record.testCaseResults[i])
  {
    var record := Grade(q, execs);
    var brief := seq(|record.testCaseResults|, i requires 0 <= i < |record.testCaseResults| => Brief(record.testCaseResults[i]));
    SubmitResponse(record.status, record.score, |record.testCaseResults|, brief, record)
  }

  /** The gates run before the question is read and before Judge0 is asked:
      a refused request gets the same response whatever is stored and
      whatever Judge0 would answer. */
  lemma GatesPrecedeLookup(req: Request, q1: Option<Question>, q2: Option<Question>, j1: Judge0, j2: Judge0)
    requires Gates(req).Rejected?
    ensures RunCode(req, q1, j1) == RunCode(req, q2, j2)
    ensures SubmitCode(req, q1, j1) == SubmitCode(req, q2, j2)
  {
  }

  /** A submission scores the question's points exactly when every case, the
      hidden ones included, is accepted, and 0 otherwise. */
  lemma {:induction false} ScoreAllOrNothing(q: Question, execs: seq<ExecResult>)
    requires |execs| == |q.testCases|
    ensures Grade(q, execs).score == q.points || Grade(q, execs).score == 0
    ensures Grade(q, execs).status == "Accepted" <==>
      (forall i :: 0 <= i < |q.testCases| && !q.testCases[i].isHidden ==> OutputsMatch(q.testCases[i], execs[i]))
      && (forall i :: 0 <= i < |q.testCases| && q.testCases[i].isHidden ==> execs[i].statusDescription == "Accepted")
  {
    var r := Grade(q, execs);
    assert forall i :: 0 <= i < |q.testCases| ==> r.testCaseResults[i].status == Verdict(q.testCases[i], execs[i]);
  }

  /** The test case as a non-admin reader sees it. */
  function Redact(tc: TestCase): (r: TestCase)
    ensures r.id == tc.id && r.input == tc.input && r.isHidden == tc.isHidden
    ensures r.expectedOutput == if tc.isHidden then "Hidden" else tc.expectedOutput
  {
    if tc.isHidden then tc.(expectedOutput := "Hidden") else tc
  }

  /** The question `getCodingQuestion` sends to a reader with `role`. */
  function SanitizeQuestion(q: Question, role: string): (r: Question)
    ensures r.id == q.id && r.examId == q.examId && r.timeLimit == q.timeLimit && r.points == q.points
    ensures role == "admin" ==> r == q
    ensures |r.testCases| == |q.testCases|
    ensures role != "admin" ==> forall i :: 0 <= i < |q.testCases| ==>
      r.testCases[i].id == q.testCases[i].id && r.testCases[i].input == q.testCases[i].input
      && r.testCases[i].isHidden == q.testCases[i].isHidden
      && r.testCases[i].expectedOutput == if q.testCases[i].isHidden then "Hidden" else q.testCases[i].expectedOutput
  {
    if role == "admin" then q
    else q.(testCases := seq(|q.testCases|, i requires 0 <= i < |q.testCases| => Redact(q.testCases[i])))
  }

  /** Two questions that differ only in the expected outputs of hidden cases
      look the same to a non-admin reader. */
  lemma SanitizeHidesHiddenOutputs(q1: Question, q2: Question, role: string)
    requires role != "admin"
    requires q1.(testCases := []) == q2.(testCases := []) && |q1.testCases| == |q2.testCases|
    requires forall i :: 0 <= i < |q1.testCases| ==>
      q1.testCases[i].id == q2.testCases[i].id && q1.testCases[i].input == q2.testCases[i].input
      && q1.testCases[i].isHidden == q2.testCases[i].isHidden
      && (!q1.testCases[i].isHidden ==> q1.testCases[i].expectedOutput == q2.testCases[i].expectedOutput)
    ensures SanitizeQuestion(q1, role) == SanitizeQuestion(q2, role)
  {
    var r1, r2 := SanitizeQuestion(q1, role), SanitizeQuestion(q2, role);
    assert forall i :: 0 <= i < |r1.testCases| ==> r1.testCases[i] == r2.testCases[i];
  }

  /** Sanitizing twice is sanitizing once. */
  lemma SanitizeIdempotent(q: Question, role: string)
    ensures SanitizeQuestion(SanitizeQuestion(q, role), role) == SanitizeQuestion(q, role)
  {
    var r := SanitizeQuestion(q, role);
    var rr := SanitizeQuestion(r, role);
    assert forall i :: 0 <= i < |r.testCases| ==> rr.testCases[i] == r.testCases[i];
  }
}
