/** The pure parts of frontend/src/components/CodingEditor.jsx: the editor
    language mapping, the code loaded on a language change, the copy, paste,
    tab-switch and fullscreen warnings, the result colours and the
    pass-count badge. */
module Editor {
  import opened Common
  import Judge

  /** The four languages of the selector. */
  const Languages: seq<string> := ["javascript", "python", "java", "cpp"]

  predicate Known(lang: string) {
    lang == "javascript" || lang == "python" || lang == "java" || lang == "cpp"
  }

  /** `getMonacoLanguage`: the four known languages map to themselves,
      anything else to "javascript". */
  function MonacoLanguage(lang: string): (r: string)
    ensures Known(r)
    ensures Known(lang) ==> r == lang
    ensures !Known(lang) ==> r == "javascript"
  {
    if Known(lang) then lang else "javascript"
  }

  /** Mapping twice is mapping once. */
  lemma MonacoLanguageIdempotent(lang: string)
    ensures MonacoLanguage(MonacoLanguage(lang)) == MonacoLanguage(lang)
  {
  }

  /** The selector offers exactly the known languages. */
  lemma SelectorOffersKnown(lang: string)
    ensures lang in Languages <==> Known(lang)
  {
  }

  /** `DEFAULT_CODE`: the starter program of each language. */
  const JavaScriptStarter: string := "// Write your JavaScript code here\n\nfunction solution(input) {\n  // Your code here\n  return input;\n}\n\n// Read input from stdin\nconst readline = require(\'readline\');\nconst rl = readline.createInterface({\n  input: process.stdin,\n  output: process.stdout\n});\n\nlet lines = [];\nrl.on(\'line\', (line) => {\n  lines.push(line);\n});\n\nrl.on(\'close\', () => {\n  const result = solution(lines);\n  console.log(result);\n});"
  const PythonStarter: string := "# Write your Python code here\n\ndef solution(input_data):\n    # Your code here\n    return input_data\n\n# Read input from stdin\nimport sys\n\nif __name__ == \"__main__\":\n    input_data = sys.stdin.read().strip().split(\'\\n\')\n    result = solution(input_data)\n    print(result)"
  const JavaStarter: string := "// Write your Java code here\n\nimport java.util.*;\n\npublic class Main {\n    public static void main(String[] args) {\n        Scanner sc = new Scanner(System.in);\n        // Read input\n        String input = sc.nextLine();\n        \n        // Your code here\n        System.out.println(input);\n    }\n}"
  const CppStarter: string := "// Write your C++ code here\n\n#include <iostream>\n#include <string>\nusing namespace std;\n\nint main() {\n    string input;\n    getline(cin, input);\n    \n    // Your code here\n    cout << input << endl;\n    \n    return 0;\n}"

  function DefaultCode(lang: string): (r: Option<string>)
    ensures r.Some? <==> Known(lang)
    ensures lang == "javascript" ==> r == Some(JavaScriptStarter)
  {
    if lang == "javascript" then Some(JavaScriptStarter)
    else if lang == "python" then Some(PythonStarter)
    else if lang == "java" then Some(JavaStarter)
    else if lang == "cpp" then Some(CppStarter)
    else None
  }

  /** What the editor shows. */
  datatype Report = Report(kind: string, amount: int)

  datatype EditorState = EditorState(
    language: string,
    code: string,
    violationCount: nat,
    warning: Option<string>,
    reports: seq<Report>,
    tabSwitchStart: Option<int>)

  /** The editor opens on JavaScript with its starter program. */
  const InitialEditor: EditorState :=
    EditorState("javascript", JavaScriptStarter, 0, None, [], None)

  /** `handleLanguageChange`: the question's own starter code for the new
      language if it has a non-empty one, else the built-in starter, else
      nothing. */
  function ChangeLanguage(s: EditorState, lang: string, questionDefaults: Option<map<string, string>>): (r: EditorState)
    ensures r.language == lang
    ensures questionDefaults.Some? && lang in questionDefaults.value && questionDefaults.value[lang] != ""
      ==> r.code == questionDefaults.value[lang]
    ensures !(questionDefaults.Some? && lang in questionDefaults.value && questionDefaults.value[lang] != "")
      ==> r.code == (if Known(lang) then DefaultCode(lang).value else "")
    ensures r.violationCount == s.violationCount && r.reports == s.reports
    ensures r.warning == s.warning && r.tabSwitchStart == s.tabSwitchStart
  {
    var code :=
      if questionDefaults.Some? && lang in questionDefaults.value && questionDefaults.value[lang] != ""
      then questionDefaults.value[lang]
      else match DefaultCode(lang)
        case Some(c) => c
        case None => "";
    s.(language := lang, code := code)
  }

  /** A language change replaces whatever was typed: the result does not
      depend on the code before the change. */
  lemma ChangeLanguageDiscardsCode(s1: EditorState, s2: EditorState, lang: string, d: Option<map<string, string>>)
    ensures ChangeLanguage(s1, lang, d).code == ChangeLanguage(s2, lang, d).code
  {
  }

  /** Switching back to JavaScript on a question without starter code
      restores the opening program. */
  lemma BackToJavaScript(s: EditorState)
    ensures ChangeLanguage(s, "javascript", None).code == InitialEditor.code
  {
  }

  /** `displayWarning`: the message is shown and one violation is added. */
  function DisplayWarning(s: EditorState, message: string): (r: EditorState)
    ensures r.violationCount == s.violationCount + 1
    ensures r.warning == Some(message)
    ensures r.language == s.language && r.code == s.code && r.reports == s.reports
    ensures r.tabSwitchStart == s.tabSwitchStart
  {
    s.(violationCount := s.violationCount + 1, warning := Some(message))
  }

  /** `onViolation(type, details)` when the parent passed a handler
      (`hasHandler`), nothing otherwise. */
  function Notify(s: EditorState, hasHandler: bool, report: Report): (r: EditorState)
    ensures hasHandler ==> r.reports == s.reports + [report]
    ensures !hasHandler ==> r.reports == s.reports
    ensures r.violationCount == s.violationCount && r.warning == s.warning
    ensures r.language == s.language && r.code == s.code && r.tabSwitchStart == s.tabSwitchStart
  {
    if hasHandler then s.(reports := s.reports + [report]) else s
  }

  /** The warnings the editor shows. */
  function PasteWarning(pastedLength: nat): string {
    "Paste detected! " + NatToString(pastedLength) + " characters pasted. This has been logged."
  }

  function CopyWarning(copyLength: nat): string {
    "Copy attempt detected! " + NatToString(copyLength) + " characters. This has been logged."
  }

  function TabSwitchWarning(awayMs: int): string {
    "Tab switch detected! You were away for " + IntToString(awayMs) + "ms. This has been logged."
  }

  const FullscreenWarning: string := "Fullscreen mode exited! This has been logged."

  /** `handlePaste`: every paste is counted, warned about and, with a
      handler, reported with its length, whatever that length. The
      language, the code and the tab-switch stamp are left alone. */
  function OnPaste(s: EditorState, hasHandler: bool, pastedLength: nat): (r: EditorState)
    ensures r.violationCount == s.violationCount + 1
    ensures hasHandler ==> r.reports == s.reports + [Report("paste", pastedLength)]
    ensures !hasHandler ==> r.reports == s.reports
    ensures r.warning == Some(PasteWarning(pastedLength))
    ensures r.language == s.language && r.code == s.code && r.tabSwitchStart == s.tabSwitchStart
  {
    DisplayWarning(Notify(s, hasHandler, Report("paste", pastedLength)), PasteWarning(pastedLength))
  }

  /** Selections up to this length are copied silently. */
  const CopyThreshold: nat := 10

  /** `handleCopy`: only a selection longer than 10 characters is counted
      and reported. */
  function OnCopy(s: EditorState, hasHandler: bool, copyLength: nat): (r: EditorState)
    ensures copyLength <= CopyThreshold ==> r == s
    ensures copyLength > CopyThreshold ==> r.violationCount == s.violationCount + 1
    ensures copyLength > CopyThreshold && hasHandler ==> r.reports == s.reports + [Report("copy_attempt", copyLength)]
    ensures !hasHandler ==> r.reports == s.reports
    ensures copyLength > CopyThreshold ==> r.warning == Some(CopyWarning(copyLength))
    ensures r.language == s.language && r.code == s.code && r.tabSwitchStart == s.tabSwitchStart
  {
    if copyLength > CopyThreshold then
      DisplayWarning(Notify(s, hasHandler, Report("copy_attempt", copyLength)), CopyWarning(copyLength))
    else s
  }

  /** `handleVisibilityChange`: leaving stamps the time; coming back after
      a stamped leave counts and reports the time away and clears the
      stamp. */
  function OnVisibility(s: EditorState, hasHandler: bool, hidden: bool, now: int): (r: EditorState)
    ensures hidden ==> r == s.(tabSwitchStart := Some(now))
    ensures !hidden && s.tabSwitchStart.None? ==> r == s
    ensures !hidden && s.tabSwitchStart.Some? ==>
      r.tabSwitchStart.None? && r.violationCount == s.violationCount + 1
    ensures !hidden && s.tabSwitchStart.Some? && hasHandler ==>
      r.reports == s.reports + [Report("tab_switch", now - s.tabSwitchStart.value)]
    ensures !hasHandler ==> r.reports == s.reports
    ensures !hidden && s.tabSwitchStart.Some? ==>
      r.warning == Some(TabSwitchWarning(now - s.tabSwitchStart.value))
    ensures r.language == s.language && r.code == s.code
  {
    if hidden then s.(tabSwitchStart := Some(now))
    else match s.tabSwitchStart
      case None => s
      case Some(start) =>
        var d := now - start;
        DisplayWarning(Notify(s, hasHandler, Report("tab_switch", d)), TabSwitchWarning(d))
          .(tabSwitchStart := None)
  }

  /** `handleFullscreenChange`: leaving fullscreen is counted and
      reported. */
  function OnFullscreenChange(s: EditorState, hasHandler: bool, fullscreen: bool): (r: EditorState)
    ensures fullscreen ==> r == s
    ensures !fullscreen ==> r.violationCount == s.violationCount + 1
    ensures !fullscreen && hasHandler ==> r.reports == s.reports + [Report("fullscreen_exit", 0)]
    ensures !hasHandler ==> r.reports == s.reports
    ensures !fullscreen ==> r.warning == Some(FullscreenWarning)
    ensures r.language == s.language && r.code == s.code && r.tabSwitchStart == s.tabSwitchStart
  {
    if fullscreen then s
    else DisplayWarning(Notify(s, hasHandler, Report("fullscreen_exit", 0)), FullscreenWarning)
  }

  /** With a handler attached, the violation count shown is the number of
      reports: every warning comes with exactly one report. */
  lemma CountMatchesReports(s: EditorState, hidden: bool, fullscreen: bool, now: int, n: nat)
    requires s.violationCount == |s.reports|
    ensures OnPaste(s, true, n).violationCount == |OnPaste(s, true, n).reports|
    ensures OnCopy(s, true, n).violationCount == |OnCopy(s, true, n).reports|
    ensures OnVisibility(s, true, hidden, now).violationCount == |OnVisibility(s, true, hidden, now).reports|
    ensures OnFullscreenChange(s, true, fullscreen).violationCount == |OnFullscreenChange(s, true, fullscreen).reports|
  {
  }

  /** The text colours of a result status. */
  datatype StatusColor = GreenText | RedText | YellowText | GrayText

  /** `getStatusColor`. */
  function StatusColorOf(status: string): (c: StatusColor)
    ensures c == GreenText <==> status == "Accepted"
    ensures c == RedText <==> status == "Wrong Answer"
    ensures c == YellowText <==> status == "Running"
  {
    if status == "Accepted" then GreenText
    else if status == "Wrong Answer" then RedText
    else if status == "Running" then YellowText
    else GrayText
  }

  /** Every status the judge hands out for a hidden case other than
      "Accepted" (that is, "Failed") is shown grey, not red. */
  lemma FailedIsGray()
    ensures StatusColorOf("Failed") == GrayText
  {
  }

  /** `testResults.filter(r => r.status === 'Accepted')`. */
  function AcceptedOnly(rs: seq<Judge.CaseResult>): (r: seq<Judge.CaseResult>)
    ensures |r| <= |rs|
    ensures forall x :: x in r ==> x in rs && x.status == "Accepted"
  {
    if |rs| == 0 then []
    else AcceptedOnly(rs[..|rs| - 1]) + (if rs[|rs| - 1].status == "Accepted" then [rs[|rs| - 1]] else [])
  }

  /** The badge on the Output tab: accepted over total, shown only when
      there are results. */
  function PassBadge(rs: seq<Judge.CaseResult>): (b: Option<(nat, nat)>)
    ensures b.None? <==> |rs| == 0
    ensures b.Some? ==> b.value.0 <= b.value.1 == |rs|
  {
    if |rs| == 0 then None else Some((|AcceptedOnly(rs)|, |rs|))
  }

  lemma {:induction false} AcceptedOnlyCounts(rs: seq<Judge.CaseResult>)
    ensures |AcceptedOnly(rs)| == Judge.CountAccepted(rs)
  {
    if |rs| > 0 {
      AcceptedOnlyCounts(rs[..|rs| - 1]);
    }
  }

  /** The badge agrees with the server's run summary. */
  lemma PassBadgeMatchesSummary(rs: seq<Judge.CaseResult>)
    requires |rs| > 0
    ensures PassBadge(rs) == Some((Judge.RunSummary(rs).passed, Judge.RunSummary(rs).total))
  {
    AcceptedOnlyCounts(rs);
  }
}
