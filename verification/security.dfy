/** The forbidden-pattern gate of backend/controllers/codingController.js:
    the ordered `FORBIDDEN_PATTERNS` list and `validateCode`. Each pattern is
    written as a sequence of atoms that covers exactly the regular-expression
    features the list uses: literal characters, `\s`, the class `['"]`, `.`,
    the `*` and `+` repetitions over them, and a trailing `\b`. */
module Security {
  import opened Common

  datatype CharClass = Space | Quote | NotLineTerminator

  /** One pattern element. `Text` is a run of literal characters. `Many` is
      a repetition (`*`); since `test` only asks whether some match exists,
      greedy and lazy matching agree. `WordEnd` is a `\b` that follows a word
      character. */
  datatype Atom = Text(w: string) | One(cls: CharClass) | Many(cls: CharClass) | WordEnd

  datatype Pattern = Pattern(source: string, atoms: seq<Atom>)

  predicate InClass(cls: CharClass, c: char) {
    match cls
    case Space => IsJsSpace(c)
    case Quote => c == '\'' || c == '"'
    case NotLineTerminator => !IsLineTerminator(c)
  }

  predicate IsWordChar(c: char) {
    ('a' <= c <= 'z') || ('A' <= c <= 'Z') || ('0' <= c <= '9') || c == '_'
  }

  /** The atoms `p` match a prefix of `s`. */
  predicate MatchHere(p: seq<Atom>, s: string)
    decreases |s|, |p|
  {
    if |p| == 0 then true
    else match p[0]
      case Text(w) => IsPrefix(w, s) && MatchHere(p[1..], s[|w|..])
      case One(cls) => |s| > 0 && InClass(cls, s[0]) && MatchHere(p[1..], s[1..])
      case Many(cls) => MatchHere(p[1..], s) || (|s| > 0 && InClass(cls, s[0]) && MatchHere(p, s[1..]))
      case WordEnd => (|s| == 0 || !IsWordChar(s[0])) && MatchHere(p[1..], s)
  }

  /** `RegExp.prototype.test` on a pattern without the global flag: a match
      starts somewhere in `s`. */
  predicate Search(p: seq<Atom>, s: string)
    decreases |s|
  {
    MatchHere(p, s) || (|s| > 0 && Search(p, s[1..]))
  }

  /** The search agrees with "a match starts at some position". */
  lemma {:induction false} SearchIff(p: seq<Atom>, s: string)
    ensures Search(p, s) <==> exists k :: 0 <= k <= |s| && MatchHere(p, s[k..])
    decreases |s|
  {
    if MatchHere(p, s) {
      assert s[0..] == s;
    } else if |s| > 0 {
      SearchIff(p, s[1..]);
      if Search(p, s[1..]) {
        var k :| 0 <= k <= |s| - 1 && MatchHere(p, s[1..][k..]);
        assert s[1..][k..] == s[k + 1..];
      } else {
        forall k | 0 <= k <= |s|
          ensures !MatchHere(p, s[k..])
        {
          if k == 0 {
            assert s[0..] == s;
          } else {
            assert s[1..][k - 1..] == s[k..];
          }
        }
      }
    } else {
      forall k | 0 <= k <= |s|
        ensures !MatchHere(p, s[k..])
      {
        assert s[k..] == s;
      }
    }
  }

  /** A literal word followed by more atoms matches exactly when the word is a
      prefix and the rest matches after it. */
  lemma TextThen(w: string, rest: seq<Atom>, s: string)
    ensures MatchHere([Text(w)] + rest, s) <==> IsPrefix(w, s) && MatchHere(rest, s[|w|..])
  {
    assert ([Text(w)] + rest)[1..] == rest;
  }

  /** A pattern made of one literal word is a substring test. */
  lemma LiteralSearchIsContains(w: string, s: string)
    ensures Search([Text(w)], s) <==> Contains(s, w)
  {
    SearchIff([Text(w)], s);
    ContainsIff(s, w);
    if Contains(s, w) {
      var k :| OccursAt(s, w, k);
      TextThen(w, [], s[k..]);
      assert s[k..][..|w|] == s[k..k + |w|];
      assert [Text(w)] + [] == [Text(w)];
    }
    if Search([Text(w)], s) {
      var k :| 0 <= k <= |s| && MatchHere([Text(w)], s[k..]);
      TextThen(w, [], s[k..]);
      assert [Text(w)] + [] == [Text(w)];
      assert s[k..][..|w|] == s[k..k + |w|];
      assert OccursAt(s, w, k);
    }
  }

  /** `name\s*\(` */
  function Call(name: string): seq<Atom> {
    [Text(name), Many(Space), Text("(")]
  }

  /** `head\s*\(\s*['"]name['"]\s*\)` */
  function LoadCall(head: string, name: string): seq<Atom> {
    [Text(head), Many(Space), Text("("), Many(Space), One(Quote), Text(name), One(Quote), Many(Space), Text(")")]
  }

  /** `import\s+.*\s+from\s+['"]name['"]` */
  function ImportFrom(name: string): seq<Atom> {
    [Text("import"), One(Space), Many(Space), Many(NotLineTerminator), One(Space), Many(Space),
     Text("from"), One(Space), Many(Space), One(Quote), Text(name), One(Quote)]
  }

  /** `import\s+name\b` */
  function ImportWord(name: string): seq<Atom> {
    [Text("import"), One(Space), Many(Space), Text(name), WordEnd]
  }

  /** `from\s+name\s+import` */
  function FromImport(name: string): seq<Atom> {
    [Text("from"), One(Space), Many(Space), Text(name), One(Space), Many(Space), Text("import")]
  }

  // The entries of `FORBIDDEN_PATTERNS`, each with the text `pattern.source`
  // yields.
  const RequireChildProcess: Pattern := Pattern(@"require\s*\(\s*['""]child_process['""]\s*\)", LoadCall("require", "child_process"))
  const RequireFs: Pattern := Pattern(@"require\s*\(\s*['""]fs['""]\s*\)", LoadCall("require", "fs"))
  const RequireNet: Pattern := Pattern(@"require\s*\(\s*['""]net['""]\s*\)", LoadCall("require", "net"))
  const RequireHttp: Pattern := Pattern(@"require\s*\(\s*['""]http['""]\s*\)", LoadCall("require", "http"))
  const RequireHttps: Pattern := Pattern(@"require\s*\(\s*['""]https['""]\s*\)", LoadCall("require", "https"))
  const RequireDns: Pattern := Pattern(@"require\s*\(\s*['""]dns['""]\s*\)", LoadCall("require", "dns"))
  const ImportFromChildProcess: Pattern := Pattern(@"import\s+.*\s+from\s+['""]child_process['""]", ImportFrom("child_process"))
  const ImportFromFs: Pattern := Pattern(@"import\s+.*\s+from\s+['""]fs['""]", ImportFrom("fs"))
  const ExecCall: Pattern := Pattern(@"exec\s*\(", Call("exec"))
  const ExecSyncCall: Pattern := Pattern(@"execSync\s*\(", Call("execSync"))
  const SpawnCall: Pattern := Pattern(@"spawn\s*\(", Call("spawn"))
  const SpawnSyncCall: Pattern := Pattern(@"spawnSync\s*\(", Call("spawnSync"))
  const EvalCall: Pattern := Pattern(@"eval\s*\(", Call("eval"))
  const FunctionCall: Pattern := Pattern(@"Function\s*\(", Call("Function"))
  const PyImportOs: Pattern := Pattern(@"__import__\s*\(\s*['""]os['""]\s*\)", LoadCall("__import__", "os"))
  const PyImportSubprocess: Pattern := Pattern(@"__import__\s*\(\s*['""]subprocess['""]\s*\)", LoadCall("__import__", "subprocess"))
  const ImportOs: Pattern := Pattern(@"import\s+os\b", ImportWord("os"))
  const ImportSubprocess: Pattern := Pattern(@"import\s+subprocess\b", ImportWord("subprocess"))
  const FromOsImport: Pattern := Pattern(@"from\s+os\s+import", FromImport("os"))
  const FromSubprocessImport: Pattern := Pattern(@"from\s+subprocess\s+import", FromImport("subprocess"))
  const SystemExit: Pattern := Pattern(@"System\.exit\s*\(", Call("System.exit"))
  const RuntimeGetRuntime: Pattern := Pattern(@"Runtime\.getRuntime\s*\(\s*\)", [Text("Runtime.getRuntime"), Many(Space), Text("("), Many(Space), Text(")")])
  const ProcessBuilderCall: Pattern := Pattern(@"ProcessBuilder\s*\(", Call("ProcessBuilder"))
  const IncludeUnistd: Pattern := Pattern(@"include\s*<unistd\.h>", [Text("include"), Many(Space), Text("<unistd.h>")])
  const IncludeSys: Pattern := Pattern(@"include\s*<sys\/.*\.h>", [Text("include"), Many(Space), Text("<sys/"), Many(NotLineTerminator), Text(".h>")])
  const FopenCall: Pattern := Pattern(@"fopen\s*\(", Call("fopen"))
  const FilePointer: Pattern := Pattern(@"FILE\s*\*", [Text("FILE"), Many(Space), Text("*")])

  /** `FORBIDDEN_PATTERNS`, in order. */
  const ForbiddenPatterns: seq<Pattern> := [
    RequireChildProcess, RequireFs, RequireNet, RequireHttp,
    RequireHttps, RequireDns, ImportFromChildProcess, ImportFromFs,
    ExecCall, ExecSyncCall, SpawnCall, SpawnSyncCall,
    EvalCall, FunctionCall, PyImportOs, PyImportSubprocess,
    ImportOs, ImportSubprocess, FromOsImport, FromSubprocessImport,
    SystemExit, RuntimeGetRuntime, ProcessBuilderCall, IncludeUnistd,
    IncludeSys, FopenCall, FilePointer
  ]

  predicate Detects(p: Pattern, code: string) {
    Search(p.atoms, code)
  }

  /** Index of the first pattern of `ps` that detects something in `code`. */
  function FirstMatch(ps: seq<Pattern>, code: string): (r: Option<nat>)
    ensures r.Some? ==> r.value < |ps| && Detects(ps[r.value], code)
    ensures r.Some? ==> forall k :: 0 <= k < r.value ==> !Detects(ps[k], code)
    ensures r.None? <==> forall k :: 0 <= k < |ps| ==> !Detects(ps[k], code)
  {
    if |ps| == 0 then None
    else if Detects(ps[0], code) then Some(0)
    else match FirstMatch(ps[1..], code)
      case None => None
      case Some(i) =>
        assert forall k :: 1 <= k <= i ==> ps[k] == ps[1..][k - 1];
        Some(i + 1)
  }

  datatype Validation = Valid | Invalid(reason: string)

  const ReasonPrefix: string := "Forbidden pattern detected: "

  /** The first pattern of `ps`, in list order, that matches anywhere in the
      code names the reason. */
  function Validate(ps: seq<Pattern>, code: string): (r: Validation)
    ensures r.Valid? <==> forall k :: 0 <= k < |ps| ==> !Detects(ps[k], code)
    ensures r.Invalid? ==>
      exists k :: 0 <= k < |ps| && Detects(ps[k], code)
        && (forall j :: 0 <= j < k ==> !Detects(ps[j], code))
        && r.reason == ReasonPrefix + ps[k].source
  {
    match FirstMatch(ps, code)
    case None => Valid
    case Some(k) => Invalid(ReasonPrefix + ps[k].source)
  }

  /** `validateCode(code, language)` over `FORBIDDEN_PATTERNS`; the language
      does not take part (its infinite-loop heuristic only writes a log
      line). */
  function ValidateCode(code: string, language: string): (r: Validation)
    ensures r.Valid? <==> forall k :: 0 <= k < |ForbiddenPatterns| ==> !Detects(ForbiddenPatterns[k], code)
    ensures r.Invalid? ==>
      exists k :: 0 <= k < |ForbiddenPatterns| && Detects(ForbiddenPatterns[k], code)
        && (forall j :: 0 <= j < k ==> !Detects(ForbiddenPatterns[j], code))
        && r.reason == ReasonPrefix + ForbiddenPatterns[k].source
  {
    Validate(ForbiddenPatterns, code)
  }

  /** `\s*\(` matches any run of white space followed by an opening
      parenthesis. */
  lemma {:induction false} SpacesThenParen(sp: string, t: string)
    requires forall i :: 0 <= i < |sp| ==> IsJsSpace(sp[i])
    requires IsPrefix(sp + "(", t)
    ensures MatchHere([Many(Space), Text("(")], t)
    decreases |sp|
  {
    if |sp| == 0 {
      assert t[..1] == "(";
      assert [Many(Space), Text("(")][1..] == [Text("(")];
      assert [Text("(")][1..] == [];
    } else {
      assert t[0] == sp[0];
      assert (sp + "(")[1..] == sp[1..] + "(";
      assert t[1..][..|sp[1..] + "("|] == t[..|sp + "("|][1..];
      SpacesThenParen(sp[1..], t[1..]);
    }
  }

  /** A call `name (` with any white space before the parenthesis is caught
      by the pattern `name\s*\(`. */
  lemma CallDetected(name: string, sp: string, code: string)
    requires forall i :: 0 <= i < |sp| ==> IsJsSpace(sp[i])
    requires Contains(code, name + sp + "(")
    ensures Search(Call(name), code)
  {
    var w := name + sp + "(";
    ContainsIff(code, w);
    var k :| OccursAt(code, w, k);
    var t := code[k..];
    assert t[..|w|] == w;
    assert IsPrefix(name, t) by {
      assert t[..|name|] == w[..|name|];
    }
    assert IsPrefix(sp + "(", t[|name|..]) by {
      assert t[|name|..][..|sp + "("|] == w[|name|..];
    }
    SpacesThenParen(sp, t[|name|..]);
    TextThen(name, [Many(Space), Text("(")], t);
    assert Call(name) == [Text(name)] + [Many(Space), Text("(")];
    SearchIff(Call(name), code);
  }

  /** Any pattern that matches makes the code refused. */
  lemma RefusedWhenDetected(code: string, language: string, k: nat)
    requires k < |ForbiddenPatterns| && Detects(ForbiddenPatterns[k], code)
    ensures ValidateCode(code, language).Invalid?
  {
  }

  /** Where the two named patterns sit in the list. */
  lemma EvalPosition()
    ensures 12 < |ForbiddenPatterns| && ForbiddenPatterns[12] == EvalCall
  {
  }

  lemma FopenPosition()
    ensures 25 < |ForbiddenPatterns| && ForbiddenPatterns[25] == FopenCall
  {
  }

  lemma DetectsVia(p: Pattern, atoms: seq<Atom>, code: string)
    requires p.atoms == atoms && Search(atoms, code)
    ensures Detects(p, code)
  {
  }

  /** Code that opens a file with `fopen`, with or without white space before
      the parenthesis, is refused. */
  lemma FopenRefused(code: string, language: string, sp: string)
    requires forall i :: 0 <= i < |sp| ==> IsJsSpace(sp[i])
    requires Contains(code, "fopen" + sp + "(")
    ensures ValidateCode(code, language).Invalid?
  {
    CallDetected("fopen", sp, code);
    FopenPosition();
    DetectsVia(FopenCall, Call("fopen"), code);
    RefusedWhenDetected(code, language, 25);
  }

  /** The `eval` pattern has no word boundary, so any identifier ending in
      `eval` followed by a call is refused too, e.g. `retrieval(x)`. */
  lemma EvalSuffixRefused(code: string, language: string)
    requires Contains(code, "retrieval(")
    ensures ValidateCode(code, language).Invalid?
  {
    ContainsIff(code, "retrieval(");
    var k :| OccursAt(code, "retrieval(", k);
    assert code[k + 5..k + 10] == "eval(";
    assert OccursAt(code, "eval(", k + 5);
    ContainsIff(code, "eval(");
    assert "eval" + "" + "(" == "eval(";
    CallDetected("eval", "", code);
    EvalPosition();
    DetectsVia(EvalCall, Call("eval"), code);
    RefusedWhenDetected(code, language, 12);
  }
}
