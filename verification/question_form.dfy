/** The test-case list editor and the submit conversion of
    frontend/src/components/CodingQuestionForm.jsx. */
module QuestionForm {
  import opened Common

  /** One test case as typed into the form. */
  datatype DraftCase = DraftCase(input: string, expectedOutput: string, isHidden: bool)

  /** A new case: empty texts, visible. */
  const EmptyCase: DraftCase := DraftCase("", "", false)

  /** The form; the number fields hold what the inputs hold, as text. */
  datatype Form = Form(
    title: string,
    description: string,
    constraints: string,
    difficulty: string,
    points: string,
    timeLimit: string,
    testCases: seq<DraftCase>)

  /** The form starts with 10 points, 2000 ms and exactly one empty case. */
  const InitialForm: Form := Form("", "", "", "Medium", "10", "2000", [EmptyCase])

  /** `addTestCase`: one empty visible case at the end, the others kept. */
  function AddTestCase(cs: seq<DraftCase>): (r: seq<DraftCase>)
    ensures |r| == |cs| + 1
    ensures r[..|cs|] == cs && r[|cs|] == EmptyCase
  {
    cs + [EmptyCase]
  }

  /** `testCases.filter((_, i) => i !== index)`, walking from position
      `from`. */
  function FilterOut(cs: seq<DraftCase>, index: int, from: nat): seq<DraftCase>
    requires from <= |cs|
    decreases |cs| - from
  {
    if from == |cs| then []
    else (if from == index then [] else [cs[from]]) + FilterOut(cs, index, from + 1)
  }

  lemma {:induction false} FilterOutKeepsAll(cs: seq<DraftCase>, index: int, from: nat)
    requires from <= |cs| && (index < from || index >= |cs|)
    ensures FilterOut(cs, index, from) == cs[from..]
    decreases |cs| - from
  {
    if from < |cs| {
      FilterOutKeepsAll(cs, index, from + 1);
      assert cs[from..] == [cs[from]] + cs[from + 1..];
    }
  }

  lemma {:induction false} FilterOutSlices(cs: seq<DraftCase>, index: int, from: nat)
    requires from <= index < |cs|
    ensures FilterOut(cs, index, from) == cs[from..index] + cs[index + 1..]
    decreases |cs| - from
  {
    if from == index {
      FilterOutKeepsAll(cs, index, from + 1);
      assert cs[from..index] == [];
    } else {
      FilterOutSlices(cs, index, from + 1);
      FilterOutKeeps(cs, index, from);
      SliceCons(cs, from, index);
    }
  }

  lemma FilterOutKeeps(cs: seq<DraftCase>, index: int, from: nat)
    requires from < |cs| && from != index
    ensures FilterOut(cs, index, from) == [cs[from]] + FilterOut(cs, index, from + 1)
  {
  }

  lemma SliceCons(cs: seq<DraftCase>, from: nat, index: nat)
    requires from < index < |cs|
    ensures [cs[from]] + (cs[from + 1..index] + cs[index + 1..]) == cs[from..index] + cs[index + 1..]
  {
    assert cs[from..index] == [cs[from]] + cs[from + 1..index];
  }

  /** `removeTestCase`: the case at `index` goes, but only while more than
      one case is left; an index off the list removes nothing. */
  function RemoveTestCase(cs: seq<DraftCase>, index: int): (r: seq<DraftCase>)
    ensures |cs| <= 1 ==> r == cs
    ensures |cs| > 1 && 0 <= index < |cs| ==> r == cs[..index] + cs[index + 1..]
    ensures |cs| > 1 && !(0 <= index < |cs|) ==> r == cs
  {
    if |cs| > 1 then
      if 0 <= index < |cs| then
        FilterOutSlices(cs, index, 0);
        FilterOut(cs, index, 0)
      else
        FilterOutKeepsAll(cs, index, 0);
        FilterOut(cs, index, 0)
    else cs
  }

  /** Which field of a case an edit changes, with its new value. */
  datatype Edit = SetInput(text: string) | SetExpectedOutput(text: string) | SetHidden(hidden: bool)

  function ApplyEdit(c: DraftCase, e: Edit): (r: DraftCase)
    ensures e.SetInput? ==> r == c.(input := e.text)
    ensures e.SetExpectedOutput? ==> r == c.(expectedOutput := e.text)
    ensures e.SetHidden? ==> r == c.(isHidden := e.hidden)
  {
    match e
    case SetInput(t) => c.(input := t)
    case SetExpectedOutput(t) => c.(expectedOutput := t)
    case SetHidden(h) => c.(isHidden := h)
  }

  /** `handleTestCaseChange`: only the named field of the indexed case
      changes. An index off the list makes the assignment throw before the
      state is set, so nothing changes. */
  function ChangeTestCase(cs: seq<DraftCase>, index: int, e: Edit): (r: seq<DraftCase>)
    ensures |r| == |cs|
    ensures forall i :: 0 <= i < |cs| && i != index ==> r[i] == cs[i]
    ensures 0 <= index < |cs| ==> r[index] == ApplyEdit(cs[index], e)
  {
    if 0 <= index < |cs| then cs[index := ApplyEdit(cs[index], e)] else cs
  }

  /** An operation of the test-case editor. */
  datatype Op = Add | Remove(index: int) | Change(index: int, edit: Edit)

  function Apply(cs: seq<DraftCase>, op: Op): seq<DraftCase> {
    match op
    case Add => AddTestCase(cs)
    case Remove(i) => RemoveTestCase(cs, i)
    case Change(i, e) => ChangeTestCase(cs, i, e)
  }

  function ApplyAll(cs: seq<DraftCase>, ops: seq<Op>): seq<DraftCase>
    decreases |ops|
  {
    if |ops| == 0 then cs else ApplyAll(Apply(cs, ops[0]), ops[1..])
  }

  /** No sequence of edits empties the list of a form that has a case. */
  lemma {:induction false} NeverEmpty(cs: seq<DraftCase>, ops: seq<Op>)
    requires |cs| >= 1
    ensures |ApplyAll(cs, ops)| >= 1
    decreases |ops|
  {
    if |ops| > 0 {
      NeverEmpty(Apply(cs, ops[0]), ops[1..]);
    }
  }

  /** Removing a case shortens the list by one and leaves the cases before
      it where they were. */
  lemma RemoveKeepsPrefix(cs: seq<DraftCase>, index: int)
    requires |cs| > 1 && 0 <= index < |cs|
    ensures RemoveTestCase(cs, index)[..index] == cs[..index]
    ensures |RemoveTestCase(cs, index)| == |cs| - 1
  {
  }

  // ---------------------------------------------------------------------
  // Submitting
  // ---------------------------------------------------------------------

  /** The index just past the run of digits starting at `j`. */
  function DigitEnd(s: string, j: nat): (r: nat)
    requires j <= |s|
    ensures j <= r <= |s|
    ensures forall k :: j <= k < r ==> IsDigit(s[k])
    ensures r < |s| ==> !IsDigit(s[r])
    decreases |s| - j
  {
    if j < |s| && IsDigit(s[j]) then DigitEnd(s, j + 1) else j
  }

  /** `parseInt(s)` in base 10: leading white space, an optional sign, then
      the longest run of digits; no digits gives NaN (`None`). */
  function ParseInt(s: string): (r: Option<int>)
    ensures (forall k :: 0 <= k < |s| ==> !IsDigit(s[k])) ==> r == None
    ensures r.Some? <==> (
      var i := SkipSpace(s, 0);
      var j := if i < |s| && (s[i] == '-' || s[i] == '+') then i + 1 else i;
      j < |s| && IsDigit(s[j]))
  {
    ReadNumber(s, SkipSpace(s, 0))
  }

  // The number at index `i`, after the leading white space: an optional
  // sign, then the longest run of digits.
  function ReadNumber(s: string, i: nat): (r: Option<int>)
    requires i <= |s|
    ensures (forall k :: i <= k < |s| ==> !IsDigit(s[k])) ==> r == None
    ensures r.Some? <==> (
      var j := if i < |s| && (s[i] == '-' || s[i] == '+') then i + 1 else i;
      j < |s| && IsDigit(s[j]))
  {
    var neg := i < |s| && s[i] == '-';
    var j := if i < |s| && (s[i] == '-' || s[i] == '+') then i + 1 else i;
    var k := DigitEnd(s, j);
    if k == j then None
    else
      var v: int := DigitsValue(s[j..k]);
      Some(if neg then -v else v)
  }

  /** `parseInt` reads back what `String` writes for any integer. */
  lemma ParseIntRoundTrip(n: int)
    ensures ParseInt(IntToString(n)) == Some(n)
  {
    var m: nat := if n < 0 then -n else n;
    var sign := if n < 0 then "-" else "";
    var digits := NatToString(m);
    IntToStringLayout(n, m, sign);
    ParseIntReadsLeadingNumber("", sign, digits, "");
  }

  /** `String(n)` is the sign followed by the numeral of `|n|`. */
  lemma IntToStringLayout(n: int, m: nat, sign: string)
    requires m == (if n < 0 then -n else n)
    requires sign == (if n < 0 then "-" else "")
    ensures "" + sign + NatToString(m) + "" == IntToString(n)
    ensures DigitsValue(NatToString(m)) == m
  {
    NatToStringRoundTrip(m);
  }

  /** `parseInt` reads the number at the front and ignores what follows:
      leading white space, an optional sign and the longest run of digits
      give the value, so "  12abc" reads 12 and "-7x" reads -7. */
  lemma ParseIntReadsLeadingNumber(ws: string, sign: string, digits: string, tail: string)
    requires forall k :: 0 <= k < |ws| ==> IsJsSpace(ws[k])
    requires sign == "" || sign == "-" || sign == "+"
    requires |digits| > 0 && forall k :: 0 <= k < |digits| ==> IsDigit(digits[k])
    requires tail == "" || !IsDigit(tail[0])
    ensures ParseInt(ws + sign + digits + tail)
      == Some(if sign == "-" then -(DigitsValue(digits) as int) else DigitsValue(digits) as int)
  {
    NumberLayout(ws, sign, digits, tail);
    ParseIntValue(ws + sign + digits + tail, |ws|, |ws| + |sign|, digits);
  }

  lemma ParseIntValue(s: string, i: nat, j: nat, digits: string)
    requires i < |s| && SkipSpace(s, 0) == i
    requires j == (if s[i] == '-' || s[i] == '+' then i + 1 else i)
    requires |digits| > 0 && j + |digits| <= |s| && DigitEnd(s, j) == j + |digits|
    requires s[j..j + |digits|] == digits
    ensures ParseInt(s) == Some(if s[i] == '-' then -(DigitsValue(digits) as int) else DigitsValue(digits) as int)
  {
    assert ParseInt(s) == ReadNumber(s, i);
  }

  lemma NumberLayout(ws: string, sign: string, digits: string, tail: string)
    requires forall k :: 0 <= k < |ws| ==> IsJsSpace(ws[k])
    requires sign == "" || sign == "-" || sign == "+"
    requires |digits| > 0 && forall k :: 0 <= k < |digits| ==> IsDigit(digits[k])
    requires tail == "" || !IsDigit(tail[0])
    ensures var s := ws + sign + digits + tail;
      && SkipSpace(s, 0) == |ws| < |s|
      && (s[|ws|] == '-') == (sign == "-")
      && (s[|ws|] == '-' || s[|ws|] == '+') == (sign != "")
      && DigitEnd(s, |ws| + |sign|) == |ws| + |sign| + |digits|
      && s[|ws| + |sign|..|ws| + |sign| + |digits|] == digits
  {
    var s := ws + sign + digits + tail;
    var j := |ws| + |sign|;
    assert forall k :: 0 <= k < |ws| ==> s[k] == ws[k];
    assert s[|ws|] == (if sign == "" then digits[0] else sign[0]);
    SkipSpaceUpTo(s, |ws|);
    assert forall k :: 0 <= k < |digits| ==> s[j + k] == digits[k];
    assert j + |digits| < |s| ==> s[j + |digits|] == tail[0];
    DigitEndAt(s, j, j + |digits|);
    assert s[j..j + |digits|] == digits;
  }

  lemma SkipSpaceUpTo(s: string, n: nat)
    requires n < |s| && !IsJsSpace(s[n])
    requires forall k :: 0 <= k < n ==> IsJsSpace(s[k])
    ensures SkipSpace(s, 0) == n
  {
  }

  lemma DigitEndAt(s: string, j: nat, e: nat)
    requires j <= e <= |s|
    requires forall k :: j <= k < e ==> IsDigit(s[k])
    requires e < |s| ==> !IsDigit(s[e])
    ensures DigitEnd(s, j) == e
  {
  }

  lemma ParseIntSpacedExample()
    ensures ParseInt("  12abc") == Some(12)
  {
    SpacedExampleLayout();
    ParseIntReadsLeadingNumber("  ", "", "12", "abc");
  }

  lemma SpacedExampleLayout()
    ensures "  " + "" + "12" + "abc" == "  12abc"
    ensures DigitsValue("12") == 12
  {
    assert "12"[..1] == "1";
  }

  /** A digit that does not directly follow the white space and at most one
      sign gives NaN. */
  lemma ParseIntNaNExamples()
    ensures ParseInt("x5") == None
    ensures ParseInt("--5") == None
    ensures ParseInt("- 5") == None
    ensures ParseInt("+-1") == None
  {
    assert SkipSpace("x5", 0) == 0;
    assert SkipSpace("--5", 0) == 0;
    assert SkipSpace("- 5", 0) == 0;
    assert SkipSpace("+-1", 0) == 0;
  }

  lemma ParseIntSignedExample()
    ensures ParseInt("-7x") == Some(-7)
  {
    ParseIntReadsLeadingNumber("", "-", "7", "x");
    assert "" + "-" + "7" + "x" == "-7x";
    assert DigitsValue("7") == 7;
  }

  lemma SkipSpaceStops(s: string)
    requires |s| > 0 && !IsJsSpace(s[0])
    ensures SkipSpace(s, 0) == 0
  {
  }

  lemma DigitEndAll(s: string, j: nat)
    requires j <= |s|
    requires forall k :: j <= k < |s| ==> IsDigit(s[k])
    ensures DigitEnd(s, j) == |s|
  {
  }

  /** The question sent by `handleSubmit`: the form with the exam id and
      the two numbers converted. */
  datatype Payload = Payload(
    examId: string,
    title: string,
    description: string,
    constraints: string,
    difficulty: string,
    points: Option<int>,
    timeLimit: Option<int>,
    testCases: seq<DraftCase>)

  function HandleSubmit(f: Form, examId: string): (p: Payload)
    ensures p.examId == examId && p.testCases == f.testCases
    ensures p.title == f.title && p.description == f.description
      && p.constraints == f.constraints && p.difficulty == f.difficulty
    ensures p.points == ParseInt(f.points) && p.timeLimit == ParseInt(f.timeLimit)
  {
    Payload(examId, f.title, f.description, f.constraints, f.difficulty,
            ParseInt(f.points), ParseInt(f.timeLimit), f.testCases)
  }

  /** Typing a number into a field and submitting sends that number. */
  lemma SubmitSendsTypedNumbers(f: Form, examId: string, points: int, timeLimit: int)
    requires f.points == IntToString(points) && f.timeLimit == IntToString(timeLimit)
    ensures HandleSubmit(f, examId).points == Some(points)
    ensures HandleSubmit(f, examId).timeLimit == Some(timeLimit)
  {
    ParseIntRoundTrip(points);
    ParseIntRoundTrip(timeLimit);
  }

  /** An untouched form sends 10 points, 2000 ms and one empty case. */
  lemma InitialSubmit(examId: string)
    ensures HandleSubmit(InitialForm, examId).points == Some(10)
    ensures HandleSubmit(InitialForm, examId).timeLimit == Some(2000)
    ensures HandleSubmit(InitialForm, examId).testCases == [EmptyCase]
  {
    assert IntToString(10) == "10";
    assert IntToString(2000) == "2000";
    ParseIntRoundTrip(10);
    ParseIntRoundTrip(2000);
  }
}
