/** The pure rules of frontend/src/pages/AdminDashboard.jsx: the colour and
    label bands of the risk, score and similarity badges, the row layout of
    the exported PDF report, and the guard in front of a plagiarism request. */
module Dashboard {
  import opened Common
  import Risk
  import Plagiarism

  /** The three badge colours (red, yellow and green Tailwind classes). */
  datatype Band = Red | Yellow | Green

  /** `getRiskColor`: red from 70, yellow from 40, green below. */
  function RiskColor(risk: int): (c: Band)
    ensures c == Red <==> risk >= Risk.HighRisk
    ensures c == Yellow <==> 40 <= risk < Risk.HighRisk
    ensures c == Green <==> risk < 40
  {
    if risk >= 70 then Red else if risk >= 40 then Yellow else Green
  }

  /** `getRiskLabel`: the same cut-points as `getRiskColor`. */
  function RiskLabel(risk: int): (l: string)
    ensures l == "High Risk" <==> risk >= Risk.HighRisk
    ensures l == "Medium Risk" <==> 40 <= risk < Risk.HighRisk
    ensures l == "Low Risk" <==> risk < 40
  {
    if risk >= 70 then "High Risk" else if risk >= 40 then "Medium Risk" else "Low Risk"
  }

  /** The colour and the label of a risk always tell the same story. */
  lemma ColorAgreesWithLabel(risk: int)
    ensures RiskColor(risk) == Red <==> RiskLabel(risk) == "High Risk"
    ensures RiskColor(risk) == Yellow <==> RiskLabel(risk) == "Medium Risk"
    ensures RiskColor(risk) == Green <==> RiskLabel(risk) == "Low Risk"
  {
  }

  /** The dashboard labels an attempt "High Risk" exactly when the backend
      counts it among the high-risk attempts. */
  lemma HighRiskLabelMatchesCount(a: Risk.Attempt)
    ensures RiskLabel(Risk.RiskScore(a.violations, a.score)) == "High Risk" <==> Risk.IsHighRisk(a)
  {
  }

  /** The label of a computed risk, in terms of the violations and the score
      it was computed from. */
  lemma {:induction false} LabelOfRiskScore(v: nat, score: int)
    ensures RiskLabel(Risk.RiskScore(v, score)) == "High Risk" <==> v >= 4 || (v == 3 && score >= 90)
    ensures RiskLabel(Risk.RiskScore(v, score)) == "Medium Risk" <==> (v == 2 && score >= 90) || (v == 3 && score < 90)
    ensures RiskLabel(Risk.RiskScore(v, score)) == "Low Risk" <==> v <= 1 || (v == 2 && score < 90)
  {
    var r := Risk.RiskScore(v, score);
    if v <= 1 {
      assert r <= 35;
    } else if v == 2 {
      assert r == (if score >= 90 then 50 else 30);
    } else if v == 3 {
      assert r == (if score >= 90 then 85 else 65);
    } else {
      assert r >= 80;
    }
  }

  /** Badge colours ordered from best to worst. */
  function Rank(c: Band): nat {
    match c
    case Green => 0
    case Yellow => 1
    case Red => 2
  }

  /** The attempt score badge: green from 70, yellow from 50, red below. */
  function ScoreBadge(score: int): (c: Band)
    ensures c == Green <==> score >= 70
    ensures c == Yellow <==> 50 <= score < 70
    ensures c == Red <==> score < 50
  {
    if score >= 70 then Green else if score >= 50 then Yellow else Red
  }

  /** A higher score never gets a worse badge. */
  lemma ScoreBadgeMonotone(s1: int, s2: int)
    requires s1 <= s2
    ensures Rank(ScoreBadge(s2)) <= Rank(ScoreBadge(s1))
  {
  }

  /** The similarity badge of a flagged pair, for a similarity in hundredths
      of a percent: red from 90 %, yellow from 80 %, green below. */
  function SimilarityBadge(similarity: int): (c: Band)
    ensures c == Red <==> similarity >= 9000
    ensures c == Yellow <==> 8000 <= similarity < 9000
    ensures c == Green <==> similarity < 8000
  {
    if similarity >= 9000 then Red else if similarity >= 8000 then Yellow else Green
  }

  /** A higher similarity never gets a milder badge. */
  lemma SimilarityBadgeMonotone(s1: int, s2: int)
    requires s1 <= s2
    ensures Rank(SimilarityBadge(s1)) <= Rank(SimilarityBadge(s2))
  {
  }

  /** The dashboard's threshold input starts at 80 %, the detector's own
      default. */
  const DefaultThreshold: int := 80

  /** With the default threshold or any higher one, no reported pair is
      shown green. */
  lemma ReportedPairsNeverGreen(subs: seq<Plagiarism.Submission>, threshold: int, p: Plagiarism.SuspiciousPair)
    requires threshold >= DefaultThreshold * 100
    requires p in Plagiarism.DetectPlagiarism(subs, threshold)
    ensures SimilarityBadge(p.similarity) != Green
    ensures DefaultThreshold * 100 == Plagiarism.DefaultThreshold
  {
  }

  /** What pressing "Detect Plagiarism" does. */
  datatype DetectAction =
    | Alert(message: string)
    | RequestDetection(examId: string, threshold: int)

  /** The click handler: without a selected exam it alerts and sends no
      request; otherwise it asks for the selected exam at the chosen
      threshold. */
  function OnDetectClick(selectedExam: string, threshold: int): (a: DetectAction)
    ensures a.RequestDetection? <==> selectedExam != ""
    ensures a.RequestDetection? ==> a.examId == selectedExam && a.threshold == threshold
    ensures a.Alert? ==> a.message == "Please select an exam first"
  {
    if selectedExam == "" then Alert("Please select an exam first")
    else RequestDetection(selectedExam, threshold)
  }

  // ---------------------------------------------------------------------
  // The PDF report
  // ---------------------------------------------------------------------

  /** The maximum length of a name or title printed in the report. */
  const CellWidth: nat := 15

  /** `x?.substring(0, 15) || 'N/A'`: a missing or empty text prints as
      "N/A", anything else as its first 15 characters. */
  function Cell(text: Option<string>): (r: string)
    ensures |r| <= CellWidth
    ensures r == "N/A" <==> text == None || text == Some("") || text == Some("N/A")
    ensures text.Some? && text.value != "" ==> IsPrefix(r, text.value) && r != ""
    ensures text.Some? && |text.value| <= CellWidth ==> text.value == "" || r == text.value
    ensures text.Some? && |text.value| >= CellWidth ==> |r| == CellWidth
  {
    match text
    case None => "N/A"
    case Some(s) =>
      var cut := if |s| <= CellWidth then s else s[..CellWidth];
      if cut == "" then "N/A" else cut
  }

  /** One attempt as the report sees it. */
  datatype ReportAttempt = ReportAttempt(
    studentName: Option<string>,
    examTitle: Option<string>,
    score: int,
    violationCount: nat,
    riskScore: int)

  /** The page and the vertical position of the next text line. */
  datatype Cursor = Cursor(page: nat, y: int)

  /** One printed row of the attempts table. */
  datatype ReportRow = ReportRow(page: nat, y: int, name: string, exam: string, score: int, violations: nat, risk: string)

  /** The heading line of the table sits at 115; the first row 7 below. */
  const FirstRowY: int := 122
  /** The line spacing of the table. */
  const LineStep: int := 7
  /** A row that would start below this position goes to a new page. */
  const PageBottom: int := 270
  /** Where rows start on a continuation page. */
  const PageTop: int := 20

  /** Start a new page if the cursor has gone past the bottom. */
  function Place(c: Cursor): (r: Cursor)
    ensures r.y <= PageBottom
    ensures c.y <= PageBottom ==> r == c
    ensures c.y > PageBottom ==> r.page == c.page + 1 && r.y == PageTop
  {
    if c.y > PageBottom then Cursor(c.page + 1, PageTop) else c
  }

  function Advance(c: Cursor): Cursor {
    Cursor(c.page, c.y + LineStep)
  }

  /** The body of the `attempts.forEach` loop, from a cursor onwards. */
  function Layout(attempts: seq<ReportAttempt>, c: Cursor): (rows: seq<ReportRow>)
    ensures |rows| == |attempts|
    ensures forall i :: 0 <= i < |attempts| ==>
      rows[i].name == Cell(attempts[i].studentName) && rows[i].exam == Cell(attempts[i].examTitle)
      && rows[i].score == attempts[i].score && rows[i].violations == attempts[i].violationCount
      && rows[i].risk == RiskLabel(attempts[i].riskScore)
    decreases |attempts|
  {
    if |attempts| == 0 then []
    else
      var at := Place(c);
      var a := attempts[0];
      [ReportRow(at.page, at.y, Cell(a.studentName), Cell(a.examTitle), a.score, a.violationCount, RiskLabel(a.riskScore))]
        + Layout(attempts[1..], Advance(at))
  }

  /** The attempts table of `exportPDF`, starting on the first page. */
  function ReportTable(attempts: seq<ReportAttempt>): (rows: seq<ReportRow>)
    ensures |rows| == |attempts|
  {
    Layout(attempts, Cursor(1, FirstRowY))
  }

  /** The number of rows that fit on the first page, below the overview. */
  const FirstPageRows: nat := 22
  /** The number of rows that fit on each continuation page. */
  const PageRows: nat := 36

  /** Where the i-th row of the table lands, in closed form. */
  function Slot(i: nat): (c: Cursor)
    ensures PageTop <= c.y <= PageBottom
    ensures c.page >= 1
  {
    if i < FirstPageRows then Cursor(1, FirstRowY + LineStep * i)
    else Cursor(2 + (i - FirstPageRows) / PageRows, PageTop + LineStep * ((i - FirstPageRows) % PageRows))
  }

  /** The cursor just before the i-th row is placed. */
  function Before(i: nat): Cursor {
    if i == 0 then Cursor(1, FirstRowY) else Advance(Slot(i - 1))
  }

  lemma PlaceBefore(i: nat)
    ensures Place(Before(i)) == Slot(i)
  {
    if 0 < i < FirstPageRows {
    } else if i == FirstPageRows {
    } else if i > FirstPageRows {
      var k := i - 1 - FirstPageRows;
      var q, r := k / PageRows, k % PageRows;
      assert k == PageRows * q + r;
      if r < PageRows - 1 {
        assert i - FirstPageRows == PageRows * q + (r + 1);
        assert (i - FirstPageRows) / PageRows == q;
        assert (i - FirstPageRows) % PageRows == r + 1;
      } else {
        assert i - FirstPageRows == PageRows * (q + 1);
        assert (i - FirstPageRows) / PageRows == q + 1;
        assert (i - FirstPageRows) % PageRows == 0;
      }
    }
  }

  lemma {:induction false} LayoutFromSlot(attempts: seq<ReportAttempt>, j: nat)
    ensures forall i :: 0 <= i < |attempts| ==>
      Layout(attempts, Before(j))[i].page == Slot(j + i).page && Layout(attempts, Before(j))[i].y == Slot(j + i).y
    decreases |attempts|
  {
    if |attempts| > 0 {
      PlaceBefore(j);
      assert Advance(Place(Before(j))) == Before(j + 1);
      LayoutFromSlot(attempts[1..], j + 1);
      var rows := Layout(attempts, Before(j));
      var rest := Layout(attempts[1..], Before(j + 1));
      assert rows[1..] == rest;
      forall i | 0 <= i < |attempts|
        ensures rows[i].page == Slot(j + i).page && rows[i].y == Slot(j + i).y
      {
        if i > 0 {
          assert rows[i] == rest[i - 1];
          assert j + 1 + (i - 1) == j + i;
        }
      }
    }
  }

  /** The report puts the first 22 rows on page 1 from y = 122 and then 36
      rows on each following page from y = 20, every row 7 below the last;
      so every row lies between 20 and 270. */
  lemma ReportLayout(attempts: seq<ReportAttempt>)
    ensures forall i :: 0 <= i < |attempts| ==>
      ReportTable(attempts)[i].page == Slot(i).page && ReportTable(attempts)[i].y == Slot(i).y
    ensures forall i :: 0 <= i < |attempts| ==> PageTop <= ReportTable(attempts)[i].y <= PageBottom
  {
    LayoutFromSlot(attempts, 0);
    assert ReportTable(attempts) == Layout(attempts, Before(0));
    forall i | 0 <= i < |attempts|
      ensures ReportTable(attempts)[i].page == Slot(i).page && ReportTable(attempts)[i].y == Slot(i).y
    {
      assert Slot(0 + i) == Slot(i);
    }
  }
}
