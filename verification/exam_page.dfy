/** The client state rules of frontend/src/pages/ExamPage.jsx: the clock
    display, question navigation, the countdown with its auto-submit, the
    face-count check with its 3-second debounce, and the score computed
    locally when the submission request fails. */
module ExamPage {
  import opened Common

  // ---------------------------------------------------------------------
  // The clock display
  // ---------------------------------------------------------------------

  /** `secs.toString().padStart(2, '0')` for a value below 60. */
  function Pad2(n: nat): (r: string)
    requires n < 60
    ensures |r| == 2 && IsDigit(r[0]) && IsDigit(r[1])
    ensures DigitsValue(r) == n
  {
    if n < 10 then
      var r := "0" + NatToString(n);
      assert r[..1] == "0";
      assert "0"[..0] == [];
      r
    else
      var r := NatToString(n);
      assert r == NatToString(n / 10) + [DigitChar(n % 10)];
      NatToStringRoundTrip(n);
      r
  }

  /** `formatTime`: whole minutes without padding, a colon, and the seconds
      on two digits. Reading the minutes and the seconds back gives the
      input. */
  function FormatTime(seconds: nat): (r: string)
    ensures |r| >= 4 && r[|r| - 3] == ':'
    ensures forall i :: 0 <= i < |r| && i != |r| - 3 ==> IsDigit(r[i])
    ensures DigitsValue(r[|r| - 2..]) < 60
    ensures DigitsValue(r[..|r| - 3]) * 60 + DigitsValue(r[|r| - 2..]) == seconds
    ensures |r| == 4 || r[0] != '0'
  {
    var mins := NatToString(seconds / 60);
    var secs := Pad2(seconds % 60);
    ClockLayout(mins, secs);
    NatToStringRoundTrip(seconds / 60);
    mins + ":" + secs
  }

  /** Where the parts of `mins:secs` sit in the joined text. */
  lemma ClockLayout(mins: string, secs: string)
    requires |mins| > 0 && forall i :: 0 <= i < |mins| ==> IsDigit(mins[i])
    requires |secs| == 2 && IsDigit(secs[0]) && IsDigit(secs[1])
    ensures var r := mins + ":" + secs;
      && |r| >= 4 && r[|r| - 3] == ':'
      && (forall i :: 0 <= i < |r| && i != |r| - 3 ==> IsDigit(r[i]))
      && r[..|r| - 3] == mins && r[|r| - 2..] == secs && r[0] == mins[0]
  {
    var r := mins + ":" + secs;
    assert r[..|r| - 3] == mins;
    assert r[|r| - 2..] == secs;
  }

  /** Reading a clock display back: minutes before the colon, seconds
      after it. */
  function ParseTime(s: string): (r: Option<nat>)
    ensures r.Some? ==> |s| >= 4 && s[|s| - 3] == ':'
  {
    if |s| >= 4 && s[|s| - 3] == ':'
       && (forall i :: 0 <= i < |s| && i != |s| - 3 ==> IsDigit(s[i]))
    then
      assert forall i :: 0 <= i < |s| - 3 ==> s[..|s| - 3][i] == s[i];
      var tail := s[|s| - 2..];
      assert tail[0] == s[|s| - 2] && tail[1] == s[|s| - 1];
      Some(DigitsValue(s[..|s| - 3]) * 60 + DigitsValue(s[|s| - 2..]))
    else None
  }

  lemma FormatTimeRoundTrip(seconds: nat)
    ensures ParseTime(FormatTime(seconds)) == Some(seconds)
  {
  }

  // ---------------------------------------------------------------------
  // Navigation
  // ---------------------------------------------------------------------

  /** `goToNextQuestion`. */
  function Next(index: int, count: nat): (r: int)
    ensures r == index || r == index + 1
    ensures r == index + 1 <==> index < count - 1
  {
    if index < count - 1 then index + 1 else index
  }

  /** `goToPreviousQuestion`. */
  function Previous(index: int): (r: int)
    ensures r == index || r == index - 1
    ensures r == index - 1 <==> index > 0
  {
    if index > 0 then index - 1 else index
  }

  /** Next and previous keep the index on a question. */
  lemma NavigationStaysInRange(index: int, count: nat)
    requires 0 <= index < count
    ensures 0 <= Next(index, count) < count
    ensures 0 <= Previous(index) < count
  {
  }

  /** Previous undoes a Next that moved, and Next undoes a Previous that
      moved. */
  lemma NavigationInverse(index: int, count: nat)
    requires 0 <= index < count
    ensures Next(index, count) != index ==> Previous(Next(index, count)) == index
    ensures Previous(index) != index ==> Next(Previous(index), count) == index
  {
  }

  // ---------------------------------------------------------------------
  // The countdown
  // ---------------------------------------------------------------------

  datatype Clock = Clock(timeLeft: nat, submitted: bool, examLoaded: bool)

  /** One run of the timer effect: while time is left and the exam is not
      submitted, one second passes; at zero with a loaded exam it submits
      (and `submitToBackend` marks the exam submitted first). */
  function Tick(c: Clock): (r: Clock)
    ensures c.timeLeft > 0 && !c.submitted ==> r == c.(timeLeft := c.timeLeft - 1)
    ensures c.timeLeft == 0 && !c.submitted && c.examLoaded ==> r == c.(submitted := true)
    ensures c.submitted || (c.timeLeft == 0 && !c.examLoaded) ==> r == c
    ensures r.timeLeft <= c.timeLeft && r.examLoaded == c.examLoaded
  {
    if c.timeLeft > 0 && !c.submitted then c.(timeLeft := c.timeLeft - 1)
    else if c.timeLeft == 0 && !c.submitted && c.examLoaded then c.(submitted := true)
    else c
  }

  function Ticks(c: Clock, n: nat): Clock
    decreases n
  {
    if n == 0 then c else Ticks(Tick(c), n - 1)
  }

  /** A loaded exam with `t` seconds left counts down to zero in `t` ticks
      and is submitted on the next one. */
  lemma {:induction false} CountdownTicks(t: nat, n: nat)
    requires n <= t
    ensures Ticks(Clock(t, false, true), n) == Clock(t - n, false, true)
  {
    if n > 0 {
      assert Tick(Clock(t, false, true)) == Clock(t - 1, false, true);
      CountdownTicks(t - 1, n - 1);
    }
  }

  lemma CountdownSubmits(t: nat)
    ensures Ticks(Clock(t, false, true), t) == Clock(0, false, true)
    ensures Tick(Ticks(Clock(t, false, true), t)).submitted
  {
    CountdownTicks(t, t);
  }

  /** Once submitted, the clock stands still. */
  lemma {:induction false} SubmittedClockStands(c: Clock, n: nat)
    requires c.submitted
    ensures Ticks(c, n) == c
  {
    if n > 0 {
      SubmittedClockStands(Tick(c), n - 1);
    }
  }

  // ---------------------------------------------------------------------
  // Face-count check
  // ---------------------------------------------------------------------

  datatype ViolationKind = NoFace | MultipleFaces

  /** The proctoring state kept by the page. */
  datatype Proctor = Proctor(
    submitted: bool,
    proctoringEnabled: bool,
    lastViolationTime: int,
    violationCount: nat,
    warning: Option<string>,
    log: seq<(ViolationKind, int)>)

  /** The page starts with no violation yet, stamped at time 0. */
  const InitialProctor: Proctor := Proctor(false, false, 0, 0, None, [])

  /** Violations closer together than this are ignored. */
  const DebounceMs: int := 3000

  /** The face count that gives rise to a violation: none, or more than
      one; exactly one face is fine. */
  function Classify(faces: nat): (r: Option<ViolationKind>)
    ensures r == None <==> faces == 1
    ensures r == Some(NoFace) <==> faces == 0
    ensures r == Some(MultipleFaces) <==> faces > 1
  {
    if faces == 0 then Some(NoFace) else if faces > 1 then Some(MultipleFaces) else None
  }

  function WarningText(kind: ViolationKind, faces: nat): string {
    match kind
    case NoFace => "No face detected! Please stay in front of the camera."
    case MultipleFaces => NatToString(faces) + " faces detected! Only one person should be in front of the camera."
  }

  /** `handleViolation`: stamps the time, adds exactly one violation, shows
      the warning and reports the violation. */
  function HandleViolation(p: Proctor, kind: ViolationKind, message: string, now: int): (r: Proctor)
    ensures r.violationCount == p.violationCount + 1
    ensures r.lastViolationTime == now
    ensures r.warning == Some(message)
    ensures r.log == p.log + [(kind, now)]
    ensures r.submitted == p.submitted && r.proctoringEnabled == p.proctoringEnabled
  {
    p.(lastViolationTime := now, violationCount := p.violationCount + 1,
       warning := Some(message), log := p.log + [(kind, now)])
  }

  /** `handleFaceDetectionResults` for one detector result at time `now`. */
  function OnFaces(p: Proctor, faces: nat, now: int): (r: Proctor)
    ensures r == p || r.violationCount == p.violationCount + 1
    ensures r != p <==> (!p.submitted && p.proctoringEnabled
      && now - p.lastViolationTime >= DebounceMs && faces != 1)
    ensures r != p ==> r.log == p.log + [(Classify(faces).value, now)] && r.lastViolationTime == now
    ensures r != p ==> r.warning == Some(WarningText(Classify(faces).value, faces))
    ensures r.submitted == p.submitted && r.proctoringEnabled == p.proctoringEnabled
  {
    if p.submitted || !p.proctoringEnabled then p
    else if now - p.lastViolationTime < DebounceMs then p
    else match Classify(faces)
      case Some(kind) => HandleViolation(p, kind, WarningText(kind, faces), now)
      case None => p
  }

  /** A stream of detector results: a face count and a timestamp each. */
  function Run(p: Proctor, events: seq<(nat, int)>): Proctor
    decreases |events|
  {
    if |events| == 0 then p else Run(OnFaces(p, events[0].0, events[0].1), events[1..])
  }

  /** The logged violations are at least 3 s apart and the last one is the
      stamped time. */
  predicate Spaced(p: Proctor) {
    (forall i :: 0 < i < |p.log| ==> p.log[i].1 - p.log[i - 1].1 >= DebounceMs)
    && (|p.log| > 0 ==> p.log[|p.log| - 1].1 == p.lastViolationTime)
    && p.violationCount == |p.log|
  }

  /** However the detector reports, no two logged violations lie within 3 s
      of each other, and the count is the number logged. */
  lemma {:induction false} RunKeepsSpaced(p: Proctor, events: seq<(nat, int)>)
    requires Spaced(p)
    ensures Spaced(Run(p, events))
    decreases |events|
  {
    if |events| > 0 {
      var q := OnFaces(p, events[0].0, events[0].1);
      OnFacesKeepsSpaced(p, events[0].0, events[0].1);
      RunKeepsSpaced(q, events[1..]);
    }
  }

  lemma OnFacesKeepsSpaced(p: Proctor, faces: nat, now: int)
    requires Spaced(p)
    ensures Spaced(OnFaces(p, faces, now))
  {
    if !p.submitted && p.proctoringEnabled && now - p.lastViolationTime >= DebounceMs && Classify(faces).Some? {
      var kind := Classify(faces).value;
      ViolationKeepsSpaced(p, kind, WarningText(kind, faces), now);
    }
  }

  // A violation at least 3 s after the last one keeps the log spaced.
  lemma ViolationKeepsSpaced(p: Proctor, kind: ViolationKind, message: string, now: int)
    requires Spaced(p) && now - p.lastViolationTime >= DebounceMs
    ensures Spaced(HandleViolation(p, kind, message, now))
  {
  }

  lemma InitialSpaced()
    ensures Spaced(InitialProctor)
  {
  }

  /** Exactly one face never raises a violation. */
  lemma OneFaceIsFine(p: Proctor, now: int)
    ensures OnFaces(p, 1, now) == p
  {
  }

  // ---------------------------------------------------------------------
  // Local score
  // ---------------------------------------------------------------------

  datatype Question = Question(id: string, correctAnswer: string)

  /** The recorded answer to `q` equals its correct answer. */
  predicate Correct(q: Question, answers: map<string, string>) {
    q.id in answers && answers[q.id] == q.correctAnswer
  }

  /** The questions whose recorded answer equals the correct one. */
  function CountCorrect(questions: seq<Question>, answers: map<string, string>): (n: nat)
    ensures n <= |questions|
  {
    if |questions| == 0 then 0
    else
      CountCorrect(questions[..|questions| - 1], answers)
        + (if Correct(questions[|questions| - 1], answers) then 1 else 0)
  }

  /** The count is the number of positions answered correctly. */
  lemma CountCorrectCountsPositions(questions: seq<Question>, answers: map<string, string>)
    ensures CountCorrect(questions, answers) == |set i | 0 <= i < |questions| && Correct(questions[i], answers)|
  {
    CorrectPrefixCount(questions, answers, |questions|);
    assert questions[..|questions|] == questions;
  }

  lemma {:induction false} CorrectPrefixCount(questions: seq<Question>, answers: map<string, string>, m: nat)
    requires m <= |questions|
    ensures CountCorrect(questions[..m], answers) == |set i | 0 <= i < m && Correct(questions[i], answers)|
  {
    if m > 0 {
      CorrectPrefixCount(questions, answers, m - 1);
      assert questions[..m][..m - 1] == questions[..m - 1];
      CorrectPositionsStep(questions, answers, m);
    }
  }

  lemma CorrectPositionsStep(questions: seq<Question>, answers: map<string, string>, m: nat)
    requires 0 < m <= |questions|
    ensures |set i | 0 <= i < m && Correct(questions[i], answers)|
      == |set i | 0 <= i < m - 1 && Correct(questions[i], answers)| + (if Correct(questions[m - 1], answers) then 1 else 0)
  {
    var before := set i | 0 <= i < m - 1 && Correct(questions[i], answers);
    if Correct(questions[m - 1], answers) {
      assert (set i | 0 <= i < m && Correct(questions[i], answers)) == before + {m - 1};
    } else {
      assert (set i | 0 <= i < m && Correct(questions[i], answers)) == before;
    }
  }


  /** `Math.round((correct / questions.length) * 100)` when the submission
      request fails; there is no number for an exam without questions. */
  function LocalScore(questions: seq<Question>, answers: map<string, string>): (r: Option<int>)
    ensures r.None? <==> |questions| == 0
    ensures r.Some? ==> 0 <= r.value <= 100
    ensures r.Some? && CountCorrect(questions, answers) == |questions| ==> r.value == 100
    ensures r.Some? && CountCorrect(questions, answers) == 0 ==> r.value == 0
    ensures r.Some? ==>
      2 * (100 * CountCorrect(questions, answers)) - |questions| < 2 * (|questions| * r.value)
        <= 2 * (100 * CountCorrect(questions, answers)) + |questions|
  {
    if |questions| == 0 then None
    else
      var c := CountCorrect(questions, answers);
      PercentBounds(c, |questions|);
      Some(RoundHalfUp(100 * c, |questions|))
  }

  lemma PercentBounds(c: nat, n: nat)
    requires 0 < n && c <= n
    ensures 0 <= RoundHalfUp(100 * c, n) <= 100
    ensures c == n ==> RoundHalfUp(100 * c, n) == 100
    ensures c == 0 ==> RoundHalfUp(100 * c, n) == 0
  {
    RoundHalfUpBetween(100 * c, n, 0, 100);
    if c == n {
      RoundHalfUpExact(100, n);
    }
    if c == 0 {
      RoundHalfUpExact(0, n);
    }
  }

  /** Every correct answer counts: answering all correctly scores 100. */
  lemma {:induction false} AllAnsweredScoresFull(questions: seq<Question>, answers: map<string, string>)
    requires |questions| > 0
    requires forall i :: 0 <= i < |questions| ==>
      questions[i].id in answers && answers[questions[i].id] == questions[i].correctAnswer
    ensures LocalScore(questions, answers) == Some(100)
  {
    AllCorrectCounted(questions, answers);
  }

  lemma {:induction false} AllCorrectCounted(questions: seq<Question>, answers: map<string, string>)
    requires forall i :: 0 <= i < |questions| ==>
      questions[i].id in answers && answers[questions[i].id] == questions[i].correctAnswer
    ensures CountCorrect(questions, answers) == |questions|
  {
    if |questions| > 0 {
      AllCorrectCounted(questions[..|questions| - 1], answers);
    }
  }
}
