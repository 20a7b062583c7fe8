/** The arithmetic of backend/controllers/adminController.js: the cheating
    risk score, the count of high-risk attempts, and the average, highest and
    lowest score of a set of attempts. */
module Risk {
  import opened Common

  /** The risk at and above which an attempt counts as high risk. */
  const HighRisk: nat := 70

  /** `calculateRiskScore(violationCount, score)`: 15 per violation up to 60,
      20 more for a score of 90 or above with any violation, 20 more from
      the third violation on, capped at 100. */
  function RiskScore(violations: nat, score: int): (r: nat)
    ensures r <= 100
    ensures violations == 0 ==> r == 0
    ensures r >= HighRisk <==> violations >= 4 || (violations == 3 && score >= 90)
  {
    var base := if violations * 15 < 60 then violations * 15 else 60;
    var withScore := base + (if violations > 0 && score >= 90 then 20 else 0);
    var total := withScore + (if violations >= 3 then 20 else 0);
    if total < 100 then total else 100
  }

  /** More violations never lower the risk. */
  lemma RiskMonotone(v1: nat, v2: nat, score: int)
    requires v1 <= v2
    ensures RiskScore(v1, score) <= RiskScore(v2, score)
  {
  }

  /** A higher score never lowers the risk. */
  lemma RiskMonotoneInScore(v: nat, s1: int, s2: int)
    requires s1 <= s2
    ensures RiskScore(v, s1) <= RiskScore(v, s2)
  {
  }

  /** One answer record with the number of violations logged for its student
      in its exam. */
  datatype Attempt = Attempt(userId: string, examId: string, score: int, violations: nat)

  predicate IsHighRisk(a: Attempt) {
    RiskScore(a.violations, a.score) >= HighRisk
  }

  /** `getHighRiskStudentsCount`: the answer records whose risk reaches 70. */
  function HighRiskCount(attempts: seq<Attempt>): (n: nat)
    ensures n <= |attempts|
  {
    if |attempts| == 0 then 0
    else HighRiskCount(attempts[..|attempts| - 1]) + (if IsHighRisk(attempts[|attempts| - 1]) then 1 else 0)
  }

  /** Counting over two lists of attempts adds up. */
  lemma {:induction false} HighRiskCountAppend(a: seq<Attempt>, b: seq<Attempt>)
    ensures HighRiskCount(a + b) == HighRiskCount(a) + HighRiskCount(b)
    decreases |b|
  {
    if |b| == 0 {
      assert a + b == a;
    } else {
      var b' := b[..|b| - 1];
      HighRiskCountAppend(a, b');
      assert (a + b)[..|a + b| - 1] == a + b';
    }
  }

  /** The count is of attempts, not of students: a student with two high-risk
      attempts is counted twice. */
  lemma HighRiskCountsAttempts(a: Attempt)
    requires IsHighRisk(a)
    ensures HighRiskCount([a, a]) == 2
  {
    assert [a, a][..1] == [a];
    assert [a][..0] == [];
  }

  /** The count equals the size of the set of high-risk positions. */
  lemma HighRiskCountIsCardinality(attempts: seq<Attempt>)
    ensures HighRiskCount(attempts) == |set i | 0 <= i < |attempts| && IsHighRisk(attempts[i])|
  {
    HighRiskPrefixCount(attempts, |attempts|);
    assert attempts[..|attempts|] == attempts;
  }

  lemma {:induction false} HighRiskPrefixCount(attempts: seq<Attempt>, m: nat)
    requires m <= |attempts|
    ensures HighRiskCount(attempts[..m]) == |set i | 0 <= i < m && IsHighRisk(attempts[i])|
  {
    if m > 0 {
      HighRiskPrefixCount(attempts, m - 1);
      assert attempts[..m][..m - 1] == attempts[..m - 1];
      HighRiskPositionsStep(attempts, m);
    }
  }

  lemma HighRiskPositionsStep(attempts: seq<Attempt>, m: nat)
    requires 0 < m <= |attempts|
    ensures |set i | 0 <= i < m && IsHighRisk(attempts[i])|
      == |set i | 0 <= i < m - 1 && IsHighRisk(attempts[i])| + (if IsHighRisk(attempts[m - 1]) then 1 else 0)
  {
    var before := set i | 0 <= i < m - 1 && IsHighRisk(attempts[i]);
    if IsHighRisk(attempts[m - 1]) {
      assert (set i | 0 <= i < m && IsHighRisk(attempts[i])) == before + {m - 1};
    } else {
      assert (set i | 0 <= i < m && IsHighRisk(attempts[i])) == before;
    }
  }


  function Sum(xs: seq<int>): int {
    if |xs| == 0 then 0 else Sum(xs[..|xs| - 1]) + xs[|xs| - 1]
  }

  /** `Math.max(...scores)`, or 0 for no scores. */
  function Highest(xs: seq<int>): (r: int)
    ensures |xs| == 0 ==> r == 0
    ensures |xs| > 0 ==> (forall i :: 0 <= i < |xs| ==> xs[i] <= r) && exists i :: 0 <= i < |xs| && xs[i] == r
  {
    if |xs| == 0 then 0
    else if |xs| == 1 then xs[0]
    else
      var m := Highest(xs[..|xs| - 1]);
      assert forall i :: 0 <= i < |xs| - 1 ==> xs[..|xs| - 1][i] == xs[i];
      if xs[|xs| - 1] > m then xs[|xs| - 1] else m
  }

  /** `Math.min(...scores)`, or 0 for no scores. */
  function Lowest(xs: seq<int>): (r: int)
    ensures |xs| == 0 ==> r == 0
    ensures |xs| > 0 ==> (forall i :: 0 <= i < |xs| ==> r <= xs[i]) && exists i :: 0 <= i < |xs| && xs[i] == r
  {
    if |xs| == 0 then 0
    else if |xs| == 1 then xs[0]
    else
      var m := Lowest(xs[..|xs| - 1]);
      assert forall i :: 0 <= i < |xs| - 1 ==> xs[..|xs| - 1][i] == xs[i];
      if xs[|xs| - 1] < m then xs[|xs| - 1] else m
  }

  lemma {:induction false} SumBetween(xs: seq<int>, lo: int, hi: int)
    requires forall i :: 0 <= i < |xs| ==> lo <= xs[i] <= hi
    ensures |xs| * lo <= Sum(xs) <= |xs| * hi
  {
    if |xs| > 0 {
      SumBetween(xs[..|xs| - 1], lo, hi);
    }
  }

  /** `Math.round(sum / count)`, or 0 for no scores. */
  function Average(xs: seq<int>): (r: int)
    ensures |xs| == 0 ==> r == 0
    ensures |xs| > 0 ==> Lowest(xs) <= r <= Highest(xs)
    ensures |xs| > 0 ==> 2 * Sum(xs) - |xs| < 2 * (|xs| * r) <= 2 * Sum(xs) + |xs|
  {
    if |xs| == 0 then 0
    else
      SumBetween(xs, Lowest(xs), Highest(xs));
      RoundHalfUpBetween(Sum(xs), |xs|, Lowest(xs), Highest(xs));
      RoundHalfUp(Sum(xs), |xs|)
  }

  lemma {:induction false} SumConstant(xs: seq<int>, c: int)
    requires forall i :: 0 <= i < |xs| ==> xs[i] == c
    ensures Sum(xs) == |xs| * c
  {
    if |xs| > 0 {
      SumConstant(xs[..|xs| - 1], c);
    }
  }

  /** Equal scores average to that score. */
  lemma AverageOfEqualScores(xs: seq<int>, c: int)
    requires |xs| > 0
    requires forall i :: 0 <= i < |xs| ==> xs[i] == c
    ensures Average(xs) == c
  {
    SumConstant(xs, c);
    RoundHalfUpExact(c, |xs|);
  }

  datatype ScoreStats = ScoreStats(totalAttempts: nat, averageScore: int, highestScore: int, lowestScore: int)

  function Scores(attempts: seq<Attempt>): (r: seq<int>)
    ensures |r| == |attempts|
    ensures forall i :: 0 <= i < |attempts| ==> r[i] == attempts[i].score
  {
    seq(|attempts|, i requires 0 <= i < |attempts| => attempts[i].score)
  }

  /** The score part of `getExamStats`. */
  function ExamScoreStats(attempts: seq<Attempt>): (r: ScoreStats)
    ensures r.totalAttempts == |attempts|
    ensures |attempts| == 0 ==> r.averageScore == 0 && r.highestScore == 0 && r.lowestScore == 0
    ensures |attempts| > 0 ==> r.lowestScore <= r.averageScore <= r.highestScore
    ensures forall i :: 0 <= i < |attempts| ==> r.lowestScore <= attempts[i].score <= r.highestScore
    ensures |attempts| > 0 ==> exists i :: 0 <= i < |attempts| && attempts[i].score == r.highestScore
    ensures |attempts| > 0 ==> exists i :: 0 <= i < |attempts| && attempts[i].score == r.lowestScore
    ensures |attempts| > 0 ==>
      2 * Sum(Scores(attempts)) - |attempts| < 2 * (|attempts| * r.averageScore) <= 2 * Sum(Scores(attempts)) + |attempts|
  {
    var xs := Scores(attempts);
    ScoreStats(|attempts|, Average(xs), Highest(xs), Lowest(xs))
  }
}
