/** The pairwise plagiarism detector of backend/utils/plagiarismDetector.js:
    `detectPlagiarism` (every pair i < j, one comparison per ordered
    "userId-userId" key, threshold filter, sort by similarity, highest first)
    and `getPlagiarismStats`. Similarities and thresholds are in hundredths
    of a percent. */
module Plagiarism {
  import opened Common
  import opened Similarity

  datatype Submission = Submission(id: string, userId: string, userName: string, code: string)

  /** What a flagged pair reports about each side. */
  datatype SubmissionInfo = SubmissionInfo(id: string, userId: string, userName: string, code: string)

  datatype SuspiciousPair = SuspiciousPair(
    submission1: SubmissionInfo,
    submission2: SubmissionInfo,
    similarity: nat,
    threshold: int,
    isFlagged: bool)

  /** The threshold used when the caller gives none: 80%. */
  const DefaultThreshold: int := 8000

  /** `userName || userId`: an empty name falls back to the user id. */
  function Info(s: Submission): (r: SubmissionInfo)
    ensures r.id == s.id && r.userId == s.userId && r.code == s.code
    ensures r.userName == (if s.userName == "" then s.userId else s.userName)
  {
    SubmissionInfo(s.id, s.userId, if s.userName == "" then s.userId else s.userName, s.code)
  }

  /** The `processed` key of a pair: ordered, so (u, v) and (v, u) differ. */
  function PairKey(a: Submission, b: Submission): string {
    a.userId + "-" + b.userId
  }

  function KeyOf(p: SuspiciousPair): string {
    p.submission1.userId + "-" + p.submission2.userId
  }

  /** Index pairs (i, j), j from `j0` to `n - 1`. */
  function Row(i: nat, j0: nat, n: nat): (r: seq<(nat, nat)>)
    ensures |r| == if j0 < n then n - j0 else 0
    ensures forall k :: 0 <= k < |r| ==> r[k] == (i, j0 + k)
    decreases n - j0
  {
    if j0 >= n then [] else [(i, j0)] + Row(i, j0 + 1, n)
  }

  /** The index pairs the nested loops visit from row `i` on, in order. */
  function PairsFrom(i: nat, n: nat): (r: seq<(nat, nat)>)
    ensures forall k :: 0 <= k < |r| ==> i <= r[k].0 < r[k].1 < n
    decreases n - i
  {
    if i >= n then [] else Row(i, i + 1, n) + PairsFrom(i + 1, n)
  }

  /** Every pair i < j of `n` submissions, row by row. */
  function AllPairs(n: nat): seq<(nat, nat)> {
    PairsFrom(0, n)
  }

  lemma {:induction false} PairsFromCount(i: nat, n: nat)
    requires i <= n
    ensures 2 * |PairsFrom(i, n)| == (n - i) * (n - i - 1)
    decreases n - i
  {
    if i < n {
      PairsFromCount(i + 1, n);
    }
  }

  /** The loops compare n(n-1)/2 pairs. */
  lemma AllPairsCount(n: nat)
    ensures |AllPairs(n)| == n * (n - 1) / 2
  {
    PairsFromCount(0, n);
  }

  lemma {:induction false} PairsFromComplete(i: nat, n: nat, p: nat, q: nat)
    requires i <= p < q < n
    ensures (p, q) in PairsFrom(i, n)
    decreases n - i
  {
    if p == i {
      assert Row(i, i + 1, n)[q - i - 1] == (p, q);
    } else {
      PairsFromComplete(i + 1, n, p, q);
    }
  }

  /** Every pair i < j is compared. */
  lemma AllPairsComplete(n: nat, p: nat, q: nat)
    requires p < q < n
    ensures (p, q) in AllPairs(n)
  {
    PairsFromComplete(0, n, p, q);
  }

  predicate ValidPairs(ps: seq<(nat, nat)>, n: nat) {
    forall k :: 0 <= k < |ps| ==> ps[k].0 < ps[k].1 < n
  }

  function KeyAt(subs: seq<Submission>, pr: (nat, nat)): string
    requires pr.0 < |subs| && pr.1 < |subs|
  {
    PairKey(subs[pr.0], subs[pr.1])
  }

  /** `compareCodes` on the normalised code of the two submissions. */
  function SimilarityAt(subs: seq<Submission>, pr: (nat, nat)): nat
    requires pr.0 < |subs| && pr.1 < |subs|
  {
    CompareCodes(subs[pr.0].code, subs[pr.1].code, true)
  }

  function Flag(subs: seq<Submission>, pr: (nat, nat), threshold: int): (r: SuspiciousPair)
    requires pr.0 < |subs| && pr.1 < |subs|
    ensures KeyOf(r) == KeyAt(subs, pr)
  {
    SuspiciousPair(Info(subs[pr.0]), Info(subs[pr.1]), SimilarityAt(subs, pr), threshold, true)
  }

  predicate KeysDistinct(r: seq<SuspiciousPair>) {
    forall x, y :: 0 <= x < y < |r| ==> KeyOf(r[x]) != KeyOf(r[y])
  }

  /** What the loops would report for every pair i < j, in loop order,
      before the key and threshold filters. */
  function Candidates(subs: seq<Submission>, threshold: int): (r: seq<SuspiciousPair>)
    ensures |r| == |AllPairs(|subs|)|
    ensures forall k :: 0 <= k < |r| ==> r[k] == Flag(subs, AllPairs(|subs|)[k], threshold)
  {
    var ps := AllPairs(|subs|);
    seq(|ps|, k requires 0 <= k < |ps| => Flag(subs, ps[k], threshold))
  }

  /** The body of the nested loops over the candidates `cs`: a pair whose key
      was already processed is skipped; otherwise its key is recorded and the
      pair is kept when its similarity reaches the threshold. */
  function Scan(cs: seq<SuspiciousPair>, processed: set<string>, threshold: int): (r: seq<SuspiciousPair>)
    ensures |r| <= |cs|
    ensures forall p :: p in r ==> p in cs && p.similarity >= threshold
  {
    if |cs| == 0 then []
    else
      var key := KeyOf(cs[0]);
      if key in processed then Scan(cs[1..], processed, threshold)
      else if cs[0].similarity >= threshold then [cs[0]] + Scan(cs[1..], processed + {key}, threshold)
      else Scan(cs[1..], processed + {key}, threshold)
  }

  /** No reported key was processed beforehand, and none is reported twice. */
  lemma {:induction false} ScanSound(cs: seq<SuspiciousPair>, processed: set<string>, threshold: int)
    ensures forall p :: p in Scan(cs, processed, threshold) ==> KeyOf(p) !in processed
    ensures KeysDistinct(Scan(cs, processed, threshold))
  {
    if |cs| > 0 {
      var key := KeyOf(cs[0]);
      var processed' := if key in processed then processed else processed + {key};
      var rest := Scan(cs[1..], processed', threshold);
      ScanSound(cs[1..], processed', threshold);
      if key !in processed && cs[0].similarity >= threshold {
        var r := [cs[0]] + rest;
        assert forall x :: 1 <= x < |r| ==> r[x] == rest[x - 1] && r[x] in rest;
      }
    }
  }

  /** The soundness half of the deduplication: every kept pair is the first
      candidate with its key, since a key is recorded before the threshold
      test, so a later pair never stands in for an earlier one that fell
      below the threshold. */
  lemma {:induction false} ScanFirst(cs: seq<SuspiciousPair>, processed: set<string>, threshold: int)
    ensures forall p :: p in Scan(cs, processed, threshold) ==>
      exists k :: 0 <= k < |cs| && cs[k] == p && forall k' :: 0 <= k' < k ==> KeyOf(cs[k']) != KeyOf(p)
  {
    if |cs| > 0 {
      var key := KeyOf(cs[0]);
      var processed' := if key in processed then processed else processed + {key};
      var tail := cs[1..];
      var rest := Scan(tail, processed', threshold);
      ScanFirst(tail, processed', threshold);
      ScanSound(tail, processed', threshold);
      forall p | p in Scan(cs, processed, threshold)
        ensures exists k :: 0 <= k < |cs| && cs[k] == p && forall k' :: 0 <= k' < k ==> KeyOf(cs[k']) != KeyOf(p)
      {
        if p in rest {
          var k :| 0 <= k < |tail| && tail[k] == p && forall k' :: 0 <= k' < k ==> KeyOf(tail[k']) != KeyOf(p);
          assert KeyOf(p) != key;
          forall k' | 0 <= k' < k + 1 ensures KeyOf(cs[k']) != KeyOf(p) {
            if k' > 0 {
              assert cs[k'] == tail[k' - 1];
            }
          }
          assert cs[k + 1] == p;
        } else {
          assert cs[0] == p;
        }
      }
    }
  }

  /** A candidate is kept whenever it reaches the threshold and its key is
      neither processed beforehand nor shared with an earlier candidate. */
  lemma {:induction false} ScanComplete(cs: seq<SuspiciousPair>, processed: set<string>, threshold: int, k: nat)
    requires k < |cs|
    requires KeyOf(cs[k]) !in processed
    requires forall k' :: 0 <= k' < k ==> KeyOf(cs[k']) != KeyOf(cs[k])
    requires cs[k].similarity >= threshold
    ensures cs[k] in Scan(cs, processed, threshold)
    decreases k
  {
    if k > 0 {
      var key := KeyOf(cs[0]);
      var processed' := if key in processed then processed else processed + {key};
      var tail := cs[1..];
      assert tail[k - 1] == cs[k];
      forall k' | 0 <= k' < k - 1
        ensures KeyOf(tail[k']) != KeyOf(tail[k - 1])
      {
        assert tail[k'] == cs[k' + 1];
      }
      ScanComplete(tail, processed', threshold, k - 1);
    }
  }

  predicate SortedDesc(r: seq<SuspiciousPair>) {
    forall x, y :: 0 <= x < y < |r| ==> r[x].similarity >= r[y].similarity
  }

  /** Places `p` before the first element that is not more similar. */
  function InsertDesc(p: SuspiciousPair, s: seq<SuspiciousPair>): (r: seq<SuspiciousPair>)
    requires SortedDesc(s)
    ensures SortedDesc(r)
    ensures multiset(r) == multiset(s) + multiset{p}
    ensures forall q :: q in r ==> q == p || q in s
  {
    if |s| == 0 || s[0].similarity <= p.similarity then [p] + s
    else
      var rest := InsertDesc(p, s[1..]);
      InsertBehindHead(p, s, rest);
      [s[0]] + rest
  }

  lemma InsertBehindHead(p: SuspiciousPair, s: seq<SuspiciousPair>, rest: seq<SuspiciousPair>)
    requires |s| > 0 && SortedDesc(s) && p.similarity < s[0].similarity
    requires SortedDesc(rest) && multiset(rest) == multiset(s[1..]) + multiset{p}
    requires forall q :: q in rest ==> q == p || q in s[1..]
    ensures SortedDesc([s[0]] + rest)
    ensures multiset([s[0]] + rest) == multiset(s) + multiset{p}
    ensures forall q :: q in [s[0]] + rest ==> q == p || q in s
  {
    var r := [s[0]] + rest;
    assert s == [s[0]] + s[1..];
    forall y | 0 <= y < |rest| ensures s[0].similarity >= rest[y].similarity {
      assert rest[y] in rest;
      if rest[y] != p {
        var k :| 0 <= k < |s[1..]| && s[1..][k] == rest[y];
        assert s[k + 1] == rest[y];
      }
    }
    assert forall x :: 1 <= x < |r| ==> r[x] == rest[x - 1];
  }

  /** `Array.prototype.sort` with `(a, b) => b.similarity - a.similarity`,
      as a stable insertion sort. */
  function SortDesc(s: seq<SuspiciousPair>): (r: seq<SuspiciousPair>)
    ensures SortedDesc(r)
    ensures multiset(r) == multiset(s)
  {
    if |s| == 0 then []
    else
      assert s == [s[0]] + s[1..];
      InsertDesc(s[0], SortDesc(s[1..]))
  }

  lemma InMultiset(s: seq<SuspiciousPair>, r: seq<SuspiciousPair>, p: SuspiciousPair)
    requires multiset(r) == multiset(s) && p in r
    ensures p in s
  {
    assert p in multiset(r);
  }

  lemma InsertMembers(p: SuspiciousPair, s: seq<SuspiciousPair>, q: SuspiciousPair)
    requires SortedDesc(s)
    requires q in InsertDesc(p, s)
    ensures q == p || q in s
  {
    assert q in multiset(InsertDesc(p, s));
  }

  /** Inserting a pair whose key is new keeps the keys distinct. */
  lemma {:induction false} InsertKeepsKeysDistinct(p: SuspiciousPair, s: seq<SuspiciousPair>)
    requires SortedDesc(s) && KeysDistinct(s)
    requires forall q :: q in s ==> KeyOf(q) != KeyOf(p)
    ensures KeysDistinct(InsertDesc(p, s))
  {
    if |s| > 0 && s[0].similarity > p.similarity {
      var tail := s[1..];
      KeysDistinctTail(s);
      InsertKeepsKeysDistinct(p, tail);
      var rest := InsertDesc(p, tail);
      forall y | 0 <= y < |rest| ensures KeyOf(s[0]) != KeyOf(rest[y]) {
        InsertMembers(p, tail, rest[y]);
        if rest[y] != p {
          var k :| 0 <= k < |tail| && tail[k] == rest[y];
          assert s[k + 1] == rest[y];
        }
      }
      KeysDistinctCons(s[0], rest);
    }
  }

  lemma KeysDistinctTail(s: seq<SuspiciousPair>)
    requires |s| > 0 && KeysDistinct(s)
    ensures KeysDistinct(s[1..])
  {
    var tail := s[1..];
    forall x, y | 0 <= x < y < |tail| ensures KeyOf(tail[x]) != KeyOf(tail[y]) {
      assert tail[x] == s[x + 1] && tail[y] == s[y + 1];
    }
  }

  lemma KeysDistinctCons(p: SuspiciousPair, s: seq<SuspiciousPair>)
    requires KeysDistinct(s)
    requires forall y :: 0 <= y < |s| ==> KeyOf(p) != KeyOf(s[y])
    ensures KeysDistinct([p] + s)
  {
    var r := [p] + s;
    forall x, y | 0 <= x < y < |r| ensures KeyOf(r[x]) != KeyOf(r[y]) {
      assert r[y] == s[y - 1];
      if x > 0 {
        assert r[x] == s[x - 1];
      }
    }
  }

  /** Sorting keeps the keys distinct. */
  lemma {:induction false} SortKeepsKeysDistinct(s: seq<SuspiciousPair>)
    requires KeysDistinct(s)
    ensures KeysDistinct(SortDesc(s))
  {
    if |s| > 0 {
      var tail := s[1..];
      KeysDistinctTail(s);
      SortKeepsKeysDistinct(tail);
      var sorted := SortDesc(tail);
      forall q | q in sorted ensures KeyOf(q) != KeyOf(s[0]) {
        InMultiset(tail, sorted, q);
        var k :| 0 <= k < |tail| && tail[k] == q;
        assert s[k + 1] == q;
      }
      InsertKeepsKeysDistinct(s[0], sorted);
    }
  }

  /** Each candidate is the report for some pair i < j. */
  lemma CandidateIsPair(subs: seq<Submission>, threshold: int, k: nat)
    requires k < |Candidates(subs, threshold)|
    ensures exists i, j :: 0 <= i < j < |subs| && Candidates(subs, threshold)[k] == Flag(subs, (i, j), threshold)
  {
    var pr := AllPairs(|subs|)[k];
    assert pr == (pr.0, pr.1);
  }

  /** `detectPlagiarism(submissions, threshold)`. */
  function DetectPlagiarism(subs: seq<Submission>, threshold: int): (r: seq<SuspiciousPair>)
    ensures SortedDesc(r)
    ensures forall p :: p in r ==> p.isFlagged && p.threshold == threshold && p.similarity >= threshold
    ensures forall p :: p in r ==> p in Candidates(subs, threshold)
  {
    var cs := Candidates(subs, threshold);
    var found := Scan(cs, {}, threshold);
    var r := SortDesc(found);
    forall p | p in r
      ensures p.isFlagged && p.threshold == threshold && p.similarity >= threshold
      ensures p in cs
    {
      InMultiset(found, r, p);
      var k :| 0 <= k < |cs| && cs[k] == p;
    }
    r
  }

  /** Every report is the comparison of a pair i < j. */
  lemma DetectReportsPairs(subs: seq<Submission>, threshold: int, p: SuspiciousPair)
    requires p in DetectPlagiarism(subs, threshold)
    ensures exists i, j :: 0 <= i < j < |subs| && p == Flag(subs, (i, j), threshold)
  {
    var cs := Candidates(subs, threshold);
    var k :| 0 <= k < |cs| && cs[k] == p;
    CandidateIsPair(subs, threshold, k);
  }

  /** At most one report per pair: the result is no longer than n(n-1)/2 and
      no ordered key appears twice. */
  lemma DetectSound(subs: seq<Submission>, threshold: int)
    ensures |DetectPlagiarism(subs, threshold)| <= |subs| * (|subs| - 1) / 2
    ensures KeysDistinct(DetectPlagiarism(subs, threshold))
  {
    var cs := Candidates(subs, threshold);
    var found := Scan(cs, {}, threshold);
    var r := SortDesc(found);
    AllPairsCount(|subs|);
    assert |r| == |found| by {
      assert |multiset(r)| == |multiset(found)|;
    }
    ScanSound(cs, {}, threshold);
    SortKeepsKeysDistinct(found);
  }

  /** The completeness half: a pair i < j whose key has not come up before in
      loop order and whose similarity reaches the threshold is reported. */
  lemma DetectReportsFirstPairs(subs: seq<Submission>, threshold: int, k: nat)
    requires k < |AllPairs(|subs|)| && FirstWithKey(subs, k)
    requires SimilarityAt(subs, AllPairs(|subs|)[k]) >= threshold
    ensures Flag(subs, AllPairs(|subs|)[k], threshold) in DetectPlagiarism(subs, threshold)
  {
    var cs := Candidates(subs, threshold);
    var found := Scan(cs, {}, threshold);
    forall k' | 0 <= k' < k ensures KeyOf(cs[k']) != KeyOf(cs[k]) {
      assert KeyOf(cs[k']) == KeyAt(subs, AllPairs(|subs|)[k']);
    }
    ScanComplete(cs, {}, threshold, k);
    assert cs[k] in multiset(SortDesc(found));
  }

  /** The soundness half: every report is the first pair i < j, in loop
      order, with its key. */
  lemma DetectReportsOnlyFirstPairs(subs: seq<Submission>, threshold: int, p: SuspiciousPair)
    requires p in DetectPlagiarism(subs, threshold)
    ensures exists k :: (0 <= k < |AllPairs(|subs|)| && FirstWithKey(subs, k)
      && p == Flag(subs, AllPairs(|subs|)[k], threshold))
  {
    var k := ReportIsFirstCandidate(subs, threshold, p);
    FirstCandidateIsFirstPair(subs, threshold, k);
  }

  /** No pair before the k-th, in loop order, has the k-th pair's key. */
  predicate FirstWithKey(subs: seq<Submission>, k: nat)
    requires k < |AllPairs(|subs|)|
  {
    var ps := AllPairs(|subs|);
    forall k' :: 0 <= k' < k ==> KeyAt(subs, ps[k']) != KeyAt(subs, ps[k])
  }

  lemma ReportIsFirstCandidate(subs: seq<Submission>, threshold: int, p: SuspiciousPair) returns (k: nat)
    requires p in DetectPlagiarism(subs, threshold)
    ensures k < |Candidates(subs, threshold)| && Candidates(subs, threshold)[k] == p
    ensures forall k' :: 0 <= k' < k ==> KeyOf(Candidates(subs, threshold)[k']) != KeyOf(p)
  {
    var cs := Candidates(subs, threshold);
    var found := Scan(cs, {}, threshold);
    InMultiset(found, SortDesc(found), p);
    ScanFirst(cs, {}, threshold);
    k :| 0 <= k < |cs| && cs[k] == p && forall k' :: 0 <= k' < k ==> KeyOf(cs[k']) != KeyOf(p);
  }

  lemma FirstCandidateIsFirstPair(subs: seq<Submission>, threshold: int, k: nat)
    requires k < |Candidates(subs, threshold)|
    requires var cs := Candidates(subs, threshold);
      forall k' :: 0 <= k' < k ==> KeyOf(cs[k']) != KeyOf(cs[k])
    ensures k < |AllPairs(|subs|)|
    ensures Candidates(subs, threshold)[k] == Flag(subs, AllPairs(|subs|)[k], threshold)
    ensures FirstWithKey(subs, k)
  {
    var cs := Candidates(subs, threshold);
    var ps := AllPairs(|subs|);
    forall k' | 0 <= k' < k
      ensures KeyAt(subs, ps[k']) != KeyAt(subs, ps[k])
    {
      assert KeyOf(cs[k']) == KeyAt(subs, ps[k']);
    }
  }

  datatype Stats = Stats(
    totalSubmissions: nat,
    totalComparisons: nat,
    suspiciousPairs: nat,
    flaggedPercentage: nat,
    averageSimilarity: nat,
    highestSimilarity: nat,
    threshold: int,
    pairs: seq<SuspiciousPair>)

  function Sum(xs: seq<nat>): nat {
    if |xs| == 0 then 0 else Sum(xs[..|xs| - 1]) + xs[|xs| - 1]
  }

  /** `Math.max(...xs)` for a non-empty list, 0 for an empty one. */
  function MaxOf(xs: seq<nat>): (r: nat)
    ensures forall k :: 0 <= k < |xs| ==> xs[k] <= r
    ensures |xs| > 0 ==> exists k :: 0 <= k < |xs| && xs[k] == r
    ensures |xs| == 0 ==> r == 0
  {
    if |xs| == 0 then 0
    else
      var m := MaxOf(xs[..|xs| - 1]);
      assert forall k :: 0 <= k < |xs| - 1 ==> xs[..|xs| - 1][k] == xs[k];
      if xs[|xs| - 1] > m then xs[|xs| - 1] else m
  }

  lemma {:induction false} SumAtMost(xs: seq<nat>, bound: nat)
    requires forall k :: 0 <= k < |xs| ==> xs[k] <= bound
    ensures Sum(xs) <= |xs| * bound
  {
    if |xs| > 0 {
      SumAtMost(xs[..|xs| - 1], bound);
    }
  }

  /** The similarity of every pair i < j, in loop order, with no key
      deduplication. */
  function AllSimilarities(subs: seq<Submission>): (r: seq<nat>)
    ensures |r| == |AllPairs(|subs|)|
    ensures forall k :: 0 <= k < |r| ==> r[k] == SimilarityAt(subs, AllPairs(|subs|)[k]) && r[k] <= Full
  {
    var ps := AllPairs(|subs|);
    seq(|ps|, k requires 0 <= k < |ps| => SimilarityAt(subs, ps[k]))
  }

  /** `Math.round(flagged / total * 100 * 100) / 100`, in hundredths; 0 when
      nothing was compared. */
  function FlaggedPercentage(flagged: nat, total: nat): (r: nat)
    requires flagged <= total
    ensures r <= Full
    ensures total == 0 || flagged == 0 ==> r == 0
    ensures 0 < total == flagged ==> r == Full
    ensures total > 0 ==> 2 * (Full * flagged) - total < 2 * (total * r) <= 2 * (Full * flagged) + total
  {
    if total == 0 then 0
    else
      RoundHalfUpBounds(Full * flagged, total, Full);
      if flagged == total then RoundHalfUpExact(Full, total); RoundHalfUp(Full * flagged, total)
      else RoundHalfUp(Full * flagged, total)
  }

  /** The rounded mean of the similarities; 0 for none. */
  function Average(xs: seq<nat>): (r: nat)
    ensures r <= MaxOf(xs)
    ensures |xs| == 0 ==> r == 0
    ensures |xs| > 0 ==> 2 * Sum(xs) - |xs| < 2 * (|xs| * r) <= 2 * Sum(xs) + |xs|
  {
    if |xs| == 0 then 0
    else
      SumAtMost(xs, MaxOf(xs));
      RoundHalfUpBounds(Sum(xs), |xs|, MaxOf(xs));
      RoundHalfUp(Sum(xs), |xs|)
  }

  /** The average over `n` copies of the same similarity is that similarity. */
  lemma {:induction false} SumConstant(xs: seq<nat>, c: nat)
    requires forall k :: 0 <= k < |xs| ==> xs[k] == c
    ensures Sum(xs) == c * |xs|
  {
    if |xs| > 0 {
      SumConstant(xs[..|xs| - 1], c);
    }
  }

  lemma AverageOfConstant(xs: seq<nat>, c: nat)
    requires |xs| > 0
    requires forall k :: 0 <= k < |xs| ==> xs[k] == c
    ensures Average(xs) == c
  {
    SumConstant(xs, c);
    RoundHalfUpExact(c, |xs|);
  }

  /** `getPlagiarismStats(submissions, threshold)`. */
  function GetPlagiarismStats(subs: seq<Submission>, threshold: int): (r: Stats)
    ensures r.totalSubmissions == |subs|
    ensures r.totalComparisons == |subs| * (|subs| - 1) / 2
    ensures r.pairs == DetectPlagiarism(subs, threshold) && r.threshold == threshold
    ensures r.suspiciousPairs == |r.pairs| <= r.totalComparisons
    ensures r.flaggedPercentage <= Full && r.averageSimilarity <= r.highestSimilarity <= Full
    ensures |subs| < 2 ==>
      (r.totalComparisons == 0 && r.pairs == [] && r.flaggedPercentage == 0
       && r.averageSimilarity == 0 && r.highestSimilarity == 0)
    ensures r.highestSimilarity == HighestSimilarity(subs)
  {
    var pairs := DetectPlagiarism(subs, threshold);
    var n := |subs|;
    DetectSound(subs, threshold);
    AllPairsCount(n);
    var total := n * (n - 1) / 2;
    var sims := AllSimilarities(subs);
    var flagged := FlaggedPercentage(|pairs|, total);
    var average := Average(sims);
    var highest := HighestSimilarity(subs);
    Stats(n, total, |pairs|, flagged, average, highest, threshold, pairs)
  }

  /** The highest similarity reported: the largest similarity of any pair
      i < j, attained by some pair once there are two submissions, and 0
      with fewer. */
  function HighestSimilarity(subs: seq<Submission>): (h: nat)
    ensures forall i, j :: 0 <= i < j < |subs| ==> SimilarityAt(subs, (i, j)) <= h
    ensures |subs| >= 2 ==> exists i, j :: 0 <= i < j < |subs| && SimilarityAt(subs, (i, j)) == h
    ensures |subs| < 2 ==> h == 0
  {
    SimilaritiesAtMostMax(subs);
    if |subs| >= 2 then
      HighestAttained(subs);
      MaxOf(AllSimilarities(subs))
    else
      AllPairsCount(|subs|);
      MaxOf(AllSimilarities(subs))
  }

  lemma SimilaritiesAtMostMax(subs: seq<Submission>)
    ensures forall i, j :: 0 <= i < j < |subs| ==> SimilarityAt(subs, (i, j)) <= MaxOf(AllSimilarities(subs))
  {
    forall i, j | 0 <= i < j < |subs| ensures SimilarityAt(subs, (i, j)) <= MaxOf(AllSimilarities(subs)) {
      SimilarityAtMostHighest(subs, i, j);
    }
  }

  lemma SimilarityAtMostHighest(subs: seq<Submission>, i: nat, j: nat)
    requires i < j < |subs|
    ensures SimilarityAt(subs, (i, j)) <= MaxOf(AllSimilarities(subs))
  {
    var ps := AllPairs(|subs|);
    var sims := AllSimilarities(subs);
    AllPairsComplete(|subs|, i, j);
    var k :| 0 <= k < |ps| && ps[k] == (i, j);
    assert sims[k] == SimilarityAt(subs, (i, j));
  }

  lemma HighestAttained(subs: seq<Submission>)
    requires |subs| >= 2
    ensures exists i, j :: 0 <= i < j < |subs| && SimilarityAt(subs, (i, j)) == MaxOf(AllSimilarities(subs))
  {
    var ps := AllPairs(|subs|);
    var sims := AllSimilarities(subs);
    AllPairsComplete(|subs|, 0, 1);
    assert |sims| > 0;
    var k :| 0 <= k < |sims| && sims[k] == MaxOf(sims);
    var pr := ps[k];
    assert pr == (pr.0, pr.1);
    assert SimilarityAt(subs, (pr.0, pr.1)) == MaxOf(sims);
  }

  /** The two percentages are the rounded ratios: flagged pairs over
      comparisons, and the summed similarity over comparisons. */
  lemma StatsRounding(subs: seq<Submission>, threshold: int)
    ensures var r := GetPlagiarismStats(subs, threshold);
      r.totalComparisons > 0 ==>
        2 * (Full * r.suspiciousPairs) - r.totalComparisons < 2 * (r.totalComparisons * r.flaggedPercentage)
          <= 2 * (Full * r.suspiciousPairs) + r.totalComparisons
    ensures var r := GetPlagiarismStats(subs, threshold);
      r.totalComparisons > 0 ==>
        2 * Sum(AllSimilarities(subs)) - r.totalComparisons < 2 * (r.totalComparisons * r.averageSimilarity)
          <= 2 * Sum(AllSimilarities(subs)) + r.totalComparisons
  {
    AllPairsCount(|subs|);
  }

  /** The highest similarity bounds every reported pair. */
  lemma HighestBoundsPairs(subs: seq<Submission>, threshold: int)
    ensures forall p :: p in GetPlagiarismStats(subs, threshold).pairs ==>
      p.similarity <= GetPlagiarismStats(subs, threshold).highestSimilarity
  {
    forall p | p in DetectPlagiarism(subs, threshold) ensures p.similarity <= HighestSimilarity(subs) {
      DetectReportsPairs(subs, threshold, p);
    }
  }

}
