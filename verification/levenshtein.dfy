/** Edit distance as `levenshteinDistance` computes it
    (backend/utils/plagiarismDetector.js): a recursive definition over
    prefixes that follows the dynamic-programming recurrence cell by cell,
    its algebraic properties, and the table-filling algorithm proved equal
    to it. */
module Levenshtein {

  function Min3(a: nat, b: nat, c: nat): (r: nat)
    ensures r <= a && r <= b && r <= c
    ensures r == a || r == b || r == c
  {
    if a <= b && a <= c then a else if b <= c then b else c
  }

  /** The value of table cell `dp[|a|][|b|]`: row 0 and column 0 hold the
      lengths, a matching last character copies the diagonal, otherwise one
      plus the cheapest of deletion, insertion and substitution. */
  function Dist(a: string, b: string): nat
    decreases |a| + |b|
  {
    if |a| == 0 then |b|
    else if |b| == 0 then |a|
    else if a[|a| - 1] == b[|b| - 1] then Dist(a[..|a| - 1], b[..|b| - 1])
    else 1 + Min3(Dist(a[..|a| - 1], b), Dist(a, b[..|b| - 1]), Dist(a[..|a| - 1], b[..|b| - 1]))
  }

  /** A string is at distance 0 from itself and at its own length from the
      empty string, on either side. */
  lemma {:induction false} DistIdentity(s: string)
    ensures Dist(s, s) == 0
    ensures Dist(s, "") == |s| && Dist("", s) == |s|
    decreases |s|
  {
    if |s| > 0 {
      DistIdentity(s[..|s| - 1]);
    }
  }

  /** Swapping the arguments swaps deletions and insertions, which cost the
      same, so the distance is symmetric. */
  lemma {:induction false} DistSymmetric(a: string, b: string)
    ensures Dist(a, b) == Dist(b, a)
    decreases |a| + |b|
  {
    if |a| > 0 && |b| > 0 {
      var a', b' := a[..|a| - 1], b[..|b| - 1];
      DistSymmetric(a', b');
      if a[|a| - 1] != b[|b| - 1] {
        DistSymmetric(a', b);
        DistSymmetric(a, b');
      }
    }
  }

  /** The distance is at least the difference of the lengths and at most the
      longer length. */
  lemma {:induction false} DistBounds(a: string, b: string)
    ensures |a| - |b| <= Dist(a, b) && |b| - |a| <= Dist(a, b)
    ensures Dist(a, b) <= if |a| >= |b| then |a| else |b|
    decreases |a| + |b|
  {
    if |a| > 0 && |b| > 0 {
      var a', b' := a[..|a| - 1], b[..|b| - 1];
      DistBounds(a', b');
      if a[|a| - 1] != b[|b| - 1] {
        DistBounds(a', b);
        DistBounds(a, b');
      }
    }
  }

  /** Distance 0 holds exactly between equal strings. */
  lemma {:induction false} DistZeroIffEqual(a: string, b: string)
    ensures Dist(a, b) == 0 <==> a == b
    decreases |a| + |b|
  {
    if a == b {
      DistIdentity(a);
    } else if |a| > 0 && |b| > 0 {
      var a', b' := a[..|a| - 1], b[..|b| - 1];
      assert a == a' + [a[|a| - 1]] && b == b' + [b[|b| - 1]];
      if a[|a| - 1] == b[|b| - 1] {
        DistZeroIffEqual(a', b');
      }
    }
  }

  /** The recurrence restated for cell (i, j) of the table of `s` and `t`. */
  lemma DistCell(s: string, t: string, i: nat, j: nat)
    requires 1 <= i <= |s| && 1 <= j <= |t|
    ensures Dist(s[..i], t[..j]) ==
      if s[i - 1] == t[j - 1] then Dist(s[..i - 1], t[..j - 1])
      else 1 + Min3(Dist(s[..i - 1], t[..j]), Dist(s[..i], t[..j - 1]), Dist(s[..i - 1], t[..j - 1]))
  {
    var a, b := s[..i], t[..j];
    assert a[..|a| - 1] == s[..i - 1] && a[|a| - 1] == s[i - 1];
    assert b[..|b| - 1] == t[..j - 1] && b[|b| - 1] == t[j - 1];
  }

  /** Row `i` of the table from row `i - 1`, left to right; no other row
      changes. */
  method FillRow(dp: array2<nat>, str1: string, str2: string, i: nat)
    requires dp.Length0 == |str1| + 1 && dp.Length1 == |str2| + 1 && 1 <= i <= |str1|
    requires forall q :: 0 <= q <= |str2| ==> dp[i - 1, q] == Dist(str1[..i - 1], str2[..q])
    requires dp[i, 0] == Dist(str1[..i], str2[..0])
    modifies dp
    ensures forall q :: 0 <= q <= |str2| ==> dp[i, q] == Dist(str1[..i], str2[..q])
    ensures forall p, q :: 0 <= p <= |str1| && p != i && 0 <= q <= |str2| ==> dp[p, q] == old(dp[p, q])
  {
    var n := |str2|;
    var j := 1;
    while j <= n
      invariant 1 <= j <= n + 1
      invariant forall p, q :: 0 <= p <= |str1| && p != i && 0 <= q <= n ==> dp[p, q] == old(dp[p, q])
      invariant forall q :: 0 <= q < j ==> dp[i, q] == Dist(str1[..i], str2[..q])
    {
      DistCell(str1, str2, i, j);
      if str1[i - 1] == str2[j - 1] {
        dp[i, j] := dp[i - 1, j - 1];
      } else {
        dp[i, j] := 1 + Min3(dp[i - 1, j], dp[i, j - 1], dp[i - 1, j - 1]);
      }
      j := j + 1;
    }
  }

  /** `levenshteinDistance(str1, str2)`: fills an (m+1) x (n+1) table row
      by row and returns its last cell. */
  method LevenshteinDistance(str1: string, str2: string) returns (d: nat)
    ensures d == Dist(str1, str2)
  {
    var m := |str1|;
    var n := |str2|;
    var dp := new nat[m + 1, n + 1];
    var i := 0;
    while i <= m
      invariant 0 <= i <= m + 1
      invariant forall p :: 0 <= p < i ==> dp[p, 0] == p
    {
      dp[i, 0] := i;
      i := i + 1;
    }
    var j := 0;
    while j <= n
      invariant 0 <= j <= n + 1
      invariant forall p :: 0 <= p <= m ==> dp[p, 0] == p
      invariant forall q :: 0 <= q < j ==> dp[0, q] == q
    {
      dp[0, j] := j;
      j := j + 1;
    }
    forall q | 0 <= q <= n
      ensures dp[0, q] == Dist(str1[..0], str2[..q])
    {
    }
    i := 1;
    while i <= m
      invariant 1 <= i <= m + 1
      invariant forall p, q :: 0 <= p < i && 0 <= q <= n ==> dp[p, q] == Dist(str1[..p], str2[..q])
      invariant forall p :: i <= p <= m ==> dp[p, 0] == p
    {
      assert dp[i, 0] == Dist(str1[..i], str2[..0]);
      FillRow(dp, str1, str2, i);
      i := i + 1;
    }
    d := dp[m, n];
    assert str1[..m] == str1 && str2[..n] == str2;
  }
}
