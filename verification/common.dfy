/** Shared vocabulary: optional values, JavaScript's whitespace and string
    helpers, rounding as `Math.round` does it, and decimal numerals. */
module Common {

  datatype Option<+T> = None | Some(value: T)

  /** The characters JavaScript's `\s` class and `String.prototype.trim`
      treat as white space: ECMAScript WhiteSpace plus LineTerminator. */
  predicate IsJsSpace(c: char) {
    || c == ' ' || c == '\t' || c == '\n' || c == '\r'
    || c == '\U{000B}' || c == '\U{000C}'
    || c == '\U{00A0}' || c == '\U{1680}'
    || ('\U{2000}' <= c <= '\U{200A}')
    || c == '\U{2028}' || c == '\U{2029}' || c == '\U{202F}'
    || c == '\U{205F}' || c == '\U{3000}' || c == '\U{FEFF}'
  }

  /** The characters a regular expression's `.` refuses and before which a
      multi-line `$` matches. */
  predicate IsLineTerminator(c: char) {
    c == '\n' || c == '\r' || c == '\U{2028}' || c == '\U{2029}'
  }

  lemma LineTerminatorIsSpace(c: char)
    requires IsLineTerminator(c)
    ensures IsJsSpace(c)
  {
  }

  predicate IsAsciiUpper(c: char) {
    'A' <= c <= 'Z'
  }

  /** `toLowerCase`, restricted to the ASCII letters. */
  function ToLowerChar(c: char): (r: char)
    ensures !IsAsciiUpper(r)
    ensures IsAsciiUpper(c) ==> r as int == c as int + 32
    ensures !IsAsciiUpper(c) ==> r == c
  {
    if IsAsciiUpper(c) then (c as int + 32) as char else c
  }

  function ToLower(s: string): (r: string)
    ensures |r| == |s|
    ensures forall i :: 0 <= i < |s| ==> r[i] == ToLowerChar(s[i])
  {
    if |s| == 0 then [] else [ToLowerChar(s[0])] + ToLower(s[1..])
  }

  /** Lower-casing works character by character, so it distributes over
      concatenation. */
  lemma ToLowerConcat(a: string, b: string)
    ensures ToLower(a + b) == ToLower(a) + ToLower(b)
  {
    var l, r := ToLower(a + b), ToLower(a) + ToLower(b);
    assert forall i :: 0 <= i < |l| ==> l[i] == r[i];
  }

  /** `r` is `s` with some of its elements deleted, the rest kept in order. */
  predicate IsSubsequence<T(==)>(r: seq<T>, s: seq<T>)
    decreases |s|
  {
    |r| == 0 || (|s| > 0 && ((r[0] == s[0] && IsSubsequence(r[1..], s[1..])) || IsSubsequence(r, s[1..])))
  }

  lemma SubsequenceKeepHead<T>(r: seq<T>, s: seq<T>)
    requires |s| > 0 && IsSubsequence(r, s[1..])
    ensures IsSubsequence([s[0]] + r, s)
  {
    assert ([s[0]] + r)[1..] == r;
  }

  lemma {:induction false} SubsequenceDrop<T>(r: seq<T>, s: seq<T>, k: nat)
    requires k <= |s| && IsSubsequence(r, s[k..])
    ensures IsSubsequence(r, s)
    decreases k
  {
    if k > 0 {
      assert s[1..][k - 1..] == s[k..];
      SubsequenceDrop(r, s[1..], k - 1);
    }
  }

  lemma {:induction false} SubsequenceTrans<T>(a: seq<T>, b: seq<T>, c: seq<T>)
    requires IsSubsequence(a, b) && IsSubsequence(b, c)
    ensures IsSubsequence(a, c)
    decreases |c|
  {
    if |a| > 0 {
      if b[0] == c[0] && IsSubsequence(b[1..], c[1..]) {
        if a[0] == b[0] && IsSubsequence(a[1..], b[1..]) {
          SubsequenceTrans(a[1..], b[1..], c[1..]);
        } else {
          SubsequenceTrans(a, b[1..], c[1..]);
        }
      } else {
        SubsequenceTrans(a, b, c[1..]);
      }
    }
  }

  /** Lower-casing both sides keeps a subsequence a subsequence. */
  lemma {:induction false} SubsequenceToLower(r: string, s: string)
    requires IsSubsequence(r, s)
    ensures IsSubsequence(ToLower(r), ToLower(s))
    decreases |s|
  {
    if |r| > 0 {
      assert ToLower(s)[1..] == ToLower(s[1..]);
      assert ToLower(r)[1..] == ToLower(r[1..]);
      if r[0] == s[0] && IsSubsequence(r[1..], s[1..]) {
        SubsequenceToLower(r[1..], s[1..]);
      } else {
        SubsequenceToLower(r, s[1..]);
      }
    }
  }

  predicate IsPrefix(p: string, s: string) {
    |p| <= |s| && s[..|p|] == p
  }

  /** `s.includes(t)`, written as a left-to-right search. */
  predicate Contains(s: string, t: string)
    decreases |s|
  {
    IsPrefix(t, s) || (|s| > 0 && Contains(s[1..], t))
  }

  /** `t` occurs in `s` starting at index `k`. */
  predicate OccursAt(s: string, t: string, k: int) {
    0 <= k && k + |t| <= |s| && s[k..k + |t|] == t
  }

  /** The search agrees with the positional definition of a substring. */
  lemma {:induction false} ContainsIff(s: string, t: string)
    ensures Contains(s, t) <==> exists k :: OccursAt(s, t, k)
    decreases |s|
  {
    if IsPrefix(t, s) {
      assert OccursAt(s, t, 0);
    } else if |s| > 0 {
      ContainsIff(s[1..], t);
      if Contains(s[1..], t) {
        var k :| OccursAt(s[1..], t, k);
        assert s[k + 1..k + 1 + |t|] == s[1..][k..k + |t|];
        assert OccursAt(s, t, k + 1);
      } else {
        forall k
          ensures !OccursAt(s, t, k)
        {
          if k == 0 && |t| <= |s| {
            assert s[..|t|] == s[0..0 + |t|];
          } else if 0 < k && k + |t| <= |s| {
            assert s[1..][k - 1..k - 1 + |t|] == s[k..k + |t|];
            assert !OccursAt(s[1..], t, k - 1);
          }
        }
      }
    }
  }

  /** Index of the first character that is not white space, from `i` on. */
  function SkipSpace(s: string, i: nat): (r: nat)
    requires i <= |s|
    ensures i <= r <= |s|
    ensures forall k :: i <= k < r ==> IsJsSpace(s[k])
    ensures r < |s| ==> !IsJsSpace(s[r])
    decreases |s| - i
  {
    if i == |s| || !IsJsSpace(s[i]) then i else SkipSpace(s, i + 1)
  }

  /** One past the last character that is not white space, up to `j`. */
  function SkipSpaceBack(s: string, j: nat): (r: nat)
    requires j <= |s|
    ensures r <= j
    ensures forall k :: r <= k < j ==> IsJsSpace(s[k])
    ensures r > 0 ==> !IsJsSpace(s[r - 1])
  {
    if j == 0 || !IsJsSpace(s[j - 1]) then j else SkipSpaceBack(s, j - 1)
  }

  /** `String.prototype.trim`: drops leading and trailing white space. */
  function Trim(s: string): (r: string)
    ensures |r| <= |s|
    ensures |r| > 0 ==> !IsJsSpace(r[0]) && !IsJsSpace(r[|r| - 1])
    ensures exists a, b :: 0 <= a <= b <= |s| && r == s[a..b]
              && (forall k :: 0 <= k < a ==> IsJsSpace(s[k]))
              && (forall k :: b <= k < |s| ==> IsJsSpace(s[k]))
  {
    var a := SkipSpace(s, 0);
    var b := SkipSpaceBack(s, |s|);
    if b <= a then
      assert forall k :: 0 <= k < |s| ==> IsJsSpace(s[k]) by {
        forall k | 0 <= k < |s| ensures IsJsSpace(s[k]) {
          if k >= a {
            assert k >= b;
          }
        }
      }
      assert s[0..0] == [];
      []
    else
      s[a..b]
  }

  /** `Math.round(num / den)`: the nearest integer, halves rounded up. */
  function RoundHalfUp(num: int, den: int): (r: int)
    requires den > 0
    ensures 2 * num - den < 2 * (den * r) <= 2 * num + den
  {
    (2 * num + den) / (2 * den)
  }

  lemma MulSign(d: int, x: int)
    requires d > 0
    ensures d * x < 0 <==> x < 0
    ensures d * x > 0 <==> x > 0
  {
  }

  lemma Distribute(d: int, a: int, b: int)
    ensures d * (a + b) == d * a + d * b
    ensures d * (2 * a) == 2 * (d * a)
  {
  }

  /** A quotient between 0 and `k` rounds to an integer between 0 and `k`. */
  lemma RoundHalfUpBounds(num: int, den: int, k: int)
    requires den > 0 && 0 <= num <= den * k
    ensures 0 <= RoundHalfUp(num, den) <= k
  {
    var r := RoundHalfUp(num, den);
    Distribute(den, 2 * r, 1);
    Distribute(den, r, 0);
    MulSign(den, 2 * r + 1);
    Distribute(den, 2 * (r - k), -1);
    Distribute(den, r, -k);
    MulSign(den, 2 * (r - k) - 1);
  }

  /** A quotient between `lo` and `hi` rounds to an integer between them. */
  lemma RoundHalfUpBetween(num: int, den: int, lo: int, hi: int)
    requires den > 0 && den * lo <= num <= den * hi
    ensures lo <= RoundHalfUp(num, den) <= hi
  {
    var r := RoundHalfUp(num, den);
    Distribute(den, 2 * (lo - r), -1);
    Distribute(den, lo, -r);
    MulSign(den, 2 * (lo - r) - 1);
    Distribute(den, 2 * (r - hi), -1);
    Distribute(den, r, -hi);
    MulSign(den, 2 * (r - hi) - 1);
  }

  /** An exact quotient rounds to itself. */
  lemma RoundHalfUpExact(q: int, den: int)
    requires den > 0
    ensures RoundHalfUp(q * den, den) == q
  {
    var r := RoundHalfUp(q * den, den);
    Distribute(den, 2 * (r - q), 1);
    Distribute(den, 2 * (r - q), -1);
    Distribute(den, r, -q);
    Distribute(den, r - q, 0);
    MulSign(den, 2 * (r - q) + 1);
    MulSign(den, 2 * (r - q) - 1);
  }

  predicate IsDigit(c: char) {
    '0' <= c <= '9'
  }

  function DigitChar(d: nat): (c: char)
    requires d < 10
    ensures IsDigit(c)
  {
    ('0' as int + d) as char
  }

  function DigitValue(c: char): (d: nat)
    requires IsDigit(c)
    ensures d < 10
  {
    c as int - '0' as int
  }

  /** `String(n)` for a non-negative integer: its decimal numeral. */
  function NatToString(n: nat): (r: string)
    ensures |r| > 0
    ensures forall i :: 0 <= i < |r| ==> IsDigit(r[i])
    ensures n > 0 ==> r[0] != '0'
    decreases n
  {
    if n < 10 then [DigitChar(n)] else NatToString(n / 10) + [DigitChar(n % 10)]
  }

  /** The value of a string of decimal digits. */
  function DigitsValue(s: string): nat
    requires forall i :: 0 <= i < |s| ==> IsDigit(s[i])
  {
    if |s| == 0 then 0 else 10 * DigitsValue(s[..|s| - 1]) + DigitValue(s[|s| - 1])
  }

  lemma {:induction false} NatToStringRoundTrip(n: nat)
    ensures DigitsValue(NatToString(n)) == n
    decreases n
  {
    if n >= 10 {
      var r := NatToString(n);
      NatToStringRoundTrip(n / 10);
      assert r[..|r| - 1] == NatToString(n / 10);
    }
  }

  /** `String(n)` for any integer. */
  function IntToString(n: int): (r: string)
    ensures |r| > 0
  {
    if n < 0 then "-" + NatToString(-n) else NatToString(n)
  }
}
