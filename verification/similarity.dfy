/** The similarity engine of backend/utils/plagiarismDetector.js: code
    normalisation (`preprocessCode`), the percentage score
    (`calculateSimilarity`) and their composition (`compareCodes`).
    Percentages are integers counted in hundredths: 10000 stands for 100%. */
module Similarity {
  import opened Common
  import opened Levenshtein

  /** 100% in hundredths of a percent. */
  const Full: nat := 10000

  /** The suffix of `s` that starts at its first line terminator (empty when
      there is none): what remains after a greedy `.*` up to a multi-line `$`. */
  function SkipToLineEnd(s: string): (r: string)
    ensures |r| <= |s| && r == s[|s| - |r|..]
    ensures |r| > 0 ==> IsLineTerminator(r[0])
    ensures |s| > 0 && !IsLineTerminator(s[0]) ==> |r| < |s|
  {
    if |s| == 0 || IsLineTerminator(s[0]) then s else SkipToLineEnd(s[1..])
  }

  /** `s.replace(/<marker>.*$/gm, '')`: every occurrence of `marker` and the
      rest of its line, up to but not including the line terminator, is
      removed. For the markers in use ("//" and "#") no occurrence of the
      marker survives, since what follows a removed comment is the line
      terminator. */
  function StripLineComments(s: string, marker: string): (r: string)
    requires |marker| > 0 && !IsLineTerminator(marker[0])
    ensures |r| <= |s|
    ensures |marker| == 1 ==> forall i :: 0 <= i < |r| ==> r[i] != marker[0]
    ensures |marker| <= 2 && !IsLineTerminator(marker[|marker| - 1]) ==> !Contains(r, marker)
    ensures |r| > 0 ==> (!IsPrefix(marker, s) && r[0] == s[0]) || IsLineTerminator(r[0])
    ensures forall i :: 0 <= i < |r| ==> r[i] in s
    ensures IsSubsequence(r, s)
    decreases |s|
  {
    if |s| == 0 then []
    else if IsPrefix(marker, s) then
      var rest := SkipToLineEnd(s);
      var r := StripLineComments(rest, marker);
      SubsequenceDrop(r, s, |s| - |rest|);
      r
    else
      var tail := StripLineComments(s[1..], marker);
      SubsequenceKeepHead(tail, s);
      var r := [s[0]] + tail;
      KeptHeadNoMarker(s, marker, tail);
      r
  }

  // Keeping a character that does not start the marker in front of a
  // marker-free tail creates no marker when the tail starts with the next
  // character or with a line terminator.
  lemma KeptHeadNoMarker(s: string, marker: string, tail: string)
    requires |s| > 0 && |marker| > 0 && !IsPrefix(marker, s)
    requires |marker| <= 2 && !IsLineTerminator(marker[|marker| - 1]) ==> !Contains(tail, marker)
    requires |tail| > 0 ==> (|s| > 1 && tail[0] == s[1]) || IsLineTerminator(tail[0])
    ensures |marker| <= 2 && !IsLineTerminator(marker[|marker| - 1]) ==> !Contains([s[0]] + tail, marker)
  {
    if |marker| <= 2 && !IsLineTerminator(marker[|marker| - 1]) {
      var r := [s[0]] + tail;
      assert r[1..] == tail;
      if |marker| == 1 {
        assert r[..1] == s[..1];
      } else if |r| >= 2 {
        if |s| > 1 && tail[0] == s[1] {
          assert r[..2] == s[..2];
        } else {
          assert r[..2][1] == tail[0];
        }
      }
    }
  }

  // The index of the first star-slash pair in `s`, if any.
  function FindCommentClose(s: string): (r: Option<nat>)
    ensures r.Some? ==> r.value + 2 <= |s| && s[r.value] == '*' && s[r.value + 1] == '/'
    ensures r.Some? ==> forall k :: 0 <= k < r.value ==> !(s[k] == '*' && s[k + 1] == '/')
    ensures r.None? ==> forall k :: 0 <= k < |s| - 1 ==> !(s[k] == '*' && s[k + 1] == '/')
  {
    if |s| < 2 then None
    else if s[0] == '*' && s[1] == '/' then Some(0)
    else match FindCommentClose(s[1..])
      case None => None
      case Some(k) => Some(k + 1)
  }

  // `s.replace(/\/\*[\s\S]*?\*\//g, '')`: each slash-star opener that has a
  // later star-slash closer is removed together with everything up to the
  // first such closer; an opener without one is left in place.
  function StripBlockComments(s: string): (r: string)
    ensures |r| <= |s|
    ensures forall i :: 0 <= i < |r| ==> r[i] in s
    ensures IsSubsequence(r, s)
    decreases |s|
  {
    if |s| == 0 then []
    else if |s| >= 2 && s[0] == '/' && s[1] == '*' then
      match FindCommentClose(s[2..])
      case Some(k) =>
        var r := StripBlockComments(s[2 + k + 2..]);
        SubsequenceDrop(r, s, 2 + k + 2);
        r
      case None =>
        var r := StripBlockComments(s[1..]);
        SubsequenceKeepHead(r, s);
        [s[0]] + r
    else
      var r := StripBlockComments(s[1..]);
      SubsequenceKeepHead(r, s);
      [s[0]] + r
  }

  /** The lazy close search stops at the first star-slash after the
      opener: with none inside `b`, the one right after `b` is found. */
  lemma {:induction false} FindCloseAfter(b: string, c: string)
    requires !Contains(b, "*/")
    ensures FindCommentClose(b + "*/" + c) == Some(|b|)
    decreases |b|
  {
    var x := b + "*/" + c;
    if |b| == 0 {
      assert x[..2] == "*/";
    } else {
      assert x[1..] == b[1..] + "*/" + c;
      if |b| >= 2 {
        assert x[..2] == b[..2];
      }
      FindCloseAfter(b[1..], c);
    }
  }

  /** A closed block comment is removed with its delimiters, and the text
      before it is kept. */
  lemma {:induction false} StripBlockRemovesComment(a: string, b: string, c: string)
    requires !Contains(a, "/*") && !Contains(b, "*/")
    ensures StripBlockComments(a + "/*" + b + "*/" + c) == a + StripBlockComments(c)
    decreases |a|
  {
    var t := "/*" + b + "*/" + c;
    CommentAfter(a, b, c);
    if |a| == 0 {
      assert a + t == t;
      StripBlockAtOpener(b, c);
    } else {
      assert (a + t)[1..] == a[1..] + t;
      assert a[1..] + t == a[1..] + "/*" + b + "*/" + c;
      StripBlockNoOpenerHead(a, t);
      StripBlockRemovesComment(a[1..], b, c);
      ConsConcat(a, StripBlockComments(c));
    }
  }

  lemma StripBlockAtOpener(b: string, c: string)
    requires !Contains(b, "*/")
    ensures StripBlockComments("/*" + b + "*/" + c) == StripBlockComments(c)
  {
    var x := "/*" + b + "*/" + c;
    assert x[2..] == b + "*/" + c;
    FindCloseAfter(b, c);
    assert x[2 + |b| + 2..] == c;
  }

  // A first character that does not open a comment is kept.
  lemma StripBlockNoOpenerHead(a: string, t: string)
    requires |a| > 0 && !Contains(a, "/*") && |t| > 0 && t[0] == '/'
    ensures StripBlockComments(a + t) == [a[0]] + StripBlockComments((a + t)[1..])
  {
    var x := a + t;
    if |a| >= 2 {
      assert x[..2] == a[..2];
    }
  }

  /** Without any star-slash an opener has nothing to close it, so the
      text is kept as it is. */
  lemma {:induction false} StripBlockUnclosed(s: string)
    requires !Contains(s, "*/")
    ensures StripBlockComments(s) == s
    decreases |s|
  {
    if |s| > 0 {
      if |s| >= 2 {
        NoCloseWithoutStarSlash(s);
      }
      StripBlockKeepsHead(s);
      StripBlockUnclosed(s[1..]);
      ConsConcat(s, "");
    }
  }

  // The close search after an opener fails when no star-slash occurs.
  lemma NoCloseWithoutStarSlash(s: string)
    requires |s| >= 2 && !Contains(s, "*/")
    ensures FindCommentClose(s[2..]).None?
  {
    ContainsIff(s, "*/");
    var f := s[2..];
    forall k | 0 <= k < |f| - 1 ensures !(f[k] == '*' && f[k + 1] == '/') {
      assert !OccursAt(s, "*/", k + 2);
      assert s[k + 2..k + 2 + 2] == [f[k], f[k + 1]];
    }
  }

  // A first character that opens no closed comment is kept.
  lemma StripBlockKeepsHead(s: string)
    requires |s| > 0
    requires |s| >= 2 ==> FindCommentClose(s[2..]).None?
    ensures StripBlockComments(s) == [s[0]] + StripBlockComments(s[1..])
  {
  }

  /** A text none of whose characters is `t[i]` does not contain `t`. */
  lemma MissingCharNotContained(s: string, t: string, i: nat)
    requires i < |t| && forall k :: 0 <= k < |s| ==> s[k] != t[i]
    ensures !Contains(s, t)
  {
    ContainsIff(s, t);
    forall k | 0 <= k && k + |t| <= |s| ensures !OccursAt(s, t, k) {
      assert s[k..k + |t|][i] == s[k + i];
    }
  }

  /** A prefix free of the marker's first character passes the line
      stripper unchanged. */
  lemma {:induction false} StripLinePlainPrefix(a: string, t: string, marker: string)
    requires |marker| > 0 && !IsLineTerminator(marker[0])
    requires forall k :: 0 <= k < |a| ==> a[k] != marker[0]
    ensures StripLineComments(a + t, marker) == a + StripLineComments(t, marker)
    decreases |a|
  {
    if |a| > 0 {
      var x := a + t;
      StripLineKeepsHead(x, marker);
      assert x[1..] == a[1..] + t;
      StripLinePlainPrefix(a[1..], t, marker);
      ConsConcat(a, StripLineComments(t, marker));
    } else {
      assert a + t == t;
    }
  }

  lemma ConsConcat(a: string, v: string)
    requires |a| > 0
    ensures [a[0]] + (a[1..] + v) == a + v
  {
    assert [a[0]] + a[1..] == a;
  }

  // A character other than the marker's first is kept.
  lemma StripLineKeepsHead(x: string, marker: string)
    requires |marker| > 0 && !IsLineTerminator(marker[0])
    requires |x| > 0 && x[0] != marker[0]
    ensures StripLineComments(x, marker) == [x[0]] + StripLineComments(x[1..], marker)
  {
    if |marker| <= |x| {
      assert x[..|marker|][0] == x[0];
    }
  }

  /** With no line terminator after it, a comment runs to the end. */
  lemma {:induction false} SkipToEnd(s: string)
    requires forall k :: 0 <= k < |s| ==> !IsLineTerminator(s[k])
    ensures SkipToLineEnd(s) == ""
    decreases |s|
  {
    if |s| > 0 {
      SkipToEnd(s[1..]);
    }
  }

  /** A trailing `//` comment is removed by normalisation: only the code in
      front of it counts. */
  lemma PreprocessDropsLineComment(a: string, b: string)
    requires forall k :: 0 <= k < |a| ==> a[k] != '/' && a[k] != '#'
    requires forall k :: 0 <= k < |b| ==> !IsLineTerminator(b[k])
    ensures PreprocessCode(a + "//" + b) == ToLower(RemoveWhitespace(a))
  {
    StripLineDropsTrailing(a, b);
    StripBlockFixesPlain(a);
    StripLineFixesPlain(a, "#");
    PreprocessStages(a + "//" + b, a, a, a);
  }

  lemma StripLineDropsTrailing(a: string, b: string)
    requires forall k :: 0 <= k < |a| ==> a[k] != '/'
    requires forall k :: 0 <= k < |b| ==> !IsLineTerminator(b[k])
    ensures StripLineComments(a + "//" + b, "//") == a
  {
    LineCommentAfter(a, b);
    StripLinePlainPrefix(a, "//" + b, "//");
    StripLineDropsComment(b);
  }

  lemma StripLineDropsComment(b: string)
    requires forall k :: 0 <= k < |b| ==> !IsLineTerminator(b[k])
    ensures StripLineComments("//" + b, "//") == ""
  {
    CommentLayout(b);
    SkipToEnd("//" + b);
  }

  lemma CommentLayout(b: string)
    requires forall k :: 0 <= k < |b| ==> !IsLineTerminator(b[k])
    ensures IsPrefix("//", "//" + b)
    ensures forall k :: 0 <= k < |"//" + b| ==> !IsLineTerminator(("//" + b)[k])
  {
    assert ("//" + b)[..2] == "//";
  }

  /** Normalisation is the four stages in order; this names their results. */
  lemma PreprocessStages(code: string, noLine: string, noBlock: string, noHash: string)
    requires code != ""
    requires StripLineComments(code, "//") == noLine
    requires StripBlockComments(noLine) == noBlock
    requires StripLineComments(noBlock, "#") == noHash
    ensures PreprocessCode(code) == ToLower(RemoveWhitespace(noHash))
  {
  }

  /** A closed block comment is removed by normalisation: the code around
      it is joined. */
  lemma PreprocessDropsBlockComment(a: string, b: string, c: string)
    requires forall k :: 0 <= k < |a| ==> a[k] != '/' && a[k] != '#'
    requires forall k :: 0 <= k < |b| ==> b[k] != '/'
    requires forall k :: 0 <= k < |c| ==> c[k] != '/' && c[k] != '#'
    ensures PreprocessCode(a + "/*" + b + "*/" + c) == ToLower(RemoveWhitespace(a + c))
  {
    var x := a + "/*" + b + "*/" + c;
    StripLineKeepsBlock(a, b, c);
    MissingCharNotContained(a, "/*", 0);
    MissingCharNotContained(b, "*/", 1);
    StripBlockRemovesComment(a, b, c);
    StripBlockFixesPlain(c);
    StripLineHashFree(a + c, a, c);
    PreprocessStages(x, x, a + c, a + c);
  }

  lemma StripLineHashFree(s: string, a: string, c: string)
    requires s == a + c
    requires forall k :: 0 <= k < |a| ==> a[k] != '#'
    requires forall k :: 0 <= k < |c| ==> c[k] != '#'
    ensures StripLineComments(s, "#") == s
  {
    assert forall k :: 0 <= k < |s| ==> s[k] == (if k < |a| then a[k] else c[k - |a|]);
    StripLineFixesPlain(s, "#");
  }

  // The line stripper leaves a text with a block comment untouched when no
  // two slashes meet.
  lemma StripLineKeepsBlock(a: string, b: string, c: string)
    requires forall k :: 0 <= k < |a| ==> a[k] != '/'
    requires forall k :: 0 <= k < |b| ==> b[k] != '/'
    requires forall k :: 0 <= k < |c| ==> c[k] != '/'
    ensures StripLineComments(a + "/*" + b + "*/" + c, "//") == a + "/*" + b + "*/" + c
  {
    var t := "/*" + b + "*/" + c;
    CommentAfter(a, b, c);
    StripLinePlainPrefix(a, t, "//");
    StripLineKeepsOpener(b, c);
  }

  lemma CommentAfter(a: string, b: string, c: string)
    ensures a + "/*" + b + "*/" + c == a + ("/*" + b + "*/" + c)
  {
  }

  lemma StripLineKeepsOpener(b: string, c: string)
    requires forall k :: 0 <= k < |b| ==> b[k] != '/'
    requires forall k :: 0 <= k < |c| ==> c[k] != '/'
    ensures StripLineComments("/*" + b + "*/" + c, "//") == "/*" + b + "*/" + c
  {
    var t := "/*" + b + "*/" + c;
    var mid := "*" + b + "*";
    OpenerLayout(b, c);
    StripLineNotAtMarker(t, "//");
    StripLinePlainPrefix(mid, "/" + c, "//");
    StripLineKeepsSlash(c);
  }

  // How the text around a block comment splits at its slashes.
  lemma OpenerLayout(b: string, c: string)
    requires forall k :: 0 <= k < |b| ==> b[k] != '/'
    ensures var t := "/*" + b + "*/" + c;
      |t| > 0 && !IsPrefix("//", t) && t == [t[0]] + (("*" + b + "*") + ("/" + c))
    ensures forall k :: 0 <= k < |"*" + b + "*"| ==> ("*" + b + "*")[k] != '/'
  {
    var t := "/*" + b + "*/" + c;
    var mid := "*" + b + "*";
    assert t[..2] == "/*";
    assert t == [t[0]] + (mid + ("/" + c));
    assert forall k :: 1 <= k < |mid| - 1 ==> mid[k] == b[k - 1];
  }

  // A text that does not start with the marker keeps its first character.
  lemma StripLineNotAtMarker(x: string, marker: string)
    requires |marker| > 0 && !IsLineTerminator(marker[0])
    requires |x| > 0 && !IsPrefix(marker, x)
    ensures StripLineComments(x, marker) == [x[0]] + StripLineComments(x[1..], marker)
  {
  }

  lemma StripLineKeepsSlash(c: string)
    requires forall k :: 0 <= k < |c| ==> c[k] != '/'
    ensures StripLineComments("/" + c, "//") == "/" + c
  {
    SlashLayout(c);
    StripLineNotAtMarker("/" + c, "//");
    StripLineFixesPlain(c, "//");
  }

  lemma SlashLayout(c: string)
    requires forall k :: 0 <= k < |c| ==> c[k] != '/'
    ensures !IsPrefix("//", "/" + c) && ("/" + c)[1..] == c && ("/" + c)[0] == '/'
  {
    if |c| > 0 {
      assert ("/" + c)[..2] == ['/', c[0]];
    }
  }

  lemma LineCommentAfter(a: string, b: string)
    ensures a + "//" + b == a + ("//" + b)
  {
  }

  /** No occurrence of `marker` in `s` starts before index `n`. */
  predicate NoMarkerBefore(s: string, marker: string, n: nat)
  {
    forall k :: 0 <= k < n && k < |s| ==> !IsPrefix(marker, s[k..])
  }

  /** Text in which no marker starts passes the line stripper unchanged,
      whatever follows it. */
  lemma {:induction false} StripLineUntilMarker(a: string, t: string, marker: string)
    requires |marker| > 0 && !IsLineTerminator(marker[0])
    requires NoMarkerBefore(a + t, marker, |a|)
    ensures StripLineComments(a + t, marker) == a + StripLineComments(t, marker)
    decreases |a|
  {
    if |a| > 0 {
      ShiftNoMarker(a, t, marker);
      StripLineNotAtMarker(a + t, marker);
      StripLineUntilMarker(a[1..], t, marker);
      ConsConcat(a, StripLineComments(t, marker));
    } else {
      assert a + t == t;
    }
  }

  lemma ShiftNoMarker(a: string, t: string, marker: string)
    requires |a| > 0 && NoMarkerBefore(a + t, marker, |a|)
    ensures !IsPrefix(marker, a + t) && (a + t)[1..] == a[1..] + t
    ensures NoMarkerBefore(a[1..] + t, marker, |a| - 1)
  {
    var x := a + t;
    assert x[0..] == x;
    forall k | 0 <= k < |a| - 1 && k < |a[1..] + t|
      ensures !IsPrefix(marker, (a[1..] + t)[k..])
    {
      assert (a[1..] + t)[k..] == x[k + 1..];
    }
  }

  /** Whether a marker starts at a position depends only on the next
      `|marker|` characters, so appending text creates no earlier marker. */
  lemma NoMarkerExtend(p: string, q: string, marker: string, n: nat)
    requires NoMarkerBefore(p, marker, n) && n + |marker| <= |p|
    ensures NoMarkerBefore(p + q, marker, n)
  {
    forall k | 0 <= k < n && k < |p + q| ensures !IsPrefix(marker, (p + q)[k..]) {
      assert (p + q)[k..][..|marker|] == p[k..][..|marker|];
    }
  }

  /** Text without the marker's first character has no marker in it. */
  lemma NoMarkerCharFree(a: string, u: string, marker: string)
    requires |marker| > 0 && forall k :: 0 <= k < |a| ==> a[k] != marker[0]
    ensures NoMarkerBefore(a + u, marker, |a|)
  {
    forall k | 0 <= k < |a| && k < |a + u| ensures !IsPrefix(marker, (a + u)[k..]) {
      assert (a + u)[k..][0] == a[k];
    }
  }

  /** The comment's `.*` stops in front of the first line terminator. */
  lemma {:induction false} SkipToTerminator(p: string, t: char, c: string)
    requires forall k :: 0 <= k < |p| ==> !IsLineTerminator(p[k])
    requires IsLineTerminator(t)
    ensures SkipToLineEnd(p + [t] + c) == [t] + c
    decreases |p|
  {
    if |p| == 0 {
      assert p + [t] + c == [t] + c;
    } else {
      assert (p + [t] + c)[1..] == p[1..] + [t] + c;
      SkipToTerminator(p[1..], t, c);
    }
  }

  /** A line comment at the start is removed up to its line terminator,
      and the terminator and the lines after it are kept. */
  lemma StripLineAtComment(marker: string, b: string, t: char, c: string)
    requires |marker| > 0 && forall k :: 0 <= k < |marker| ==> !IsLineTerminator(marker[k])
    requires forall k :: 0 <= k < |b| ==> !IsLineTerminator(b[k])
    requires IsLineTerminator(t)
    ensures StripLineComments(marker + b + [t] + c, marker) == [t] + StripLineComments(c, marker)
  {
    var x := marker + b + [t] + c;
    assert x[..|marker|] == marker;
    SkipToTerminator(marker + b, t, c);
    StripLineKeepsHead([t] + c, marker);
    assert ([t] + c)[1..] == c;
  }

  /** `.*$` under the `m` flag: a line comment ends at its line. The code in
      front of the marker, the line terminator and every later line are
      kept. */
  lemma StripLineCommentLine(a: string, b: string, t: char, c: string, marker: string)
    requires |marker| > 0 && forall k :: 0 <= k < |marker| ==> !IsLineTerminator(marker[k])
    requires NoMarkerBefore(a + marker, marker, |a|)
    requires forall k :: 0 <= k < |b| ==> !IsLineTerminator(b[k])
    requires IsLineTerminator(t)
    ensures StripLineComments(a + marker + b + [t] + c, marker) == a + [t] + StripLineComments(c, marker)
  {
    var rest := marker + b + [t] + c;
    CommentLineLayout(a, marker, b, t, c);
    NoMarkerExtend(a + marker, b + [t] + c, marker, |a|);
    StripLineUntilMarker(a, rest, marker);
    StripLineAtComment(marker, b, t, c);
    AppendAssoc(a, [t], StripLineComments(c, marker));
  }

  lemma CommentLineLayout(a: string, marker: string, b: string, t: char, c: string)
    ensures a + marker + b + [t] + c == a + (marker + b + [t] + c)
    ensures (a + marker) + (b + [t] + c) == a + (marker + b + [t] + c)
  {
  }

  lemma AppendAssoc(a: string, u: string, v: string)
    ensures a + (u + v) == a + u + v
  {
  }

  /** A `//` comment ends at its line: normalising code, a comment and more
      lines gives the normal form of the code in front of the comment
      followed by the normal form of the later lines. */
  lemma PreprocessLineCommentThenCode(a: string, b: string, t: char, c: string)
    requires forall k :: 0 <= k < |a| ==> a[k] != '/' && a[k] != '#'
    requires forall k :: 0 <= k < |b| ==> !IsLineTerminator(b[k])
    requires IsLineTerminator(t)
    ensures PreprocessCode(a + "//" + b + [t] + c) == ToLower(RemoveWhitespace(a)) + PreprocessCode(c)
  {
    var p := a + [t];
    var noLine := StripLineComments(c, "//");
    var noBlock := StripBlockComments(noLine);
    var noHash := StripLineComments(noBlock, "#");
    LineStageOfCommentLine(a, b, t, c);
    LaterStagesKeepPlainPrefix(a, t, noLine, noBlock, noHash);
    PreprocessStages(a + "//" + b + [t] + c, p + noLine, p + noBlock, p + noHash);
    CompactLowerDropsTerminator(a, t, noHash);
    PreprocessOfStages(c, noLine, noBlock, noHash);
  }

  lemma LineStageOfCommentLine(a: string, b: string, t: char, c: string)
    requires forall k :: 0 <= k < |a| ==> a[k] != '/'
    requires forall k :: 0 <= k < |b| ==> !IsLineTerminator(b[k])
    requires IsLineTerminator(t)
    ensures StripLineComments(a + "//" + b + [t] + c, "//") == a + [t] + StripLineComments(c, "//")
  {
    var slash := "//";
    assert slash[0] == '/' && slash[1] == '/';
    NoMarkerCharFree(a, slash, slash);
    StripLineCommentLine(a, b, t, c, slash);
  }

  // Code without '/' or '#' and a line terminator pass the block and `#`
  // stages unchanged in front of whatever follows.
  lemma LaterStagesKeepPlainPrefix(a: string, t: char, noLine: string, noBlock: string, noHash: string)
    requires forall k :: 0 <= k < |a| ==> a[k] != '/' && a[k] != '#'
    requires IsLineTerminator(t)
    requires noBlock == StripBlockComments(noLine) && noHash == StripLineComments(noBlock, "#")
    ensures StripBlockComments(a + [t] + noLine) == a + [t] + noBlock
    ensures StripLineComments(a + [t] + noBlock, "#") == a + [t] + noHash
  {
    var p := a + [t];
    var hash := "#";
    assert hash[0] == '#';
    assert forall k :: 0 <= k < |p| ==> p[k] != '/' && p[k] != '#';
    StripBlockPlainPrefix(p, noLine);
    StripLinePlainPrefix(p, noBlock, hash);
  }

  lemma CompactLowerDropsTerminator(a: string, t: char, h: string)
    requires IsLineTerminator(t)
    ensures ToLower(RemoveWhitespace(a + [t] + h)) == ToLower(RemoveWhitespace(a)) + ToLower(RemoveWhitespace(h))
  {
    LineTerminatorIsSpace(t);
    assert RemoveWhitespace([t]) == [];
    RemoveWhitespaceConcat(a + [t], h);
    RemoveWhitespaceConcat(a, [t]);
    assert RemoveWhitespace(a) + [] == RemoveWhitespace(a);
    ToLowerConcat(RemoveWhitespace(a), RemoveWhitespace(h));
  }

  /** Normalisation of any text, the empty one included, is the four stages
      in order. */
  lemma PreprocessOfStages(c: string, noLine: string, noBlock: string, noHash: string)
    requires noLine == StripLineComments(c, "//")
    requires noBlock == StripBlockComments(noLine)
    requires noHash == StripLineComments(noBlock, "#")
    ensures PreprocessCode(c) == ToLower(RemoveWhitespace(noHash))
  {
    if c != "" {
      PreprocessStages(c, noLine, noBlock, noHash);
    }
  }

  /** A prefix without '/' passes the block stripper unchanged. */
  lemma {:induction false} StripBlockPlainPrefix(a: string, t: string)
    requires forall k :: 0 <= k < |a| ==> a[k] != '/'
    ensures StripBlockComments(a + t) == a + StripBlockComments(t)
    decreases |a|
  {
    if |a| > 0 {
      var x := a + t;
      assert x[0] == a[0] && x[1..] == a[1..] + t;
      StripBlockNotOpener(x);
      StripBlockPlainPrefix(a[1..], t);
      ConsConcat(a, StripBlockComments(t));
    } else {
      assert a + t == t;
    }
  }

  // A first character that does not start an opener is kept.
  lemma StripBlockNotOpener(s: string)
    requires |s| > 0 && !(|s| >= 2 && s[0] == '/' && s[1] == '*')
    ensures StripBlockComments(s) == [s[0]] + StripBlockComments(s[1..])
  {
  }

  /** Without an opener there is no block comment: the text is kept. */
  lemma {:induction false} StripBlockNoOpener(s: string)
    requires !Contains(s, "/*")
    ensures StripBlockComments(s) == s
    decreases |s|
  {
    if |s| > 0 {
      if |s| >= 2 {
        assert s[..2] == [s[0], s[1]];
      }
      StripBlockNotOpener(s);
      StripBlockNoOpener(s[1..]);
      ConsConcat(s, "");
    }
  }

  /** `s.replace(/\s+/g, '')`. */
  function RemoveWhitespace(s: string): (r: string)
    ensures |r| <= |s|
    ensures forall i :: 0 <= i < |r| ==> !IsJsSpace(r[i]) && r[i] in s
    ensures forall c :: c in s && !IsJsSpace(c) ==> c in r
    ensures IsSubsequence(r, s)
  {
    if |s| == 0 then []
    else if IsJsSpace(s[0]) then
      var r := RemoveWhitespace(s[1..]);
      SubsequenceDrop(r, s, 1);
      r
    else
      var r := RemoveWhitespace(s[1..]);
      SubsequenceKeepHead(r, s);
      [s[0]] + r
  }

  /** White-space removal works piecewise: the result for a concatenation
      is the concatenation of the results. */
  lemma {:induction false} RemoveWhitespaceConcat(a: string, b: string)
    ensures RemoveWhitespace(a + b) == RemoveWhitespace(a) + RemoveWhitespace(b)
  {
    if |a| > 0 {
      assert (a + b)[1..] == a[1..] + b;
      RemoveWhitespaceConcat(a[1..], b);
    } else {
      assert a + b == b;
    }
  }

  /** `preprocessCode(code)`: line comments, block comments and `#` comments
      are stripped in that order, then all white space, then the text is
      lower-cased. */
  function PreprocessCode(code: string): (r: string)
    ensures code == "" ==> r == ""
    ensures |r| <= |code|
    ensures forall i :: 0 <= i < |r| ==> !IsJsSpace(r[i]) && r[i] != '#' && !IsAsciiUpper(r[i])
    ensures IsSubsequence(r, ToLower(code))
  {
    if code == "" then ""
    else
      var noLine := StripLineComments(code, "//");
      var noBlock := StripBlockComments(noLine);
      var noHash := StripLineComments(noBlock, "#");
      var compact := RemoveWhitespace(noHash);
      var r := ToLower(compact);
      LowerOfStages(compact, noHash, noBlock, noLine, code);
      LowerOfCompact(compact, noHash);
      r
  }

  /** Text without white space, comment markers or capitals is already
      normal: preprocessing leaves it unchanged. */
  lemma {:induction false} PreprocessFixesPlainText(s: string)
    requires forall i :: 0 <= i < |s| ==> !IsJsSpace(s[i]) && s[i] != '/' && s[i] != '#' && !IsAsciiUpper(s[i])
    ensures PreprocessCode(s) == s
  {
    if s != "" {
      StripLineFixesPlain(s, "//");
      StripBlockFixesPlain(s);
      StripLineFixesPlain(s, "#");
      PreprocessStages(s, s, s, s);
      RemoveWhitespaceFixesPlain(s);
      ToLowerFixesPlain(s);
    }
  }

  lemma LowerOfCompact(compact: string, noHash: string)
    requires forall i :: 0 <= i < |noHash| ==> noHash[i] != '#'
    requires forall i :: 0 <= i < |compact| ==> !IsJsSpace(compact[i]) && compact[i] in noHash
    ensures forall i :: 0 <= i < |compact| ==>
      !IsJsSpace(ToLower(compact)[i]) && ToLower(compact)[i] != '#' && !IsAsciiUpper(ToLower(compact)[i])
  {
    var r := ToLower(compact);
    forall i | 0 <= i < |r| ensures !IsJsSpace(r[i]) && r[i] != '#' {
      assert compact[i] in noHash;
    }
  }

  lemma LowerOfStages(a: string, b: string, c: string, d: string, code: string)
    requires IsSubsequence(a, b) && IsSubsequence(b, c) && IsSubsequence(c, d) && IsSubsequence(d, code)
    ensures IsSubsequence(ToLower(a), ToLower(code))
  {
    SubsequenceTrans(c, d, code);
    SubsequenceTrans(b, c, code);
    SubsequenceTrans(a, b, code);
    SubsequenceToLower(a, code);
  }

  /** Code without comment markers is only compacted and lower-cased. */
  lemma PreprocessWithoutMarkers(s: string)
    requires forall i :: 0 <= i < |s| ==> s[i] != '/' && s[i] != '#'
    ensures PreprocessCode(s) == ToLower(RemoveWhitespace(s))
  {
    if s != "" {
      CommentStagesFixMarkerFree(s);
      PreprocessStages(s, s, s, s);
    }
  }

  // The three comment stages leave text without '/' and '#' unchanged.
  lemma CommentStagesFixMarkerFree(s: string)
    requires forall i :: 0 <= i < |s| ==> s[i] != '/' && s[i] != '#'
    ensures StripLineComments(s, "//") == s
    ensures StripBlockComments(s) == s
    ensures StripLineComments(s, "#") == s
  {
    var slash, hash := "//", "#";
    assert slash[0] == '/' && hash[0] == '#';
    StripLineFixesPlain(s, slash);
    StripBlockFixesPlain(s);
    StripLineFixesPlain(s, hash);
  }

  lemma {:induction false} StripLineFixesPlain(s: string, marker: string)
    requires |marker| > 0 && !IsLineTerminator(marker[0])
    requires forall i :: 0 <= i < |s| ==> s[i] != marker[0]
    ensures StripLineComments(s, marker) == s
    decreases |s|
  {
    if |s| > 0 {
      StripLineFixesPlain(s[1..], marker);
      assert [s[0]] + s[1..] == s;
    }
  }

  lemma {:induction false} StripBlockFixesPlain(s: string)
    requires forall i :: 0 <= i < |s| ==> s[i] != '/'
    ensures StripBlockComments(s) == s
    decreases |s|
  {
    if |s| > 0 {
      StripBlockFixesPlain(s[1..]);
      assert [s[0]] + s[1..] == s;
    }
  }

  lemma {:induction false} RemoveWhitespaceFixesPlain(s: string)
    requires forall i :: 0 <= i < |s| ==> !IsJsSpace(s[i])
    ensures RemoveWhitespace(s) == s
    decreases |s|
  {
    if |s| > 0 {
      RemoveWhitespaceFixesPlain(s[1..]);
      assert [s[0]] + s[1..] == s;
    }
  }

  lemma ToLowerFixesPlain(s: string)
    requires forall i :: 0 <= i < |s| ==> !IsAsciiUpper(s[i])
    ensures ToLower(s) == s
  {
  }

  // Normalisation is not idempotent: comments are stripped before white
  // space is removed, so removing the space in "/ /x" creates a comment that
  // a second pass deletes.
  lemma PreprocessNotIdempotent()
    ensures PreprocessCode("/ /x") == "//x"
    ensures PreprocessCode("//x") == ""
    ensures PreprocessCode(PreprocessCode("/ /x")) != PreprocessCode("/ /x")
  {
    SpacedSlashesSurviveComments();
    SpacedSlashesCompact();
    assert ToLower("//x") == "//x";
    AdjacentSlashesAreComment();
  }

  lemma SpacedSlashesSurviveComments()
    ensures StripLineComments("/ /x", "//") == "/ /x"
    ensures StripBlockComments("/ /x") == "/ /x"
    ensures StripLineComments("/ /x", "#") == "/ /x"
  {
    SpacedSlashesNoLineComment();
    SpacedSlashesNoBlockComment();
    StripLineFixesPlain("/ /x", "#");
  }

  lemma SpacedSlashesNoLineComment()
    ensures StripLineComments("/ /x", "//") == "/ /x"
  {
    var s := "/ /x";
    assert s[1..] == " /x" && s[2..] == "/x" && s[3..] == "x";
    StripLineFixesPlain("x", "//");
    assert !IsPrefix("//", "/x");
    assert StripLineComments("/x", "//") == "/x";
    assert !IsPrefix("//", " /x");
    assert StripLineComments(" /x", "//") == " /x";
    assert !IsPrefix("//", s);
  }

  lemma SpacedSlashesNoBlockComment()
    ensures StripBlockComments("/ /x") == "/ /x"
  {
    var s := "/ /x";
    assert s[1..] == " /x" && s[2..] == "/x" && s[3..] == "x";
    StripBlockFixesPlain("x");
    assert StripBlockComments("/x") == "/x";
    assert StripBlockComments(" /x") == " /x";
  }

  lemma SpacedSlashesCompact()
    ensures RemoveWhitespace("/ /x") == "//x"
  {
    RemoveWhitespaceFixesPlain("/x");
    assert RemoveWhitespace(" /x") == "/x";
    assert RemoveWhitespace("/ /x") == "/" + RemoveWhitespace(" /x");
  }

  lemma AdjacentSlashesAreComment()
    ensures StripLineComments("//x", "//") == ""
  {
    assert IsPrefix("//", "//x");
    assert SkipToLineEnd("x") == "";
    assert SkipToLineEnd("/x") == "";
    assert SkipToLineEnd("//x") == "";
  }

  /** The rounded share, in hundredths of a percent, of `len` characters
      that `distance` edits leave untouched. */
  function Score(len: nat, distance: nat): (r: nat)
    requires 0 < len && distance <= len
    ensures r <= Full
    ensures distance == 0 ==> r == Full
  {
    RoundHalfUpBounds(Full * (len - distance), len, Full);
    if distance == 0 then RoundHalfUpExact(Full, len); Full else
    RoundHalfUp(Full * (len - distance), len)
  }

  /** `calculateSimilarity(str1, str2)` in hundredths of a percent: 0 when
      either string is empty, 100% for identical strings, otherwise
      100 * (L - d) / L rounded, with L the longer length and d the distance
      from the longer to the shorter string. */
  function CalculateSimilarity(str1: string, str2: string): (r: nat)
    ensures r <= Full
    ensures str1 == "" || str2 == "" ==> r == 0
    ensures str1 == str2 && str1 != "" ==> r == Full
  {
    if str1 == "" || str2 == "" then 0
    else if str1 == str2 then Full
    else
      var longer := if |str1| > |str2| then str1 else str2;
      var shorter := if |str1| > |str2| then str2 else str1;
      // the source's `longer.length === 0` branch cannot be reached here
      DistBounds(longer, shorter);
      Score(|longer|, Dist(longer, shorter))
  }

  /** Between non-empty strings the score is the rounded share of the longer
      length that the edit distance leaves untouched, whichever argument is
      longer. */
  lemma SimilarityFromDistance(str1: string, str2: string)
    requires str1 != "" && str2 != ""
    ensures Dist(str1, str2) <= |str1| || Dist(str1, str2) <= |str2|
    ensures CalculateSimilarity(str1, str2) ==
      if |str1| >= |str2| then Score(|str1|, Dist(str1, str2)) else Score(|str2|, Dist(str1, str2))
  {
    DistBounds(str1, str2);
    DistSymmetric(str1, str2);
    if str1 == str2 {
      DistIdentity(str1);
    }
  }

  /** Similarity does not depend on the order of its arguments; for strings
      of equal length this rests on the symmetry of the distance. */
  lemma SimilaritySymmetric(str1: string, str2: string)
    ensures CalculateSimilarity(str1, str2) == CalculateSimilarity(str2, str1)
  {
    if str1 != "" && str2 != "" {
      SimilarityFromDistance(str1, str2);
      SimilarityFromDistance(str2, str1);
      DistSymmetric(str1, str2);
    }
  }

  /** `compareCodes(code1, code2, usePreprocessing)`. */
  function CompareCodes(code1: string, code2: string, usePreprocessing: bool): (r: nat)
    ensures r <= Full
    ensures usePreprocessing && PreprocessCode(code1) == PreprocessCode(code2) && PreprocessCode(code1) != "" ==> r == Full
    ensures (if usePreprocessing then PreprocessCode(code1) == "" || PreprocessCode(code2) == "" else code1 == "" || code2 == "") ==> r == 0
  {
    if usePreprocessing then CalculateSimilarity(PreprocessCode(code1), PreprocessCode(code2))
    else CalculateSimilarity(code1, code2)
  }

  lemma CompareCodesSymmetric(code1: string, code2: string, usePreprocessing: bool)
    ensures CompareCodes(code1, code2, usePreprocessing) == CompareCodes(code2, code1, usePreprocessing)
  {
    SimilaritySymmetric(PreprocessCode(code1), PreprocessCode(code2));
    SimilaritySymmetric(code1, code2);
  }

  /** Two submissions with the same non-empty normal form compare as
      identical when normalisation is on. */
  lemma CompareCodesSameNormalForm(code1: string, code2: string)
    requires PreprocessCode(code1) == PreprocessCode(code2) != ""
    ensures CompareCodes(code1, code2, true) == Full
  {
  }
}
