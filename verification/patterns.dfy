/**
 The three regular expressions of the annotation parser, each read as the
 deterministic matcher it amounts to.

 In ANNOTATION_PATTERN and DESCRIPTION_PATTERN every greedy repetition is
 followed by an atom its own class cannot match (`\s*` by `@` or by a
 non-space class, `[a-zA-Z]+` by `\s`, `.+` by `$`), so backtracking never
 changes the outcome: each repetition takes its longest run (`RunEnd`) and the
 match either goes through or fails.
 */
module Patterns {
  import opened Text
  import opened Scanner

  /** One `@tag value` pair. */
  datatype Annotation = Annotation(tag: string, value: string)

  // ---------------------------------------------------------------------
  // DOCBLOCK_PATTERN  %^\/\*\*.*\*\/$%s
  // ---------------------------------------------------------------------

  /** `$` without the `m` and `D` flags: the end of the text, or just before
      a newline that is the last character. */
  predicate EndAnchor(s: string, e: nat)
    requires e <= |s|
  {
    e == |s| || (e == |s| - 1 && s[e] == '\n')
  }

  // The pattern read literally: the opening marker slash-star-star, then
  // anything (the `s` flag lets `.` match newlines), then the closing marker
  // star-slash at the end anchor.
  predicate DocBlockPattern(s: string) {
    StartsWith(s, "/**") && exists k :: 3 <= k <= |s| - 2 && s[k] == '*' && s[k + 1] == '/' && EndAnchor(s, k + 2)
  }

  // The text is delimited as a docblock: it opens with slash-star-star,
  // closes with star-slash or with star-slash and one newline, and the two
  // markers do not overlap (so the shortest such text has five characters).
  predicate IsDelimited(s: string) {
    && |s| >= 5
    && StartsWith(s, "/**")
    && (EndsWith(s, "*/") || (|s| >= 6 && EndsWith(s, "*/\n")))
  }

  /** `IsDelimited` character by character. */
  lemma DelimitedChars(s: string)
    ensures IsDelimited(s) <==>
              && |s| >= 5
              && s[0] == '/' && s[1] == '*' && s[2] == '*'
              && ((s[|s| - 2] == '*' && s[|s| - 1] == '/')
                  || (|s| >= 6 && s[|s| - 3] == '*' && s[|s| - 2] == '/' && s[|s| - 1] == '\n'))
  {
    if |s| >= 5 {
      assert StartsWith(s, "/**") <==> s[0] == '/' && s[1] == '*' && s[2] == '*' by {
        if s[0] == '/' && s[1] == '*' && s[2] == '*' {
          assert s[..3] == "/**";
        }
      }
      assert EndsWith(s, "*/") <==> s[|s| - 2] == '*' && s[|s| - 1] == '/' by {
        if s[|s| - 2] == '*' && s[|s| - 1] == '/' {
          assert s[|s| - 2..] == "*/";
        }
      }
      if |s| >= 6 {
        assert EndsWith(s, "*/\n") <==> s[|s| - 3] == '*' && s[|s| - 2] == '/' && s[|s| - 1] == '\n' by {
          if s[|s| - 3] == '*' && s[|s| - 2] == '/' && s[|s| - 1] == '\n' {
            assert s[|s| - 3..] == "*/\n";
          }
        }
      }
    }
  }

  lemma DocBlockPatternExact(s: string)
    ensures DocBlockPattern(s) <==> IsDelimited(s)
  {
    if IsDelimited(s) {
      var k := if EndsWith(s, "*/") then |s| - 2 else |s| - 3;
      assert s[k] == s[|s| - 2..][0] || s[k] == s[|s| - 3..][0];
      assert s[k] == '*' && s[k + 1] == '/';
      assert EndAnchor(s, k + 2);
    }
    if DocBlockPattern(s) {
      var k :| 3 <= k <= |s| - 2 && s[k] == '*' && s[k + 1] == '/' && EndAnchor(s, k + 2);
      if k + 2 == |s| {
        assert s[|s| - 2..] == [s[k], s[k + 1]] == "*/";
        assert EndsWith(s, "*/");
      } else {
        assert s[|s| - 3..] == [s[k], s[k + 1], s[k + 2]] == "*/\n";
        assert EndsWith(s, "*/\n");
      }
    }
  }

  // ---------------------------------------------------------------------
  // ANNOTATION_PATTERN  /^(?:\*\s*\@)(?P<tag>[a-zA-Z]+)\s(?P<value>.+)$/m
  // ---------------------------------------------------------------------

  /** `u` is exactly a `*`, a run of `n` whitespace characters, `@`, the tag
      name, one whitespace character, and the value; the value is non-empty
      and stays on one line. The run takes whatever length remains. */
  predicate IsAnnotationText(u: string, a: Annotation) {
    var n := |u| - |a.tag| - |a.value| - 3;
    && n >= 0
    && IsTagName(a.tag)
    && |a.value| > 0
    && NoNewline(a.value)
    && u[0] == '*'
    && AllSpace(u[1..1 + n])
    && u[1 + n] == '@'
    && u[2 + n..2 + n + |a.tag|] == a.tag
    && IsSpace(u[2 + n + |a.tag|])
    && u[3 + n + |a.tag|..] == a.value
  }

  /** Tries ANNOTATION_PATTERN at the front of `t` (the caller checks `^`). */
  function MatchAnnotation(t: string): (r: Option<Match<Annotation>>)
    ensures r.Some? ==> 0 < r.value.len <= |t| && EndsLine(t, r.value.len)
  {
    if |t| == 0 || t[0] != '*' then None
    else
      var j := RunEnd(IsSpace, t, 1);
      if j == |t| || t[j] != '@' then None
      else
        var e := RunEnd(IsLetter, t, j + 1);
        if e == j + 1 || e == |t| || !IsSpace(t[e]) then None
        else
          var f := RunEnd(NotNewline, t, e + 1);
          if f == e + 1 then None
          else Some(Match(Annotation(t[j + 1..e], t[e + 1..f]), f))
  }

  /** What the matcher finds has the annotation shape. */
  lemma MatchAnnotationSound(t: string)
    ensures var r := MatchAnnotation(t);
            r.Some? ==> IsAnnotationText(t[..r.value.len], r.value.data)
  {
    if MatchAnnotation(t).Some? {
      var j := RunEnd(IsSpace, t, 1);
      var e := RunEnd(IsLetter, t, j + 1);
      var f := RunEnd(NotNewline, t, e + 1);
      AnnotationTextAt(t, j, e, f);
    }
  }

  /** The pieces the matcher delimits make up an annotation text. */
  lemma AnnotationTextAt(t: string, j: nat, e: nat, f: nat)
    requires 0 < j && j + 1 < e && e + 1 < f <= |t|
    requires t[0] == '*' && t[j] == '@' && IsSpace(t[e])
    requires forall k :: 1 <= k < j ==> IsSpace(t[k])
    requires forall k :: j < k < e ==> IsLetter(t[k])
    requires forall k :: e < k < f ==> t[k] != '\n'
    ensures IsAnnotationText(t[..f], Annotation(t[j + 1..e], t[e + 1..f]))
  {
    var u := t[..f];
    var a := Annotation(t[j + 1..e], t[e + 1..f]);
    assert forall k :: 0 <= k < |a.tag| ==> a.tag[k] == t[j + 1 + k];
    assert forall k :: 0 <= k < |a.value| ==> a.value[k] == t[e + 1 + k];
    assert forall k :: 0 <= k < j - 1 ==> u[1..j][k] == t[1 + k];
    assert u[j + 1..e] == a.tag;
    assert u[e + 1..] == a.value;
  }

  /** The converse: whenever the front of `t` has the annotation shape and
      ends at a line end, the matcher finds exactly that tag and value. */
  lemma MatchAnnotationComplete(t: string, n: nat, a: Annotation)
    requires n <= |t| && EndsLine(t, n)
    requires IsAnnotationText(t[..n], a)
    ensures MatchAnnotation(t) == Some(Match(a, n))
  {
    var u := t[..n];
    var j := n - |a.tag| - |a.value| - 2;
    var e := j + 1 + |a.tag|;
    assert t[0] == u[0] == '*';
    assert t[j] == u[j] == '@';
    assert IsSpace(t[e]) by {
      assert t[e] == u[e];
    }
    assert t[j + 1..e] == u[j + 1..e] == a.tag;
    assert t[e + 1..n] == u[e + 1..] == a.value;
    assert forall k :: 1 <= k < j ==> IsSpace(t[k]) by {
      forall k | 1 <= k < j
        ensures IsSpace(t[k])
      {
        assert t[k] == u[1..j][k - 1];
      }
    }
    assert forall k :: j < k < e ==> IsLetter(t[k]) by {
      forall k | j < k < e
        ensures IsLetter(t[k])
      {
        assert t[k] == a.tag[k - j - 1];
      }
    }
    assert forall k :: e < k < n ==> t[k] != '\n' by {
      forall k | e < k < n
        ensures t[k] != '\n'
      {
        assert t[k] == a.value[k - e - 1];
      }
    }
    MatchAnnotationAt(t, j, e, n);
  }

  /** Once the pieces are located, the matcher's runs stop exactly at them. */
  lemma MatchAnnotationAt(t: string, j: nat, e: nat, f: nat)
    requires 0 < j && j + 1 < e && e + 1 < f <= |t| && EndsLine(t, f)
    requires t[0] == '*' && t[j] == '@' && IsSpace(t[e])
    requires forall k :: 1 <= k < j ==> IsSpace(t[k])
    requires forall k :: j < k < e ==> IsLetter(t[k])
    requires forall k :: e < k < f ==> t[k] != '\n'
    ensures MatchAnnotation(t) == Some(Match(Annotation(t[j + 1..e], t[e + 1..f]), f))
  {
    RunEndIs(IsSpace, t, 1, j);
    RunEndIs(IsLetter, t, j + 1, e);
    RunEndIs(NotNewline, t, e + 1, f);
  }

  // ---------------------------------------------------------------------
  // DESCRIPTION_PATTERN  /^(?:\*\s*)(?P<description>[^@\/\s\*].+)$/m
  // ---------------------------------------------------------------------

  /** The class `[^@\/\s\*]`. */
  predicate IsDescriptionStart(c: char) {
    !IsSpace(c) && c != '@' && c != '/' && c != '*'
  }

  /** `u` is exactly a `*`, a run of `n` whitespace characters, and the
      fragment `d`: at least two characters on one line, the first in the
      class above. The run takes whatever length remains. */
  predicate IsDescriptionText(u: string, d: string) {
    var n := |u| - |d| - 1;
    && n >= 0
    && |d| >= 2
    && IsDescriptionStart(d[0])
    && NoNewline(d)
    && u[0] == '*'
    && AllSpace(u[1..1 + n])
    && u[1 + n..] == d
  }

  /** Tries DESCRIPTION_PATTERN at the front of `t` (the caller checks `^`). */
  function MatchDescription(t: string): (r: Option<Match<string>>)
    ensures r.Some? ==> 0 < r.value.len <= |t| && EndsLine(t, r.value.len)
  {
    if |t| == 0 || t[0] != '*' then None
    else
      var j := RunEnd(IsSpace, t, 1);
      if j == |t| || !IsDescriptionStart(t[j]) then None
      else
        var f := RunEnd(NotNewline, t, j + 1);
        if f == j + 1 then None
        else Some(Match(t[j..f], f))
  }

  /** What the matcher finds has the description shape. */
  lemma MatchDescriptionSound(t: string)
    ensures var r := MatchDescription(t);
            r.Some? ==> IsDescriptionText(t[..r.value.len], r.value.data)
  {
    if MatchDescription(t).Some? {
      var j := RunEnd(IsSpace, t, 1);
      var f := RunEnd(NotNewline, t, j + 1);
      DescriptionTextAt(t, j, f);
    }
  }

  /** The pieces the matcher delimits make up a description text. */
  lemma DescriptionTextAt(t: string, j: nat, f: nat)
    requires 0 < j && j + 1 < f <= |t|
    requires t[0] == '*' && IsDescriptionStart(t[j])
    requires forall k :: 1 <= k < j ==> IsSpace(t[k])
    requires forall k :: j < k < f ==> t[k] != '\n'
    ensures IsDescriptionText(t[..f], t[j..f])
  {
    var u := t[..f];
    var d := t[j..f];
    assert forall k :: 0 <= k < |d| ==> d[k] == t[j + k];
    assert forall k :: 0 <= k < j - 1 ==> u[1..j][k] == t[1 + k];
    assert u[j..] == d;
  }

  /** The converse: whenever the front of `t` has the description shape and
      ends at a line end, the matcher finds exactly that fragment. */
  lemma MatchDescriptionComplete(t: string, n: nat, d: string)
    requires n <= |t| && EndsLine(t, n)
    requires IsDescriptionText(t[..n], d)
    ensures MatchDescription(t) == Some(Match(d, n))
  {
    var u := t[..n];
    var j := n - |d|;
    assert forall x :: 0 <= x < n ==> t[x] == u[x];
    assert forall k :: 1 <= k < j ==> t[k] == u[1..j][k - 1];
    RunEndIs(IsSpace, t, 1, j);
    assert forall k :: j <= k < n ==> t[k] == d[k - j];
    RunEndIs(NotNewline, t, j + 1, n);
    assert t[j..n] == u[j..];
  }

  /** No text starts with both an annotation and a description: after the
      star and the whitespace run one sees `@` or a description character,
      never both. */
  lemma AnnotationExcludesDescription(t: string)
    ensures MatchAnnotation(t).Some? ==> MatchDescription(t).None?
  {
  }

  lemma MatchersWellBehaved()
    ensures WellBehaved(MatchAnnotation)
    ensures WellBehaved(MatchDescription)
  {
  }
}
