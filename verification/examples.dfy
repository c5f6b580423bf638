/**
 The concrete inputs and results the test suite of the parser checks.
 */
module Examples {
  import opened Text
  import opened Scanner
  import opened Patterns
  import opened Parser
  import opened Lines

  // ---------------------------------------------------------------------
  // hasDocBlock
  // ---------------------------------------------------------------------

  /** The inputs the test suite accepts as docblocks: the empty docblock,
      a docblock on one line and one spread over three lines. */
  lemma AcceptedEmptyDocBlock()
    ensures HasDocBlock(Str("/***/"))
  {
    DelimitedChars("/***/");
  }

  lemma AcceptedInlineDocBlock()
    ensures HasDocBlock(Str("/** @foo bar **/"))
  {
    DelimitedChars("/** @foo bar **/");
  }

  lemma AcceptedMultilineDocBlock()
    ensures HasDocBlock(Str("/**\n* @tags test one two three\n*/"))
  {
    DelimitedChars("/**\n* @tags test one two three\n*/");
  }

  /** The inputs the test suite rejects: non-strings, the empty string,
      plain text, a comment opened by a single star, docblocks never closed,
      and the shortest overlap case, where the closing star-slash would have
      to reuse the star of the opening marker. */
  lemma RejectedNoText()
    ensures !HasDocBlock(NonString)
    ensures !HasDocBlock(Str(""))
  {
  }

  lemma RejectedPlainText()
    ensures !HasDocBlock(Str("Test"))
  {
    DelimitedChars("Test");
  }

  lemma RejectedPlainComment()
    ensures !HasDocBlock(Str("/* @covers foo */"))
  {
    DelimitedChars("/* @covers foo */");
  }

  lemma RejectedUnclosed()
    ensures !HasDocBlock(Str("/***** @foo bar"))
    ensures !HasDocBlock(Str("/**\n*\n* @bar foo"))
  {
    DelimitedChars("/***** @foo bar");
    DelimitedChars("/**\n*\n* @bar foo");
  }

  lemma RejectedOverlap()
    ensures !HasDocBlock(Str("/**/"))
  {
    DelimitedChars("/**/");
  }

  // ---------------------------------------------------------------------
  // getAnnotations and getDescription outside docblocks
  // ---------------------------------------------------------------------

  /** The empty string and plain text have no annotations, and a value that
      is not a string has no description. */
  lemma NoDocBlockResults()
    ensures GetAnnotations(Str("")) == map[]
    ensures GetAnnotations(Str("just a string without docblocks")) == map[]
    ensures GetDescription(NonString) == ""
  {
    DelimitedChars("just a string without docblocks");
  }

  /** The empty docblock is one line that is neither a tag line nor a
      description line, and nothing spills from it. */
  lemma EmptyDocBlockLines()
    ensures NoSpill("/***/") && LineKinds("/***/", 0) == [Other]
  {
    var s := "/***/";
    var ls := [s];
    assert s[0..] == Join(ls, "\n");
    JoinedLinesAt(s, 0, ls);
    NoSpillOfLines(s, 0, ls);
    LineKindsOfLines(s, 0, ls);
    OtherLine(s);
    assert ClassifyAll(ls) == [Other];
  }

  /** Neither the empty string nor the empty docblock has annotations. */
  lemma EmptyDocBlockAnnotations()
    ensures GetAnnotations(Str("")) == map[]
    ensures GetAnnotations(Str("/***/")) == map[]
  {
    EmptyDocBlockLines();
    AnnotationsByLine("/***/");
  }

  /** Neither the empty string nor the empty docblock has a description. */
  lemma EmptyDocBlockDescription()
    ensures GetDescription(Str("")) == ""
    ensures GetDescription(Str("/***/")) == ""
  {
    EmptyDocBlockLines();
    DescriptionByLine("/***/");
  }

  // ---------------------------------------------------------------------
  // The fixture docblock
  // ---------------------------------------------------------------------

  /** A description fragment as DESCRIPTION_PATTERN captures it. */
  predicate IsFragment(d: string) {
    |d| >= 2 && IsDescriptionStart(d[0]) && NoNewline(d)
  }

  /** The lines of a docblock shaped like the fixture: an opening line, a
      bare star, two description lines, a bare star, two tag lines, a bare
      star and the closing line. */
  function DocLines(d1: string, d2: string, t1: string, v1: string, t2: string, v2: string): seq<string> {
    ["/**", "*", "* " + d1, "* " + d2, "*", "* @" + t1 + " " + v1, "* @" + t2 + " " + v2, "*", "*/"]
  }

  predicate ShapeParts(d1: string, d2: string, t1: string, v1: string, t2: string, v2: string) {
    && IsFragment(d1) && IsFragment(d2)
    && IsTagName(t1) && |v1| > 0 && NoNewline(v1)
    && IsTagName(t2) && |v2| > 0 && NoNewline(v2)
  }

  lemma DocLinesSingle(d1: string, d2: string, t1: string, v1: string, t2: string, v2: string)
    requires ShapeParts(d1, d2, t1, v1, t2, v2)
    ensures var ls := DocLines(d1, d2, t1, v1, t2, v2);
            forall k :: 0 <= k < |ls| ==> NoNewline(ls[k])
  {
    var ls := DocLines(d1, d2, t1, v1, t2, v2);
    forall k | 0 <= k < |ls|
      ensures NoNewline(ls[k])
    {
      if k == 2 {
        DescriptionLine(d1);
      } else if k == 3 {
        DescriptionLine(d2);
      } else if k == 5 {
        TagLine(t1, v1);
      } else if k == 6 {
        TagLine(t2, v2);
      }
    }
  }

  /** The kinds of a fixture-shaped docblock. */
  function ShapeKinds(d1: string, d2: string, t1: string, v1: string, t2: string, v2: string): seq<LineKind> {
    [Other, Other, Desc(d1), Desc(d2), Other, Tag(Annotation(t1, v1)), Tag(Annotation(t2, v2)), Other, Other]
  }

  /** Each line of a fixture-shaped docblock has the kind its shape says. */
  lemma DocLineKind(d1: string, d2: string, t1: string, v1: string, t2: string, v2: string, k: nat)
    requires ShapeParts(d1, d2, t1, v1, t2, v2) && k < 9
    ensures var ls := DocLines(d1, d2, t1, v1, t2, v2);
            NoNewline(ls[k]) && ClassifyLine(ls[k]) == ShapeKinds(d1, d2, t1, v1, t2, v2)[k]
  {
    if k == 0 {
      OtherLine("/**");
    } else if k == 1 || k == 4 || k == 7 {
      OtherLine("*");
    } else if k == 8 {
      OtherLine("*/");
    } else if k == 2 {
      DescriptionLine(d1);
    } else if k == 3 {
      DescriptionLine(d2);
    } else if k == 5 {
      TagLine(t1, v1);
    } else {
      TagLine(t2, v2);
    }
  }

  lemma DocLinesKinds(d1: string, d2: string, t1: string, v1: string, t2: string, v2: string)
    requires ShapeParts(d1, d2, t1, v1, t2, v2)
    ensures var ls := DocLines(d1, d2, t1, v1, t2, v2);
            && (forall k :: 0 <= k < |ls| ==> NoNewline(ls[k]))
            && ClassifyAll(ls) == ShapeKinds(d1, d2, t1, v1, t2, v2)
  {
    var ls := DocLines(d1, d2, t1, v1, t2, v2);
    var want := ShapeKinds(d1, d2, t1, v1, t2, v2);
    DocLinesSingle(d1, d2, t1, v1, t2, v2);
    var r := ClassifyAll(ls);
    forall k | 0 <= k < 9
      ensures r[k] == want[k]
    {
      DocLineKind(d1, d2, t1, v1, t2, v2, k);
      ClassifyAllAt(ls, k);
    }
  }

  /** Each neighbouring pair of lines of a fixture-shaped docblock is safe. */
  lemma DocPairSafe(d1: string, d2: string, t1: string, v1: string, t2: string, v2: string, i: nat)
    requires ShapeParts(d1, d2, t1, v1, t2, v2) && i < 8
    ensures var ls := DocLines(d1, d2, t1, v1, t2, v2);
            PairSafe(ls[i], ls[i + 1], i == 7)
  {
    var ls := DocLines(d1, d2, t1, v1, t2, v2);
    if i == 2 || i == 3 || i == 5 || i == 6 {
      DocLineKind(d1, d2, t1, v1, t2, v2, i);
      ClassifiedLineSafe(ls[i]);
    } else if i == 7 {
      assert RunEnd(IsSpace, "*", 1) == 1;
    }
  }

  lemma DocLinesSafe(d1: string, d2: string, t1: string, v1: string, t2: string, v2: string)
    requires ShapeParts(d1, d2, t1, v1, t2, v2)
    ensures SafeLines(DocLines(d1, d2, t1, v1, t2, v2))
  {
    var ls := DocLines(d1, d2, t1, v1, t2, v2);
    forall j | 0 <= j && j + 1 < |ls|
      ensures PairSafe(ls[j], ls[j + 1], j + 2 == |ls|)
    {
      DocPairSafe(d1, d2, t1, v1, t2, v2, j);
    }
    SafeLinesAll(ls, 0);
    assert ls[0..] == ls;
  }

  lemma ShapeTags(d1: string, d2: string, t1: string, v1: string, t2: string, v2: string)
    ensures Project(ShapeKinds(d1, d2, t1, v1, t2, v2), LineTag) == [Annotation(t1, v1), Annotation(t2, v2)]
  {
    ProjectTwo(ShapeKinds(d1, d2, t1, v1, t2, v2), 5, 6, LineTag);
  }

  lemma ShapeDescriptions(d1: string, d2: string, t1: string, v1: string, t2: string, v2: string)
    ensures Project(ShapeKinds(d1, d2, t1, v1, t2, v2), LineDesc) == [d1, d2]
  {
    ProjectTwo(ShapeKinds(d1, d2, t1, v1, t2, v2), 2, 3, LineDesc);
  }

  /** Two annotations with different tags give a map of both. */
  lemma AssignTwo(a: Annotation, b: Annotation)
    ensures Assign([a, b]) == map[a.tag := a.value][b.tag := b.value]
  {
    assert [a, b][..1] == [a];
    assert [a][..0] == [];
  }

  lemma JoinTwo(x: string, y: string, sep: string)
    ensures Join([x, y], sep) == x + sep + y
  {
    assert [x, y][1..] == [y];
  }

  /** A fixture-shaped docblock passes the docblock check. */
  lemma DocLinesDelimited(d1: string, d2: string, t1: string, v1: string, t2: string, v2: string)
    ensures IsDelimited(Join(DocLines(d1, d2, t1, v1, t2, v2), "\n"))
  {
    var ls := DocLines(d1, d2, t1, v1, t2, v2);
    JoinEnds(ls, "\n");
  }

  /** Both results for any docblock shaped like the fixture. */
  lemma DocLinesResults(d1: string, d2: string, t1: string, v1: string, t2: string, v2: string)
    requires ShapeParts(d1, d2, t1, v1, t2, v2)
    ensures var s := Join(DocLines(d1, d2, t1, v1, t2, v2), "\n");
            && GetDescription(Str(s)) == d1 + " " + d2
            && GetAnnotations(Str(s)) == map[t1 := v1][t2 := v2]
  {
    var ls := DocLines(d1, d2, t1, v1, t2, v2);
    var s := Join(ls, "\n");
    DocLinesKinds(d1, d2, t1, v1, t2, v2);
    DocLinesSafe(d1, d2, t1, v1, t2, v2);
    DocLinesDelimited(d1, d2, t1, v1, t2, v2);
    assert s[0..] == s;
    JoinedLinesAt(s, 0, ls);
    NoSpillOfLines(s, 0, ls);
    LineKindsOfLines(s, 0, ls);
    ShapeTags(d1, d2, t1, v1, t2, v2);
    ShapeDescriptions(d1, d2, t1, v1, t2, v2);
    AssignTwo(Annotation(t1, v1), Annotation(t2, v2));
    JoinTwo(d1, d2, " ");
    AnnotationsByLine(s);
    DescriptionByLine(s);
  }

  /** The fixture text: its lines joined by newlines, with no newline after
      the last. */
  const Fixture: string :=
    Join(DocLines("The description", "Another description", "category", "test", "tags", "test one two three"), "\n")

  lemma JoinedDescription()
    ensures "The description" + " " + "Another description" == "The description Another description"
  {
  }

  /** The description of the fixture. */
  lemma FixtureDescription()
    ensures GetDescription(Str(Fixture)) == "The description Another description"
  {
    DocLinesResults("The description", "Another description", "category", "test", "tags", "test one two three");
    JoinedDescription();
  }

  /** The annotations of the fixture. */
  lemma FixtureAnnotations()
    ensures GetAnnotations(Str(Fixture)) == map["category" := "test", "tags" := "test one two three"]
  {
    DocLinesResults("The description", "Another description", "category", "test", "tags", "test one two three");
  }

  // ---------------------------------------------------------------------
  // Where the line reading and the patterns part ways
  // ---------------------------------------------------------------------

  /** After a bare `*` line, the `\s*` of ANNOTATION_PATTERN takes the
      newline, so a following `@tag value` line that does not itself open
      with `*` still yields the annotation, matched from the `*` line on;
      read line by line, neither line is a tag line. */
  lemma SpillAfterBareStar(tag: string, value: string)
    requires IsTagName(tag) && |value| > 0 && NoNewline(value)
    ensures var t := "*\n@" + tag + " " + value;
            MatchAnnotation(t) == Some(Match(Annotation(tag, value), |t|))
    ensures NoNewline("@" + tag + " " + value) && ClassifyLine("@" + tag + " " + value) == Other
    ensures ClassifyLine("*") == Other
  {
    var t := "*\n@" + tag + " " + value;
    var e := 3 + |tag|;
    assert t[3..e] == tag;
    assert t[e + 1..|t|] == value;
    MatchAnnotationAt(t, 2, e, |t|);
    var l := "@" + tag + " " + value;
    forall k | 0 <= k < |l|
      ensures l[k] != '\n'
    {
      if k >= 2 + |tag| {
        assert l[k] == value[k - 2 - |tag|];
      } else if k >= 1 {
        assert l[k] == (tag + " ")[k - 1];
      }
    }
    OtherLine(l);
    OtherLine("*");
  }

  // ---------------------------------------------------------------------
  // A line that feeds both results
  // ---------------------------------------------------------------------

  /** The lines of a docblock whose only tag name ends its line, with a
      description line after it. */
  function DanglingLines(tag: string, d: string): seq<string> {
    ["/**", "* @" + tag, "* " + d, "*/"]
  }

  /** The text `s` holds the lines of `DanglingLines(tag, d)`, each followed
      by a newline except the last. */
  ghost predicate DanglingText(s: string, tag: string, d: string) {
    var k1 := 7 + |tag|;
    var k2 := k1 + 3 + |d|;
    && |s| == k2 + 3
    && s[0..3] == "/**" && s[3] == '\n'
    && s[4..k1] == "* @" + tag && s[k1] == '\n'
    && s[k1 + 1..k2] == "* " + d && s[k2] == '\n'
    && s[k2 + 1..|s|] == "*/"
  }

  /** The joined lines are laid out that way. */
  lemma DanglingLayout(tag: string, d: string)
    requires IsTagName(tag) && IsFragment(d)
    ensures DanglingText(Join(DanglingLines(tag, d), "\n"), tag, d)
  {
    var ls := DanglingLines(tag, d);
    var s := Join(ls, "\n");
    var l1 := ls[1];
    forall x | 0 <= x < |l1|
      ensures l1[x] != '\n'
    {
      if x >= 3 {
        assert l1[x] == tag[x - 3];
      }
    }
    DescriptionLine(d);
    assert s[0..] == s;
    JoinedLinesAt(s, 0, ls);
    assert LinesAt(s, 4, ls[1..]);
    assert LinesAt(s, 8 + |tag|, ls[2..]);
    assert LinesAt(s, 11 + |tag| + |d|, ls[3..]);
  }

  /** The `\s` after the tag name takes the newline, so the value is the
      whole next line, star included. */
  lemma DanglingTagMatch(s: string, tag: string, d: string)
    requires IsTagName(tag) && IsFragment(d) && DanglingText(s, tag, d)
    ensures MatchAnnotation(s[4..]) == Some(Match(Annotation(tag, "* " + d), 6 + |tag| + |d|))
  {
    var u := s[4..];
    var e := 3 + |tag|;
    var f := 6 + |tag| + |d|;
    assert u[..e] == s[4..7 + |tag|];
    assert u[0] == '*' && u[1] == ' ' && u[2] == '@';
    assert u[3..e] == tag;
    assert u[e + 1..f] == s[8 + |tag|..10 + |tag| + |d|];
    assert u[e + 1..f] == "* " + d;
    assert forall k :: 2 < k < e ==> IsLetter(u[k]) by {
      forall k | 2 < k < e
        ensures IsLetter(u[k])
      {
        assert u[k] == tag[k - 3];
      }
    }
    assert forall k :: e < k < f ==> u[k] != '\n' by {
      forall k | e < k < f
        ensures u[k] != '\n'
      {
        assert u[k] == ("* " + d)[k - e - 1];
      }
    }
    MatchAnnotationAt(u, 2, e, f);
  }

  /** The first and the last line match neither pattern. */
  lemma DanglingEnds(s: string, tag: string, d: string)
    requires IsFragment(d) && DanglingText(s, tag, d)
    ensures var k2 := 10 + |tag| + |d|;
            && LineEnd(s, 0) == 3 && LineEnd(s, k2 + 1) == |s|
            && MatchAnnotation(s[0..]).None? && MatchDescription(s[0..]).None?
            && MatchAnnotation(s[k2 + 1..]).None? && MatchDescription(s[k2 + 1..]).None?
            && s[k2 - 1] != '\n'
  {
    var k2 := 10 + |tag| + |d|;
    assert s[0] == s[0..3][0];
    LineIs(s, 0, "/**");
    assert s[k2 + 1..] == "*/";
    LineIs(s, k2 + 1, "*/");
    assert s[k2 - 1] == s[8 + |tag|..k2][|d| + 1] == d[|d| - 1];
    assert RunEnd(IsSpace, "*/", 1) == 1;
  }

  /** A hit that runs to the end of the line before the last, followed by a
      last line that does not match, is all the scan finds from the hit on. */
  lemma ScanHitThenMiss<M>(s: string, matcher: string -> Option<Match<M>>, h: Hit<M>)
    requires WellBehaved(matcher)
    requires h.at < |s| && LineStart(s, h.at) && h.at + h.len + 1 < |s|
    requires matcher(s[h.at..]) == Some(Match(h.data, h.len))
    requires s[h.at + h.len - 1] != '\n' && s[h.at + h.len] == '\n'
    requires LineEnd(s, h.at + h.len + 1) == |s| && matcher(s[h.at + h.len + 1..]).None?
    ensures Scan(s, h.at, matcher) == [h]
  {
    var k := h.at + h.len;
    ScanLineMiss(s, k + 1, |s|, matcher);
    var last := Scan(s, k + 1, matcher);
    assert last == [];
    ScanLineHitIs(s, k, matcher, h);
    assert ScanAfter(s, k, matcher) == last;
  }

  /** A line that does not match, ending just before `q`, passes the scan
      on to `q`. */
  lemma ScanMissTo<M>(s: string, matcher: string -> Option<Match<M>>, p: nat, q: nat)
    requires WellBehaved(matcher)
    requires p < q < |s| && LineStart(s, p)
    requires LineEnd(s, p) == q - 1 && matcher(s[p..]).None?
    ensures Scan(s, p, matcher) == Scan(s, q, matcher)
  {
    ScanLineMiss(s, p, q - 1, matcher);
    assert ScanAfter(s, q - 1, matcher) == Scan(s, q, matcher);
  }

  /** The same after a first line that does not match. */
  lemma ScanMissHitMiss<M>(s: string, matcher: string -> Option<Match<M>>, h: Hit<M>)
    requires WellBehaved(matcher)
    requires 0 < h.at && h.at + h.len + 1 < |s|
    requires LineEnd(s, 0) == h.at - 1 && matcher(s[0..]).None?
    requires matcher(s[h.at..]) == Some(Match(h.data, h.len))
    requires s[h.at + h.len - 1] != '\n' && s[h.at + h.len] == '\n'
    requires LineEnd(s, h.at + h.len + 1) == |s| && matcher(s[h.at + h.len + 1..]).None?
    ensures Scan(s, 0, matcher) == [h]
  {
    ScanHitThenMiss(s, matcher, h);
    ScanMissTo(s, matcher, 0, h.at);
  }

  /** The same after two first lines that do not match, the second starting
      at `j`. */
  lemma ScanMissMissHitMiss<M>(s: string, matcher: string -> Option<Match<M>>, j: nat, h: Hit<M>)
    requires WellBehaved(matcher)
    requires 0 < j < h.at && h.at + h.len + 1 < |s|
    requires LineEnd(s, 0) == j - 1 && matcher(s[0..]).None?
    requires LineEnd(s, j) == h.at - 1 && matcher(s[j..]).None?
    requires matcher(s[h.at..]) == Some(Match(h.data, h.len))
    requires s[h.at + h.len - 1] != '\n' && s[h.at + h.len] == '\n'
    requires LineEnd(s, h.at + h.len + 1) == |s| && matcher(s[h.at + h.len + 1..]).None?
    ensures Scan(s, 0, matcher) == [h]
  {
    ScanHitThenMiss(s, matcher, h);
    assert s[j - 1] == '\n';
    ScanMissTo(s, matcher, j, h.at);
    ScanMissTo(s, matcher, 0, j);
  }

  /** The match of ANNOTATION_PATTERN on the tag line, as the scan sees it. */
  function DanglingHit(tag: string, d: string): Hit<Annotation> {
    Hit(4, Annotation(tag, "* " + d), 6 + |tag| + |d|)
  }

  /** ANNOTATION_PATTERN fails on the first and the last line and matches
      from the tag line to the end of the line after it. */
  lemma DanglingTagLines(s: string, tag: string, d: string, h: Hit<Annotation>)
    requires IsTagName(tag) && IsFragment(d) && DanglingText(s, tag, d)
    requires h == DanglingHit(tag, d)
    ensures 0 < h.at && h.at + h.len + 1 < |s|
    ensures LineEnd(s, 0) == h.at - 1 && MatchAnnotation(s[0..]).None?
    ensures MatchAnnotation(s[h.at..]) == Some(Match(h.data, h.len))
    ensures s[h.at + h.len - 1] != '\n' && s[h.at + h.len] == '\n'
    ensures LineEnd(s, h.at + h.len + 1) == |s| && MatchAnnotation(s[h.at + h.len + 1..]).None?
  {
    DanglingTagMatch(s, tag, d);
    DanglingEnds(s, tag, d);
  }

  /** The scan of ANNOTATION_PATTERN finds that one annotation, spanning two
      lines. */
  lemma DanglingTagHits(s: string, tag: string, d: string)
    requires IsTagName(tag) && IsFragment(d) && DanglingText(s, tag, d)
    ensures TagHits(s) == [DanglingHit(tag, d)]
  {
    var h := DanglingHit(tag, d);
    DanglingTagLines(s, tag, d, h);
    MatchersWellBehaved();
    ScanMissHitMiss(s, MatchAnnotation, h);
  }

  /** DESCRIPTION_PATTERN fails on the tag line and matches the line after
      it. */
  lemma DanglingDescriptionMatch(s: string, tag: string, d: string)
    requires IsTagName(tag) && IsFragment(d) && DanglingText(s, tag, d)
    ensures LineEnd(s, 4) == 7 + |tag| && MatchDescription(s[4..]).None?
    ensures MatchDescription(s[8 + |tag|..]) == Some(Match(d, 2 + |d|))
  {
    var k1 := 7 + |tag|;
    var u := s[4..];
    assert u[..3] == s[4..k1][..3];
    assert u[0] == '*' && u[1] == ' ' && u[2] == '@';
    RunEndIs(IsSpace, u, 1, 2);
    var l1 := "* @" + tag;
    forall x | 0 <= x < |l1|
      ensures l1[x] != '\n'
    {
      if x >= 3 {
        assert l1[x] == tag[x - 3];
      }
    }
    LineIs(s, 4, l1);
    var w := s[k1 + 1..];
    assert w[..2 + |d|] == "* " + d;
    assert IsDescriptionText(w[..2 + |d|], d) by {
      var l := w[..2 + |d|];
      assert l[1..2] == " ";
      assert l[2..] == d;
    }
    MatchDescriptionComplete(w, 2 + |d|, d);
  }

  /** The match of DESCRIPTION_PATTERN on the line after the tag line. */
  function DanglingDescriptionHit(tag: string, d: string): Hit<string> {
    Hit(8 + |tag|, d, 2 + |d|)
  }

  /** DESCRIPTION_PATTERN fails on every line but the one after the tag
      line. */
  lemma DanglingDescriptionLines(s: string, tag: string, d: string, h: Hit<string>)
    requires IsTagName(tag) && IsFragment(d) && DanglingText(s, tag, d)
    requires h == DanglingDescriptionHit(tag, d)
    ensures 0 < 4 < h.at && h.at + h.len + 1 < |s|
    ensures LineEnd(s, 0) == 3 && MatchDescription(s[0..]).None?
    ensures LineEnd(s, 4) == h.at - 1 && MatchDescription(s[4..]).None?
    ensures MatchDescription(s[h.at..]) == Some(Match(h.data, h.len))
    ensures s[h.at + h.len - 1] != '\n' && s[h.at + h.len] == '\n'
    ensures LineEnd(s, h.at + h.len + 1) == |s| && MatchDescription(s[h.at + h.len + 1..]).None?
  {
    DanglingDescriptionMatch(s, tag, d);
    DanglingEnds(s, tag, d);
  }

  /** The scan of DESCRIPTION_PATTERN skips the tag line and finds the line
      after it. */
  lemma DanglingDescriptionHits(s: string, tag: string, d: string)
    requires IsTagName(tag) && IsFragment(d) && DanglingText(s, tag, d)
    ensures DescriptionHits(s) == [DanglingDescriptionHit(tag, d)]
  {
    var h := DanglingDescriptionHit(tag, d);
    DanglingDescriptionLines(s, tag, d, h);
    MatchersWellBehaved();
    ScanMissMissHitMiss(s, MatchDescription, 4, h);
  }

  /** When a tag name ends its line, the line after it is both the tag's
      value and part of the description: one line feeds both results. */
  lemma DanglingTagFeedsBoth(tag: string, d: string)
    requires IsTagName(tag) && IsFragment(d)
    ensures var s := Join(DanglingLines(tag, d), "\n");
            && GetAnnotations(Str(s)) == map[tag := "* " + d]
            && GetDescription(Str(s)) == d
  {
    var ls := DanglingLines(tag, d);
    var s := Join(ls, "\n");
    JoinEnds(ls, "\n");
    DanglingLayout(tag, d);
    DanglingTagHits(s, tag, d);
    DanglingDescriptionHits(s, tag, d);
    var a := Annotation(tag, "* " + d);
    assert Datas([DanglingHit(tag, d)]) == [a];
    assert [a][..0] == [];
    assert Datas([DanglingDescriptionHit(tag, d)]) == [d];
  }

  /** The docblock `/**`, `* @tag`, `* foo bar`, `*/`, its lines joined by
      newlines. */
  const DanglingDoc: string := Join(DanglingLines("tag", "foo bar"), "\n")

  lemma DanglingParts()
    ensures IsTagName("tag") && IsFragment("foo bar") && "* " + "foo bar" == "* foo bar"
  {
  }

  /** Its annotations hold the line `* foo bar` as the value of `tag`, and
      its description is that same line's text. */
  lemma DanglingDocResults()
    ensures GetAnnotations(Str(DanglingDoc)) == map["tag" := "* foo bar"]
    ensures GetDescription(Str(DanglingDoc)) == "foo bar"
  {
    DanglingParts();
    DanglingTagFeedsBoth("tag", "foo bar");
  }
}
