/**
 A line-by-line reading of the two multiline patterns, used as an
 independent reference for what `getAnnotations` and `getDescription`
 compute.

 Each line of the text (split at newlines) is classified on its own as a
 tag line, a description line or neither. The character-level scan agrees
 with this reading except where a `\s` of a pattern swallows a newline:
 after a line holding only `*` and whitespace, the whitespace run goes on
 into the next line; after a tag name that ends its line, the single `\s`
 takes the newline and the value is read from the next line. `NoSpill`
 rules out exactly those two situations, and under it the two readings give
 the same annotations and the same description.
 */
module Lines {
  import opened Text
  import opened Scanner
  import opened Patterns
  import opened Parser

  datatype LineKind = Tag(a: Annotation) | Desc(text: string) | Other

  /** Every annotation text of a line is what `MatchAnnotation` finds there. */
  lemma ClassifyComplete(l: string)
    requires NoNewline(l)
    ensures forall a :: IsAnnotationText(l, a) ==> MatchAnnotation(l) == Some(Match(a, |l|))
    ensures forall d :: IsDescriptionText(l, d) ==> MatchDescription(l) == Some(Match(d, |l|))
  {
    assert l[..|l|] == l;
    forall a | IsAnnotationText(l, a)
      ensures MatchAnnotation(l) == Some(Match(a, |l|))
    {
      MatchAnnotationComplete(l, |l|, a);
    }
    forall d | IsDescriptionText(l, d)
      ensures MatchDescription(l) == Some(Match(d, |l|))
    {
      MatchDescriptionComplete(l, |l|, d);
    }
  }

  /** A single line classified in isolation. */
  function ClassifyLine(l: string): (r: LineKind)
    requires NoNewline(l)
  {
    match MatchAnnotation(l)
    case Some(m) => Tag(m.data)
    case None =>
      match MatchDescription(l)
      case Some(m) => Desc(m.data)
      case None => Other
  }

  /** A line is a tag line exactly when it has the annotation shape, and a
      description line exactly when it has the description shape. */
  lemma ClassifyLineSpec(l: string)
    requires NoNewline(l)
    ensures var r := ClassifyLine(l);
            && (r.Tag? ==> IsAnnotationText(l, r.a))
            && (r.Desc? ==> IsDescriptionText(l, r.text))
            && (forall a :: IsAnnotationText(l, a) ==> r == Tag(a))
            && (forall d :: IsDescriptionText(l, d) ==> r == Desc(d))
  {
    ClassifyComplete(l);
    AnnotationExcludesDescription(l);
    MatchAnnotationSound(l);
    MatchDescriptionSound(l);
    match MatchAnnotation(l)
    case Some(m) =>
      assert l[..m.len] == l;
    case None =>
      match MatchDescription(l)
      case Some(m) =>
        assert l[..m.len] == l;
      case None =>
  }

  /** A line `* d`, with `d` a description fragment, is a description
      line. */
  lemma DescriptionLine(d: string)
    requires |d| >= 2 && IsDescriptionStart(d[0]) && NoNewline(d)
    ensures NoNewline("* " + d) && ClassifyLine("* " + d) == Desc(d)
  {
    var l := "* " + d;
    assert l[1..2] == " ";
    assert l[2..] == d;
    assert IsDescriptionText(l, d);
    ClassifyLineSpec(l);
  }

  /** A line `* @tag value` is a tag line. */
  lemma TagLine(tag: string, value: string)
    requires IsTagName(tag) && |value| > 0 && NoNewline(value)
    ensures NoNewline("* @" + tag + " " + value)
    ensures ClassifyLine("* @" + tag + " " + value) == Tag(Annotation(tag, value))
  {
    var l := "* @" + tag + " " + value;
    assert l[1..2] == " ";
    assert l[3..3 + |tag|] == tag;
    assert l[4 + |tag|..] == value;
    assert IsAnnotationText(l, Annotation(tag, value));
    ClassifyLineSpec(l);
  }

  /** A line that does not open with `*`, or that is `*` followed by at most
      a `/`, is neither a tag line nor a description line. */
  lemma OtherLine(l: string)
    requires NoNewline(l)
    requires (|l| > 0 && l[0] != '*') || l == "*" || l == "*/"
    ensures ClassifyLine(l) == Other
  {
    if l == "*" || l == "*/" {
      assert RunEnd(IsSpace, l, 1) == 1;
    }
  }

  /** A tag line or a description line is neither a bare star nor a dangling
      tag, so it is safe whatever follows it. */
  lemma ClassifiedLineSafe(l: string)
    requires NoNewline(l) && !ClassifyLine(l).Other?
    ensures !BareStar(l) && !DanglingTag(l)
  {
  }

  /** The lines of the text from the line starting at `i` on, split at the
      newlines. */
  function SplitLines(s: string, i: nat): (r: seq<string>)
    requires i <= |s|
    ensures |r| > 0
    decreases |s| - i
  {
    var k := LineEnd(s, i);
    [s[i..k]] + (if k < |s| then SplitLines(s, k + 1) else [])
  }

  /** No line holds a newline. */
  lemma {:induction false} SplitLinesSingle(s: string, i: nat)
    requires i <= |s|
    ensures forall x :: 0 <= x < |SplitLines(s, i)| ==> NoNewline(SplitLines(s, i)[x])
    decreases |s| - i
  {
    var k := LineEnd(s, i);
    if k < |s| {
      SplitLinesSingle(s, k + 1);
    }
  }

  /** The line view of a text whose line at `i` is `l`, followed by the
      lines `rest`. */
  lemma SplitCons(s: string, i: nat, k: nat, l: string, rest: seq<string>)
    requires i <= k < |s| && k == LineEnd(s, i) && s[i..k] == l
    requires SplitLines(s, k + 1) == rest
    ensures SplitLines(s, i) == [l] + rest
  {
  }

  /** The classification of every line from the line starting at `i` on. */
  function LineKinds(s: string, i: nat): seq<LineKind>
    requires i <= |s|
  {
    SplitLinesSingle(s, i);
    ClassifyAll(SplitLines(s, i))
  }

  /** The line view from `i` is the kind of the line at `i`, then the line
      view from the next line on. */
  lemma LineKindsStep(s: string, i: nat)
    requires i <= |s|
    ensures var k := LineEnd(s, i);
            LineKinds(s, i) == [ClassifyLine(s[i..k])] + (if k < |s| then LineKinds(s, k + 1) else [])
  {
    var k := LineEnd(s, i);
    var ls := SplitLines(s, i);
    SplitLinesSingle(s, i);
    assert ls[0] == s[i..k];
    assert ls[1..] == if k < |s| then SplitLines(s, k + 1) else [];
  }

  function LineTag(kind: LineKind): Option<Annotation> {
    if kind.Tag? then Some(kind.a) else None
  }

  function LineDesc(kind: LineKind): Option<string> {
    if kind.Desc? then Some(kind.text) else None
  }

  /** What `project` picks out of one line kind: nothing or one value. */
  function Pick<M>(kind: LineKind, project: LineKind -> Option<M>): seq<M> {
    match project(kind) case Some(x) => [x] case None => []
  }

  /** The values `project` picks out of the line kinds, in order. */
  function Project<M>(kinds: seq<LineKind>, project: LineKind -> Option<M>): (r: seq<M>)
    ensures |r| <= |kinds|
  {
    if |kinds| == 0 then [] else Pick(kinds[0], project) + Project(kinds[1..], project)
  }

  // ---------------------------------------------------------------------
  // When a pattern cannot cross a line end
  // ---------------------------------------------------------------------

  /** A `*` followed by whitespace only. */
  predicate BareStar(l: string) {
    |l| > 0 && l[0] == '*' && RunEnd(IsSpace, l, 1) == |l|
  }

  /** A `*`, whitespace, `@` and a tag name that runs to the end of the line,
      leaving no room for the separator and the value. */
  predicate DanglingTag(l: string) {
    && |l| > 0 && l[0] == '*'
    && var j := RunEnd(IsSpace, l, 1);
    && j + 1 < |l| && l[j] == '@'
    && RunEnd(IsLetter, l, j + 1) == |l|
  }

  /** The line starting at `i`, if a newline ends it, lets neither pattern
      run on into the next line: a bare-star line is followed by the end of
      the text or by a line whose first character is `*` or `/`, and no tag
      name runs to the line end. */
  predicate LineSafe(s: string, i: nat)
    requires i <= |s|
  {
    var k := LineEnd(s, i);
    k < |s| ==>
      && (BareStar(s[i..k]) ==> k + 1 == |s| || s[k + 1] == '*' || s[k + 1] == '/')
      && !DanglingTag(s[i..k])
  }

  /** Every line from the one starting at `i` on is safe. */
  predicate NoSpillFrom(s: string, i: nat)
    requires i <= |s|
    decreases |s| - i
  {
    var k := LineEnd(s, i);
    LineSafe(s, i) && (k < |s| ==> NoSpillFrom(s, k + 1))
  }

  predicate NoSpill(s: string) {
    NoSpillFrom(s, 0)
  }

  /** Under the line conditions, ANNOTATION_PATTERN sees the same thing at
      the front of a line whether or not the rest of the text follows. */
  lemma AnnotationLocal(l: string, rest: string)
    requires NoNewline(l)
    requires rest == [] || rest[0] == '\n'
    requires |rest| > 0 ==> (BareStar(l) ==> |rest| == 1 || rest[1] == '*' || rest[1] == '/')
    requires |rest| > 0 ==> !DanglingTag(l)
    ensures MatchAnnotation(l + rest) == MatchAnnotation(l)
  {
    var t := l + rest;
    if rest == [] {
      assert t == l;
    } else if |l| > 0 && l[0] == '*' {
      var j := RunEnd(IsSpace, l, 1);
      if j < |l| {
        if l[j] == '@' {
          AnnotationLocalAt(l, rest, j);
        } else {
          RunStopsInside(IsSpace, l, rest, 1);
          assert t[0] == '*' && t[j] == l[j];
        }
      } else {
        BareStarLocal(l, rest);
      }
    } else {
      assert t[0] != '*';
    }
  }

  /** After a bare-star line the whitespace run crosses the newline and stops
      at a `*`, a `/` or the end of the text, where neither pattern goes on. */
  lemma BareStarLocal(l: string, rest: string)
    requires NoNewline(l) && BareStar(l)
    requires |rest| > 0 && rest[0] == '\n'
    requires |rest| == 1 || rest[1] == '*' || rest[1] == '/'
    ensures var t := l + rest;
            var j := RunEnd(IsSpace, t, 1);
            t[0] == '*' && (j == |t| || t[j] == '*' || t[j] == '/')
  {
    var t := l + rest;
    assert t[0] == '*';
    RunRunsThrough(IsSpace, l, rest, 1);
    assert t[|l|] == '\n';
    if |rest| == 1 {
      RunEndIs(IsSpace, t, |l|, |t|);
    } else {
      assert t[|l| + 1] == rest[1];
      RunEndIs(IsSpace, t, |l|, |l| + 1);
    }
  }

  /** The case of `AnnotationLocal` where the line has `*`, whitespace, `@`. */
  lemma AnnotationLocalAt(l: string, rest: string, j: nat)
    requires NoNewline(l)
    requires |rest| > 0 && rest[0] == '\n'
    requires !DanglingTag(l)
    requires |l| > 0 && l[0] == '*'
    requires j == RunEnd(IsSpace, l, 1) && j < |l| && l[j] == '@'
    ensures MatchAnnotation(l + rest) == MatchAnnotation(l)
  {
    var t := l + rest;
    RunStopsInside(IsSpace, l, rest, 1);
    assert t[0] == '*' && t[j] == '@';
    var e := RunEnd(IsLetter, l, j + 1);
    if e < |l| {
      RunStopsInside(IsLetter, l, rest, j + 1);
      assert t[e] == l[e];
      if e > j + 1 && IsSpace(l[e]) {
        if e + 1 < |l| {
          AnnotationLocalValue(l, rest, j, e);
        } else {
          AnnotationLocalNoValue(l, rest, j, e);
        }
      }
    } else {
      assert e == j + 1;
      RunRunsThrough(IsLetter, l, rest, j + 1);
      assert t[|l|] == '\n';
      RunEndIs(IsLetter, t, |l|, |l|);
    }
  }

  /** The case of `AnnotationLocal` where the tag name and its separator lie
      inside the line: the value runs to the line end in both texts. */
  lemma AnnotationLocalValue(l: string, rest: string, j: nat, e: nat)
    requires NoNewline(l)
    requires |rest| > 0 && rest[0] == '\n'
    requires 0 < j && j + 1 < e && e + 1 < |l|
    requires l[0] == '*' && l[j] == '@' && IsSpace(l[e])
    requires forall k :: 1 <= k < j ==> IsSpace(l[k])
    requires forall k :: j < k < e ==> IsLetter(l[k])
    ensures MatchAnnotation(l + rest) == MatchAnnotation(l)
  {
    var t := l + rest;
    assert forall k :: 0 <= k < |l| ==> t[k] == l[k];
    assert t[|l|] == '\n';
    MatchAnnotationAt(l, j, e, |l|);
    MatchAnnotationAt(t, j, e, |l|);
    assert t[j + 1..e] == l[j + 1..e];
    assert t[e + 1..|l|] == l[e + 1..|l|];
  }

  /** The case of `AnnotationLocal` where the separator ends the line: both
      texts leave the value empty. */
  lemma AnnotationLocalNoValue(l: string, rest: string, j: nat, e: nat)
    requires |rest| > 0 && rest[0] == '\n'
    requires 0 < j && j + 1 < e && e + 1 == |l|
    requires l[0] == '*' && l[j] == '@' && IsSpace(l[e])
    requires j == RunEnd(IsSpace, l, 1) && j == RunEnd(IsSpace, l + rest, 1)
    requires e == RunEnd(IsLetter, l, j + 1) && e == RunEnd(IsLetter, l + rest, j + 1)
    ensures MatchAnnotation(l + rest) == MatchAnnotation(l) == None
  {
    var t := l + rest;
    assert t[0] == '*' && t[j] == '@' && t[e] == l[e];
    assert t[|l|] == '\n';
    RunEndIs(NotNewline, t, e + 1, e + 1);
  }

  /** Under the line conditions, DESCRIPTION_PATTERN sees the same thing at
      the front of a line whether or not the rest of the text follows. */
  lemma DescriptionLocal(l: string, rest: string)
    requires NoNewline(l)
    requires rest == [] || rest[0] == '\n'
    requires |rest| > 0 ==> (BareStar(l) ==> |rest| == 1 || rest[1] == '*' || rest[1] == '/')
    ensures MatchDescription(l + rest) == MatchDescription(l)
  {
    var t := l + rest;
    if rest == [] {
      assert t == l;
    } else if |l| > 0 && l[0] == '*' {
      assert t[0] == '*';
      var j := RunEnd(IsSpace, l, 1);
      if j < |l| {
        RunStopsInside(IsSpace, l, rest, 1);
        assert t[j] == l[j];
        if IsDescriptionStart(l[j]) {
          RunRunsThrough(NotNewline, l, rest, j + 1);
          assert t[|l|] == '\n';
          RunEndIs(NotNewline, t, |l|, |l|);
          assert t[j..|l|] == l[j..|l|];
        }
      } else {
        BareStarLocal(l, rest);
      }
    } else {
      assert t[0] != '*';
    }
  }

  // ---------------------------------------------------------------------
  // The scan proceeds line by line
  // ---------------------------------------------------------------------

  /** At line start `i` the matcher, run on the rest of the text, matches
      exactly the whole line and captures what the classifier picks out of
      it, or fails where the classifier picks nothing. */
  ghost predicate Agrees<M>(s: string, i: nat, matcher: string -> Option<Match<M>>, project: LineKind -> Option<M>)
    requires i <= |s|
  {
    var k := LineEnd(s, i);
    match matcher(s[i..])
    case None => project(ClassifyLine(s[i..k])).None?
    case Some(m) => i + m.len == k && project(ClassifyLine(s[i..k])) == Some(m.data)
  }

  ghost predicate AgreesFrom<M>(s: string, i: nat, matcher: string -> Option<Match<M>>, project: LineKind -> Option<M>)
    requires i <= |s|
    decreases |s| - i
  {
    var k := LineEnd(s, i);
    Agrees(s, i, matcher, project) && (k < |s| ==> AgreesFrom(s, k + 1, matcher, project))
  }

  /** The hits of the scan from the line after the one ending at `k`. */
  function ScanAfter<M>(s: string, k: nat, matcher: string -> Option<Match<M>>): seq<Hit<M>>
    requires k <= |s|
    requires WellBehaved(matcher)
  {
    if k == |s| then [] else Scan(s, k + 1, matcher)
  }

  /** Inside a line the scan finds nothing new: from any offset after the
      line's first character it goes on at the next line. */
  lemma {:induction false} ScanSkipsRestOfLine<M>(s: string, j: nat, k: nat, matcher: string -> Option<Match<M>>)
    requires WellBehaved(matcher)
    requires 0 < j <= k <= |s| && EndsLine(s, k)
    requires forall x :: j - 1 <= x < k ==> s[x] != '\n'
    ensures Scan(s, j, matcher) == ScanAfter(s, k, matcher)
    decreases k - j
  {
    if j < k {
      ScanMiss(s, j, matcher);
      ScanSkipsRestOfLine(s, j + 1, k, matcher);
    } else if k < |s| {
      ScanMiss(s, k, matcher);
    }
  }

  lemma DatasCons<M>(h: Hit<M>, rest: seq<Hit<M>>)
    ensures Datas([h] + rest) == [h.data] + Datas(rest)
  {
    assert ([h] + rest)[1..] == rest;
  }

  /** The hits the scan collects from line start `i`: what the line
      contributes, then the hits from the next line on. */
  lemma ScanOneLine<M>(s: string, i: nat, matcher: string -> Option<Match<M>>, project: LineKind -> Option<M>)
    requires i <= |s| && LineStart(s, i)
    requires WellBehaved(matcher)
    requires Agrees(s, i, matcher, project)
    ensures var k := LineEnd(s, i);
            Datas(Scan(s, i, matcher)) == Pick(ClassifyLine(s[i..k]), project) + Datas(ScanAfter(s, k, matcher))
  {
    var k := LineEnd(s, i);
    var picked := Pick(ClassifyLine(s[i..k]), project);
    if i == |s| {
      assert s[i..] == [];
      assert picked == [];
    } else if matcher(s[i..]).Some? {
      var m := matcher(s[i..]).value;
      assert picked == [m.data];
      assert s[k - 1] != '\n';
      ScanLineHitData(s, i, k, matcher);
    } else {
      assert picked == [];
      ScanLineMiss(s, i, k, matcher);
    }
  }

  lemma ScanLineHitData<M>(s: string, i: nat, k: nat, matcher: string -> Option<Match<M>>)
    requires i < |s| && LineStart(s, i)
    requires i < k <= |s| && EndsLine(s, k) && s[k - 1] != '\n'
    requires WellBehaved(matcher)
    requires matcher(s[i..]).Some? && k == i + matcher(s[i..]).value.len
    ensures Datas(Scan(s, i, matcher)) == [matcher(s[i..]).value.data] + Datas(ScanAfter(s, k, matcher))
  {
    var m := matcher(s[i..]).value;
    ScanLineHit(s, i, k, matcher);
    DatasCons(Hit(i, m.data, m.len), ScanAfter(s, k, matcher));
  }

  /** Where the pattern fails at a line start, the scan goes on at the next
      line. */
  lemma ScanLineMiss<M>(s: string, i: nat, k: nat, matcher: string -> Option<Match<M>>)
    requires i < |s| && LineStart(s, i) && matcher(s[i..]).None?
    requires k == LineEnd(s, i)
    requires WellBehaved(matcher)
    ensures Scan(s, i, matcher) == ScanAfter(s, k, matcher)
  {
    ScanMiss(s, i, matcher);
    if i < k {
      ScanSkipsRestOfLine(s, i + 1, k, matcher);
    }
  }

  /** A hit that covers its whole line is followed by the hits from the next
      line on. */
  lemma ScanLineHit<M>(s: string, i: nat, k: nat, matcher: string -> Option<Match<M>>)
    requires i < |s| && LineStart(s, i)
    requires i < k <= |s| && EndsLine(s, k) && s[k - 1] != '\n'
    requires WellBehaved(matcher)
    requires matcher(s[i..]).Some? && k == i + matcher(s[i..]).value.len
    ensures var m := matcher(s[i..]).value;
            Scan(s, i, matcher) == [Hit(i, m.data, m.len)] + ScanAfter(s, k, matcher)
  {
    ScanHit(s, i, matcher);
    if k < |s| {
      ScanMiss(s, k, matcher);
    }
  }

  /** `ScanLineHit` for a hit known in advance. */
  lemma ScanLineHitIs<M>(s: string, k: nat, matcher: string -> Option<Match<M>>, h: Hit<M>)
    requires h.at < |s| && LineStart(s, h.at)
    requires h.at < k <= |s| && EndsLine(s, k) && s[k - 1] != '\n'
    requires WellBehaved(matcher)
    requires matcher(s[h.at..]) == Some(Match(h.data, h.len)) && k == h.at + h.len
    ensures Scan(s, h.at, matcher) == [h] + ScanAfter(s, k, matcher)
  {
    ScanLineHit(s, h.at, k, matcher);
  }

  /** One step of `Project` along a suffix of the kinds. */
  lemma ProjectFrom<M>(kinds: seq<LineKind>, i: nat, project: LineKind -> Option<M>)
    requires i < |kinds|
    ensures Project(kinds[i..], project) == Pick(kinds[i], project) + Project(kinds[i + 1..], project)
  {
    assert kinds[i..][1..] == kinds[i + 1..];
  }

  /** Kinds from which `project` picks nothing add nothing. */
  lemma {:induction false} ProjectSkip<M>(kinds: seq<LineKind>, i: nat, j: nat, project: LineKind -> Option<M>)
    requires i <= j <= |kinds|
    requires forall k :: i <= k < j ==> project(kinds[k]).None?
    ensures Project(kinds[i..], project) == Project(kinds[j..], project)
    decreases j - i
  {
    if i < j {
      ProjectFrom(kinds, i, project);
      ProjectSkip(kinds, i + 1, j, project);
    }
  }

  /** A suffix from which `project` picks only the value at its front. */
  lemma ProjectLast<M>(kinds: seq<LineKind>, j: nat, project: LineKind -> Option<M>)
    requires j < |kinds| && project(kinds[j]).Some?
    requires forall k :: j < k < |kinds| ==> project(kinds[k]).None?
    ensures Project(kinds[j..], project) == [project(kinds[j]).value]
  {
    ProjectFrom(kinds, j, project);
    ProjectSkip(kinds, j + 1, |kinds|, project);
    assert kinds[|kinds|..] == [];
  }

  /** A suffix from which `project` picks only the values at `i` and `j`. */
  lemma ProjectTwoFrom<M>(kinds: seq<LineKind>, i: nat, j: nat, project: LineKind -> Option<M>)
    requires i < j < |kinds|
    requires project(kinds[i]).Some? && project(kinds[j]).Some?
    requires forall k :: i < k < |kinds| && k != j ==> project(kinds[k]).None?
    ensures Project(kinds[i..], project) == [project(kinds[i]).value, project(kinds[j]).value]
  {
    ProjectLast(kinds, j, project);
    ProjectFrom(kinds, i, project);
    ProjectSkip(kinds, i + 1, j, project);
  }

  /** Kinds from which `project` picks exactly the values at `i` and `j`
      project to those two values. */
  lemma ProjectTwo<M>(kinds: seq<LineKind>, i: nat, j: nat, project: LineKind -> Option<M>)
    requires i < j < |kinds|
    requires project(kinds[i]).Some? && project(kinds[j]).Some?
    requires forall k :: 0 <= k < |kinds| && k != i && k != j ==> project(kinds[k]).None?
    ensures Project(kinds, project) == [project(kinds[i]).value, project(kinds[j]).value]
  {
    ProjectTwoFrom(kinds, i, j, project);
    ProjectSkip(kinds, 0, i, project);
    assert kinds[0..] == kinds;
  }

  lemma ProjectOfCons<M>(head: LineKind, rest: seq<LineKind>, project: LineKind -> Option<M>)
    ensures Project([head] + rest, project) == Pick(head, project) + Project(rest, project)
  {
    assert ([head] + rest)[1..] == rest;
  }

  /** `Project` over the line view, one line at a time. */
  lemma LineKindsProject<M>(s: string, i: nat, project: LineKind -> Option<M>)
    requires i <= |s|
    ensures var k := LineEnd(s, i);
            Project(LineKinds(s, i), project) ==
              Pick(ClassifyLine(s[i..k]), project) + (if k < |s| then Project(LineKinds(s, k + 1), project) else [])
  {
    var k := LineEnd(s, i);
    var rest := if k < |s| then LineKinds(s, k + 1) else [];
    LineKindsStep(s, i);
    ProjectOfCons(ClassifyLine(s[i..k]), rest, project);
  }

  lemma {:induction false} ScanIsLineByLine<M>(s: string, i: nat, matcher: string -> Option<Match<M>>, project: LineKind -> Option<M>)
    requires i <= |s| && LineStart(s, i)
    requires WellBehaved(matcher)
    requires AgreesFrom(s, i, matcher, project)
    ensures Datas(Scan(s, i, matcher)) == Project(LineKinds(s, i), project)
    decreases |s| - i
  {
    var k := LineEnd(s, i);
    LineKindsProject(s, i, project);
    if k < |s| {
      ScanIsLineByLine(s, k + 1, matcher, project);
    }
    ScanOneLine(s, i, matcher, project);
  }

  // ---------------------------------------------------------------------
  // Both patterns agree with the classifier on safe lines
  // ---------------------------------------------------------------------

  lemma LineSplit(s: string, i: nat)
    requires i <= |s|
    ensures var k := LineEnd(s, i);
            && s[i..] == s[i..k] + s[k..]
            && (s[k..] == [] || s[k..][0] == '\n')
            && (|s[k..]| > 1 ==> s[k..][1] == s[k + 1])
  {
  }

  /** One safe line: ANNOTATION_PATTERN at its start matches the whole line
      exactly when the classifier calls it a tag line, with the same pair. */
  lemma TagLineAgrees(s: string, i: nat)
    requires i <= |s|
    requires LineSafe(s, i)
    ensures Agrees(s, i, MatchAnnotation, LineTag)
  {
    var k := LineEnd(s, i);
    var l := s[i..k];
    LineSplit(s, i);
    AnnotationLocal(l, s[k..]);
    if MatchAnnotation(l).Some? {
      assert l[..MatchAnnotation(l).value.len] == l;
    }
  }

  lemma {:induction false} TagLinesAgree(s: string, i: nat)
    requires i <= |s|
    requires NoSpillFrom(s, i)
    ensures AgreesFrom(s, i, MatchAnnotation, LineTag)
    decreases |s| - i
  {
    var k := LineEnd(s, i);
    if k < |s| {
      TagLinesAgree(s, k + 1);
    }
    TagLineAgrees(s, i);
  }

  /** One safe line: DESCRIPTION_PATTERN at its start matches the whole line
      exactly when the classifier calls it a description line, with the same
      fragment. */
  lemma DescriptionLineAgrees(s: string, i: nat)
    requires i <= |s|
    requires LineSafe(s, i)
    ensures Agrees(s, i, MatchDescription, LineDesc)
  {
    var k := LineEnd(s, i);
    var l := s[i..k];
    LineSplit(s, i);
    DescriptionLocal(l, s[k..]);
    AnnotationExcludesDescription(l);
    if MatchDescription(l).Some? {
      assert l[..MatchDescription(l).value.len] == l;
    }
  }

  lemma {:induction false} DescriptionLinesAgree(s: string, i: nat)
    requires i <= |s|
    requires NoSpillFrom(s, i)
    ensures AgreesFrom(s, i, MatchDescription, LineDesc)
    decreases |s| - i
  {
    var k := LineEnd(s, i);
    if k < |s| {
      DescriptionLinesAgree(s, k + 1);
    }
    DescriptionLineAgrees(s, i);
  }

  // ---------------------------------------------------------------------
  // The results, line by line
  // ---------------------------------------------------------------------

  /** Without spill, `getAnnotations` assigns the tag lines in order. */
  lemma AnnotationsByLine(s: string)
    requires NoSpill(s)
    ensures GetAnnotations(Str(s)) ==
              if IsDelimited(s) then Assign(Project(LineKinds(s, 0), LineTag)) else map[]
  {
    MatchersWellBehaved();
    TagLinesAgree(s, 0);
    ScanIsLineByLine(s, 0, MatchAnnotation, LineTag);
  }

  /** Without spill, `getDescription` joins the description lines in order. */
  lemma DescriptionByLine(s: string)
    requires NoSpill(s)
    ensures GetDescription(Str(s)) ==
              if IsDelimited(s) then Join(Project(LineKinds(s, 0), LineDesc), " ") else ""
  {
    MatchersWellBehaved();
    DescriptionLinesAgree(s, 0);
    ScanIsLineByLine(s, 0, MatchDescription, LineDesc);
  }

  // ---------------------------------------------------------------------
  // Without spill, every hit is one whole line
  // ---------------------------------------------------------------------

  /** Safety along the chain of lines from `i` holds at every later line
      start. */
  lemma {:induction false} SafeAt(s: string, i: nat, p: nat)
    requires i <= p <= |s|
    requires p == i || s[p - 1] == '\n'
    requires NoSpillFrom(s, i)
    ensures LineSafe(s, p)
    decreases |s| - i
  {
    if p > i {
      var k := LineEnd(s, i);
      assert k <= p - 1;
      SafeAt(s, k + 1, p);
    }
  }

  /** Without spill, an annotation hit ends where its line ends. */
  lemma TagHitIsLine(s: string, h: Hit<Annotation>)
    requires NoSpill(s) && h in TagHits(s)
    ensures h.at + h.len == LineEnd(s, h.at)
  {
    SafeAt(s, 0, h.at);
    TagLineAgrees(s, h.at);
  }

  /** Without spill, a description hit ends where its line ends. */
  lemma DescriptionHitIsLine(s: string, h: Hit<string>)
    requires NoSpill(s) && h in DescriptionHits(s)
    ensures h.at + h.len == LineEnd(s, h.at)
  {
    SafeAt(s, 0, h.at);
    DescriptionLineAgrees(s, h.at);
  }

  /** Of two different line starts, the earlier one's line ends before the
      later one begins. */
  lemma LineStartsApart(s: string, p: nat, q: nat)
    requires p <= |s| && q <= |s| && p != q
    requires LineStart(s, p) && LineStart(s, q)
    ensures LineEnd(s, p) < q || LineEnd(s, q) < p
  {
    if p < q {
      assert s[q - 1] == '\n';
    } else {
      assert s[p - 1] == '\n';
    }
  }

  /** Without spill, no line feeds both results: the text an annotation hit
      spans and the text a description hit spans are apart, with a newline
      between them. */
  lemma TagAndDescriptionLinesDisjoint(s: string)
    requires NoSpill(s)
    ensures forall a, b :: 0 <= a < |TagHits(s)| && 0 <= b < |DescriptionHits(s)| ==>
              || TagHits(s)[a].at + TagHits(s)[a].len < DescriptionHits(s)[b].at
              || DescriptionHits(s)[b].at + DescriptionHits(s)[b].len < TagHits(s)[a].at
  {
    var tags, descs := TagHits(s), DescriptionHits(s);
    TagAndDescriptionDisjoint(s);
    forall a, b | 0 <= a < |tags| && 0 <= b < |descs|
      ensures || tags[a].at + tags[a].len < descs[b].at
              || descs[b].at + descs[b].len < tags[a].at
    {
      var t, d := tags[a], descs[b];
      assert t in tags && d in descs;
      TagHitIsLine(s, t);
      DescriptionHitIsLine(s, d);
      LineStartsApart(s, t.at, d.at);
    }
  }

  // ---------------------------------------------------------------------
  // Texts given as their lines
  // ---------------------------------------------------------------------

  /** The classification of each of the lines. */
  function ClassifyAll(ls: seq<string>): (r: seq<LineKind>)
    requires forall k :: 0 <= k < |ls| ==> NoNewline(ls[k])
    ensures |r| == |ls|
  {
    if |ls| == 0 then [] else [ClassifyLine(ls[0])] + ClassifyAll(ls[1..])
  }

  /** The kind at position `k` is the classification of line `k`. */
  lemma {:induction false} ClassifyAllAt(ls: seq<string>, k: nat)
    requires forall x :: 0 <= x < |ls| ==> NoNewline(ls[x])
    requires k < |ls|
    ensures ClassifyAll(ls)[k] == ClassifyLine(ls[k])
  {
    if k > 0 {
      assert ls[1..][k - 1] == ls[k];
      ClassifyAllAt(ls[1..], k - 1);
    }
  }

  /** A line `l` followed by the line `next` lets no pattern spill: if `l`
      is a bare star, `next` opens with `*` or `/`, or is the empty last
      line; and no tag name runs to the end of `l`. */
  predicate PairSafe(l: string, next: string, nextIsLast: bool) {
    && (BareStar(l) ==> (next == [] && nextIsLast) || (next != [] && (next[0] == '*' || next[0] == '/')))
    && !DanglingTag(l)
  }

  /** Every line and its successor are a safe pair. */
  predicate SafeLines(ls: seq<string>) {
    |ls| <= 1 || (PairSafe(ls[0], ls[1], |ls| == 2) && SafeLines(ls[1..]))
  }

  /** One step of `SafeLines` along a suffix of the lines. */
  lemma SafeLinesFrom(ls: seq<string>, i: nat)
    requires i + 1 < |ls|
    requires PairSafe(ls[i], ls[i + 1], i + 2 == |ls|) && SafeLines(ls[i + 1..])
    ensures SafeLines(ls[i..])
  {
    var t := ls[i..];
    assert t[0] == ls[i] && t[1] == ls[i + 1] && t[1..] == ls[i + 1..];
  }

  /** Lines whose every neighbouring pair from `i` on is safe. */
  lemma {:induction false} SafeLinesAll(ls: seq<string>, i: nat)
    requires i < |ls|
    requires forall j :: i <= j && j + 1 < |ls| ==> PairSafe(ls[j], ls[j + 1], j + 2 == |ls|)
    ensures SafeLines(ls[i..])
    decreases |ls| - i
  {
    if i + 1 < |ls| {
      SafeLinesAll(ls, i + 1);
      SafeLinesFrom(ls, i);
    }
  }

  /** The first line of a text joined from lines, and what follows it. */
  lemma JoinLinesHead(ls: seq<string>)
    requires |ls| > 0
    ensures Join(ls, "\n") == ls[0] + (if |ls| == 1 then "" else "\n" + Join(ls[1..], "\n"))
  {
  }

  /** If the text from `i` on is `l` and then a line end, the line at `i`
      is `l`. */
  lemma LineIs(s: string, i: nat, l: string)
    requires i + |l| <= |s| && s[i..i + |l|] == l
    requires NoNewline(l) && EndsLine(s, i + |l|)
    ensures LineEnd(s, i) == i + |l|
  {
    assert forall x :: i <= x < i + |l| ==> s[x] == l[x - i];
    RunEndIs(NotNewline, s, i, i + |l|);
  }

  /** The text from `i` on consists of the lines `ls`, each followed by a
      newline except the last, which runs to the end of the text. */
  ghost predicate LinesAt(s: string, i: nat, ls: seq<string>)
    decreases |ls|
  {
    && i <= |s| && |ls| > 0
    && var k := i + |ls[0]|;
    && k <= |s| && s[i..k] == ls[0] && NoNewline(ls[0])
    && (if |ls| == 1 then k == |s| else k < |s| && s[k] == '\n' && LinesAt(s, k + 1, ls[1..]))
  }

  /** A text joined from lines with newlines consists of those lines. */
  lemma {:induction false} JoinedLinesAt(s: string, i: nat, ls: seq<string>)
    requires i <= |s| && |ls| > 0
    requires forall k :: 0 <= k < |ls| ==> NoNewline(ls[k])
    requires s[i..] == Join(ls, "\n")
    ensures LinesAt(s, i, ls)
    decreases |ls|
  {
    var l := ls[0];
    var k := i + |l|;
    JoinLinesHead(ls);
    assert s[i..k] == l;
    if |ls| > 1 {
      var rest := ls[1..];
      assert s[k] == s[i..][|l|];
      assert s[k + 1..] == Join(rest, "\n");
      assert forall x :: 0 <= x < |rest| ==> rest[x] == ls[x + 1];
      JoinedLinesAt(s, k + 1, rest);
    }
  }

  lemma SplitLast(s: string, i: nat, l: string)
    requires i <= |s| && LineEnd(s, i) == |s| && s[i..|s|] == l
    ensures SplitLines(s, i) == [l]
  {
  }

  /** Where the text from `i` on consists of the lines `ls`, the lines from
      `i` on are `ls`. */
  lemma {:induction false} SplitOfLines(s: string, i: nat, ls: seq<string>)
    requires LinesAt(s, i, ls)
    ensures SplitLines(s, i) == ls
    decreases |ls|
  {
    var k := i + |ls[0]|;
    assert LineEnd(s, i) == k by {
      LineIs(s, i, ls[0]);
    }
    if |ls| == 1 {
      SplitLast(s, i, ls[0]);
    } else {
      var rest := ls[1..];
      assert [ls[0]] + rest == ls;
      SplitOfLines(s, k + 1, rest);
      SplitCons(s, i, k, ls[0], rest);
    }
  }

  /** Where the text from `i` on consists of the lines `ls`, the line view
      from `i` is the classification of `ls`. */
  lemma LineKindsOfLines(s: string, i: nat, ls: seq<string>)
    requires LinesAt(s, i, ls)
    requires forall k :: 0 <= k < |ls| ==> NoNewline(ls[k])
    ensures LineKinds(s, i) == ClassifyAll(ls)
  {
    SplitOfLines(s, i, ls);
  }

  /** The line after the one at `i` opens with the first character of the
      next line of `ls`, or ends the text or is empty. */
  lemma NextLineStart(s: string, i: nat, ls: seq<string>)
    requires LinesAt(s, i, ls) && |ls| > 1
    ensures var k := i + |ls[0]|;
            && (ls[1] != [] ==> k + 1 < |s| && s[k + 1] == ls[1][0])
            && (k + 1 == |s| ==> ls[1] == [] && |ls| == 2)
  {
    var k := i + |ls[0]|;
    var rest := ls[1..];
    assert LinesAt(s, k + 1, rest);
    if ls[1] != [] {
      assert s[k + 1..k + 1 + |ls[1]|][0] == s[k + 1];
    }
  }

  /** Where the text from `i` on consists of the lines `ls` and every
      neighbouring pair is safe, nothing spills from `i` on. */
  lemma {:induction false} NoSpillOfLines(s: string, i: nat, ls: seq<string>)
    requires LinesAt(s, i, ls)
    requires SafeLines(ls)
    ensures NoSpillFrom(s, i)
    decreases |ls|
  {
    var k := i + |ls[0]|;
    LineIs(s, i, ls[0]);
    if |ls| > 1 {
      NextLineStart(s, i, ls);
      NoSpillOfLines(s, k + 1, ls[1..]);
    }
  }
}
