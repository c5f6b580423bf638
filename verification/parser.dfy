/**
 The public operations of `Ils\AnnotationParser`: `hasDocBlock`,
 `getAnnotations` and `getDescription`.

 PHP values other than strings (null, arrays, ...) are all `NonString`: the
 parser only ever asks `is_string` of them.
 */
module Parser {
  import opened Text
  import opened Scanner
  import opened Patterns

  datatype Input = Str(s: string) | NonString

  /** `hasDocBlock`: false for non-strings and for the empty string, else
      whether DOCBLOCK_PATTERN matches. */
  function HasDocBlock(input: Input): (r: bool)
    ensures r <==> input.Str? && IsDelimited(input.s)
    ensures r ==> |input.s| >= 5
  {
    match input
    case NonString => false
    case Str(s) =>
      if s == "" then false
      else
        DocBlockPatternExact(s);
        DocBlockPattern(s)
  }

  // ---------------------------------------------------------------------
  // What preg_match_all collects
  // ---------------------------------------------------------------------

  /** The matches of ANNOTATION_PATTERN over the whole text, in order. */
  function TagHits(s: string): (r: seq<Hit<Annotation>>)
    ensures forall h :: h in r ==> MatchedAt(s, 0, MatchAnnotation, h)
    ensures Ordered(r)
  {
    MatchersWellBehaved();
    ScanMatches(s, 0, MatchAnnotation);
    ScanOrdered(s, 0, MatchAnnotation);
    Scan(s, 0, MatchAnnotation)
  }

  /** The matches of DESCRIPTION_PATTERN over the whole text, in order. */
  function DescriptionHits(s: string): (r: seq<Hit<string>>)
    ensures forall h :: h in r ==> MatchedAt(s, 0, MatchDescription, h)
    ensures Ordered(r)
  {
    MatchersWellBehaved();
    ScanMatches(s, 0, MatchDescription);
    ScanOrdered(s, 0, MatchDescription);
    Scan(s, 0, MatchDescription)
  }

  /** An annotation hit runs from a line start to a line end and has the
      annotation shape; the `\s` runs of the pattern may take newlines, so it
      can span more than one line. */
  lemma AnnotationHitSound(s: string, h: Hit<Annotation>)
    requires MatchedAt(s, 0, MatchAnnotation, h)
    ensures AnnotationAt(s, h.at, h.at + h.len, h.data)
  {
    MatchAnnotationSound(s[h.at..]);
    var t := s[h.at..];
    assert t[..h.len] == s[h.at..h.at + h.len];
    assert h.len < |t| ==> t[h.len] == s[h.at + h.len];
  }

  /** A description hit ends at a line end and has the description shape. */
  lemma DescriptionHitSound(s: string, h: Hit<string>)
    requires MatchedAt(s, 0, MatchDescription, h)
    ensures EndsLine(s, h.at + h.len) && IsDescriptionText(s[h.at..h.at + h.len], h.data)
  {
    MatchDescriptionSound(s[h.at..]);
    var t := s[h.at..];
    assert t[..h.len] == s[h.at..h.at + h.len];
    assert h.len < |t| ==> t[h.len] == s[h.at + h.len];
  }

  /** No offset starts both an annotation match and a description match.
      A line can still feed both results when an annotation match runs on
      into it (see `Lines.TagAndDescriptionLinesDisjoint` for the case
      without spill). */
  lemma {:induction false} TagAndDescriptionDisjoint(s: string)
    ensures forall a, b :: 0 <= a < |TagHits(s)| && 0 <= b < |DescriptionHits(s)| ==>
              TagHits(s)[a].at != DescriptionHits(s)[b].at
  {
    var tags := TagHits(s);
    var descs := DescriptionHits(s);
    forall a, b | 0 <= a < |tags| && 0 <= b < |descs|
      ensures tags[a].at != descs[b].at
    {
      var h, d := tags[a], descs[b];
      assert h in tags && d in descs;
      if h.at == d.at {
        AnnotationExcludesDescription(s[h.at..]);
      }
    }
  }

  // ---------------------------------------------------------------------
  // getAnnotations
  // ---------------------------------------------------------------------

  /** The `foreach` of `getAnnotations`: each match in turn assigns its value
      to its tag. */
  function Assign(pairs: seq<Annotation>): (r: map<string, string>)
    // the keys are exactly the tags that occur
    ensures r.Keys == Tags(pairs)
    // the value held is the one of the tag's last occurrence
    ensures LastValues(pairs, r)
  {
    if |pairs| == 0 then map[]
    else
      var m := Assign(pairs[..|pairs| - 1]);
      AssignStep(pairs, m);
      m[pairs[|pairs| - 1].tag := pairs[|pairs| - 1].value]
  }

  /** The tags occurring in `pairs`. */
  ghost function Tags(pairs: seq<Annotation>): set<string> {
    set k | 0 <= k < |pairs| :: pairs[k].tag
  }

  /** No pair after position `k` carries the same tag. */
  ghost predicate LastOf(pairs: seq<Annotation>, k: int)
    requires 0 <= k < |pairs|
  {
    forall m :: k < m < |pairs| ==> pairs[m].tag != pairs[k].tag
  }

  /** Every entry of `r` is the last pair of `pairs` with that tag. */
  ghost predicate LastValues(pairs: seq<Annotation>, r: map<string, string>) {
    forall t :: t in r ==>
      exists k :: 0 <= k < |pairs| && pairs[k] == Annotation(t, r[t]) && LastOf(pairs, k)
  }

  lemma AssignStep(pairs: seq<Annotation>, m: map<string, string>)
    requires |pairs| > 0
    requires m.Keys == Tags(pairs[..|pairs| - 1])
    requires LastValues(pairs[..|pairs| - 1], m)
    ensures var last := pairs[|pairs| - 1];
            && m[last.tag := last.value].Keys == Tags(pairs)
            && LastValues(pairs, m[last.tag := last.value])
  {
    var n := |pairs| - 1;
    var init := pairs[..n];
    var last := pairs[n];
    var r := m[last.tag := last.value];
    assert forall k :: 0 <= k < n ==> init[k] == pairs[k];
    assert Tags(pairs) == Tags(init) + {last.tag};
    forall t | t in r
      ensures exists k :: 0 <= k < |pairs| && pairs[k] == Annotation(t, r[t]) && LastOf(pairs, k)
    {
      if t == last.tag {
        assert pairs[n] == Annotation(t, r[t]) && LastOf(pairs, n);
      } else {
        var k :| 0 <= k < n && init[k] == Annotation(t, m[t]) && LastOf(init, k);
        assert pairs[k] == Annotation(t, r[t]) && LastOf(pairs, k);
      }
    }
  }

  /** A later pair overwrites its tag and leaves every other tag alone. */
  lemma AssignLastWins(pairs: seq<Annotation>, a: Annotation)
    ensures Assign(pairs + [a]) == Assign(pairs)[a.tag := a.value]
    ensures forall t :: t != a.tag ==> (t in Assign(pairs + [a]) <==> t in Assign(pairs))
  {
    assert (pairs + [a])[..|pairs|] == pairs;
  }

  /** Assigning two runs of matches is the right-biased union of assigning
      each. */
  lemma {:induction false} AssignAppend(x: seq<Annotation>, y: seq<Annotation>)
    ensures Assign(x + y) == Assign(x) + Assign(y)
    decreases |y|
  {
    if y == [] {
      assert x + y == x;
    } else {
      var init := y[..|y| - 1];
      var last := y[|y| - 1];
      assert x + y == (x + init) + [last];
      assert y == init + [last];
      calc {
        Assign(x + y);
        { AssignLastWins(x + init, last); }
        Assign(x + init)[last.tag := last.value];
        { AssignAppend(x, init); }
        (Assign(x) + Assign(init))[last.tag := last.value];
        Assign(x) + Assign(init)[last.tag := last.value];
        { AssignLastWins(init, last); }
        Assign(x) + Assign(y);
      }
    }
  }

  /** The text from offset `p` to `q` is a whole annotation line: it starts
      where `^` holds, ends where `$` holds and has the annotation shape. */
  ghost predicate AnnotationAt(s: string, p: int, q: int, a: Annotation) {
    && 0 <= p <= q <= |s|
    && LineStart(s, p)
    && EndsLine(s, q)
    && IsAnnotationText(s[p..q], a)
  }

  /** `getAnnotations`. */
  function GetAnnotations(input: Input): (r: map<string, string>)
    ensures !HasDocBlock(input) ==> r == map[]
    // every key is a tag name; every value is non-empty and on one line
    ensures forall t :: t in r ==> IsTagName(t) && |r[t]| > 0 && NoNewline(r[t])
    // every pair was matched at a line start of the text
    ensures forall t :: t in r ==>
              input.Str? && exists p, q :: AnnotationAt(input.s, p, q, Annotation(t, r[t]))
  {
    if HasDocBlock(input) then
      var m := Assign(Datas(TagHits(input.s)));
      AssignedFromText(input.s, m);
      m
    else map[]
  }

  /** Every pair the `foreach` leaves behind is an annotation matched in `s`,
      from a line start to a line end. */
  lemma AssignedFromText(s: string, m: map<string, string>)
    requires m == Assign(Datas(TagHits(s)))
    ensures forall t :: t in m ==> IsTagName(t) && |m[t]| > 0 && NoNewline(m[t])
    ensures forall t :: t in m ==> exists p, q :: AnnotationAt(s, p, q, Annotation(t, m[t]))
  {
    var hits := TagHits(s);
    var ds := Datas(hits);
    forall t | t in m
      ensures exists p, q :: AnnotationAt(s, p, q, Annotation(t, m[t]))
    {
      var k :| 0 <= k < |ds| && ds[k] == Annotation(t, m[t]) && LastOf(ds, k);
      var h := hits[k];
      assert h in hits;
      AnnotationHitSound(s, h);
    }
  }

  /** Every tag matched at a line start that no earlier match swallowed is
      a key of the result. */
  lemma AnnotationKept(s: string, p: nat)
    requires HasDocBlock(Str(s))
    requires p < |s| && LineStart(s, p) && MatchAnnotation(s[p..]).Some?
    requires !Covered(TagHits(s), p)
    ensures MatchAnnotation(s[p..]).value.data.tag in GetAnnotations(Str(s))
  {
    var hits := TagHits(s);
    MatchersWellBehaved();
    ScanComplete(s, 0, MatchAnnotation, p);
    var h :| h in hits && h.at == p;
    var k :| 0 <= k < |hits| && hits[k] == h;
    var ds := Datas(hits);
    assert ds[k].tag in Tags(ds);
  }

  // ---------------------------------------------------------------------
  // getDescription
  // ---------------------------------------------------------------------

  /** `getDescription`. */
  function GetDescription(input: Input): (r: string)
    ensures !HasDocBlock(input) ==> r == ""
    ensures HasDocBlock(input) ==> (r == "" <==> DescriptionHits(input.s) == [])
    // fragments never hold a newline and the separator is a space
    ensures NoNewline(r)
  {
    if HasDocBlock(input) then
      var hits := DescriptionHits(input.s);
      var parts := Datas(hits);
      assert forall k :: 0 <= k < |parts| ==> NoNewline(parts[k]) && parts[k] != [] by {
        forall k | 0 <= k < |parts|
          ensures NoNewline(parts[k]) && parts[k] != []
        {
          assert hits[k] in hits;
          DescriptionHitSound(input.s, hits[k]);
        }
      }
      JoinNoNewline(parts, " ");
      JoinEmpty(parts, " ");
      Join(parts, " ")
    else ""
  }
}
