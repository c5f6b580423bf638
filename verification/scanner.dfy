/**
 The global matching loop of `preg_match_all` with a pattern anchored by a
 multiline `^`: the pattern is tried at every offset where `^` holds; after
 a match the search resumes where the match ended, otherwise one character
 further on.
 */
module Scanner {
  import opened Text

  /** What a pattern captured when it matched at the front of a text, and how
      many characters the whole match took. */
  datatype Match<M> = Match(data: M, len: nat)

  /** A match found by the scan, at offset `at` of the scanned text. */
  datatype Hit<M> = Hit(at: nat, data: M, len: nat)

  /** A matcher that never matches the empty string and never claims more
      characters than it was given. */
  ghost predicate WellBehaved<M>(matcher: string -> Option<Match<M>>) {
    forall t :: matcher(t).Some? ==> 0 < matcher(t).value.len <= |t|
  }

  /** Offset `p` lies strictly inside one of the hits, so the scan never
      tried the pattern there. */
  ghost predicate Covered<M>(hits: seq<Hit<M>>, p: nat) {
    exists h :: h in hits && h.at < p < h.at + h.len
  }

  /** The hits of the scan from offset `i` on. */
  function Scan<M>(s: string, i: nat, matcher: string -> Option<Match<M>>): seq<Hit<M>>
    requires i <= |s|
    requires WellBehaved(matcher)
    decreases |s| - i
  {
    if i == |s| then []
    else if LineStart(s, i) && matcher(s[i..]).Some? then
      var m := matcher(s[i..]).value;
      [Hit(i, m.data, m.len)] + Scan(s, i + m.len, matcher)
    else
      Scan(s, i + 1, matcher)
  }

  /** A hit of the scan is a real match at a line start. */
  ghost predicate MatchedAt<M>(s: string, i: nat, matcher: string -> Option<Match<M>>, h: Hit<M>) {
    && i <= h.at && h.at + h.len <= |s|
    && LineStart(s, h.at)
    && matcher(s[h.at..]) == Some(Match(h.data, h.len))
  }

  /** Every hit is a real match at a line start, at or after `i`. */
  lemma {:induction false} ScanMatches<M>(s: string, i: nat, matcher: string -> Option<Match<M>>)
    requires i <= |s|
    requires WellBehaved(matcher)
    ensures forall h :: h in Scan(s, i, matcher) ==> MatchedAt(s, i, matcher, h)
    decreases |s| - i
  {
    if i == |s| {
    } else if LineStart(s, i) && matcher(s[i..]).Some? {
      var m := matcher(s[i..]).value;
      var rest := Scan(s, i + m.len, matcher);
      ScanMatches(s, i + m.len, matcher);
      ScanHit(s, i, matcher);
      forall h | h in [Hit(i, m.data, m.len)] + rest
        ensures MatchedAt(s, i, matcher, h)
      {
        if h !in rest {
          assert h == Hit(i, m.data, m.len);
        }
      }
    } else {
      var rest := Scan(s, i + 1, matcher);
      ScanMatches(s, i + 1, matcher);
      ScanMiss(s, i, matcher);
      forall h | h in rest
        ensures MatchedAt(s, i, matcher, h)
      {
        assert MatchedAt(s, i + 1, matcher, h);
      }
    }
  }

  /** Hits in text order that do not overlap. */
  ghost predicate Ordered<M>(r: seq<Hit<M>>) {
    forall a, b :: 0 <= a < b < |r| ==> r[a].at + r[a].len <= r[b].at
  }

  lemma OrderedCons<M>(h: Hit<M>, rest: seq<Hit<M>>)
    requires forall g :: g in rest ==> h.at + h.len <= g.at
    requires Ordered(rest)
    ensures Ordered([h] + rest)
  {
    var r := [h] + rest;
    forall a, b | 0 <= a < b < |r|
      ensures r[a].at + r[a].len <= r[b].at
    {
      assert r[b] == rest[b - 1];
      if a == 0 {
        assert rest[b - 1] in rest;
      } else {
        assert r[a] == rest[a - 1];
      }
    }
  }

  /** The hits come in text order and do not overlap. */
  lemma {:induction false} ScanOrdered<M>(s: string, i: nat, matcher: string -> Option<Match<M>>)
    requires i <= |s|
    requires WellBehaved(matcher)
    ensures Ordered(Scan(s, i, matcher))
    decreases |s| - i
  {
    if i == |s| {
    } else if LineStart(s, i) && matcher(s[i..]).Some? {
      var m := matcher(s[i..]).value;
      ScanOrdered(s, i + m.len, matcher);
      ScanMatches(s, i + m.len, matcher);
      ScanHit(s, i, matcher);
      OrderedCons(Hit(i, m.data, m.len), Scan(s, i + m.len, matcher));
    } else {
      ScanOrdered(s, i + 1, matcher);
      ScanMiss(s, i, matcher);
    }
  }

  /** Where the pattern is not tried or fails, the scan moves one character
      on. */
  lemma ScanMiss<M>(s: string, i: nat, matcher: string -> Option<Match<M>>)
    requires WellBehaved(matcher)
    requires i < |s| && !(LineStart(s, i) && matcher(s[i..]).Some?)
    ensures Scan(s, i, matcher) == Scan(s, i + 1, matcher)
  {
  }

  /** Where the pattern matches at a line start, the scan records the hit and
      resumes after it. */
  lemma ScanHit<M>(s: string, i: nat, matcher: string -> Option<Match<M>>)
    requires WellBehaved(matcher)
    requires i < |s| && LineStart(s, i) && matcher(s[i..]).Some?
    ensures var m := matcher(s[i..]).value;
            Scan(s, i, matcher) == [Hit(i, m.data, m.len)] + Scan(s, i + m.len, matcher)
  {
  }

  /** Every line start where the pattern matches is a hit, unless an earlier
      hit already consumed it. */
  lemma {:induction false} ScanComplete<M>(s: string, i: nat, matcher: string -> Option<Match<M>>, p: nat)
    requires i <= p < |s|
    requires WellBehaved(matcher)
    requires LineStart(s, p) && matcher(s[p..]).Some?
    ensures var r := Scan(s, i, matcher);
            Covered(r, p) || exists h :: h in r && h.at == p
    decreases |s| - i
  {
    var r := Scan(s, i, matcher);
    if LineStart(s, i) && matcher(s[i..]).Some? {
      var m := matcher(s[i..]).value;
      var h := Hit(i, m.data, m.len);
      var rest := Scan(s, i + m.len, matcher);
      assert r == [h] + rest;
      assert h in r;
      if p == i {
      } else if p < i + m.len {
        assert h.at < p < h.at + h.len;
      } else {
        ScanComplete(s, i + m.len, matcher, p);
        if Covered(rest, p) {
          var g :| g in rest && g.at < p < g.at + g.len;
          assert g in r;
        } else {
          var g :| g in rest && g.at == p;
          assert g in r;
        }
      }
    } else {
      ScanComplete(s, i + 1, matcher, p);
    }
  }

  /** The captured data of the hits, in order. */
  function Datas<M>(hits: seq<Hit<M>>): (r: seq<M>)
    ensures |r| == |hits|
    ensures forall k :: 0 <= k < |hits| ==> r[k] == hits[k].data
  {
    if |hits| == 0 then [] else [hits[0].data] + Datas(hits[1..])
  }
}
