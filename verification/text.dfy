/**
 Character classes and string helpers shared by the docblock patterns.

 Strings are `seq<char>`; each character stands for one byte of the PHP
 string. Only the ASCII classes the patterns use are modelled.
 */
module Text {

  datatype Option<+T> = None | Some(value: T)

  /** PCRE's `\s` without Unicode properties: space, \t, \n, \v, \f, \r. */
  predicate IsSpace(c: char) {
    c == ' ' || c == '\t' || c == '\n' || c == '\U{0B}' || c == '\U{0C}' || c == '\r'
  }

  /** The class `[a-zA-Z]`. */
  predicate IsLetter(c: char) {
    ('a' <= c <= 'z') || ('A' <= c <= 'Z')
  }

  /** The characters `.` matches when the `s` flag is absent. */
  predicate NotNewline(c: char) {
    c != '\n'
  }

  predicate AllSpace(w: string) {
    forall k :: 0 <= k < |w| ==> IsSpace(w[k])
  }

  predicate NoNewline(w: string) {
    forall k :: 0 <= k < |w| ==> w[k] != '\n'
  }

  /** A tag name as `[a-zA-Z]+` accepts it. */
  predicate IsTagName(w: string) {
    |w| > 0 && forall k :: 0 <= k < |w| ==> IsLetter(w[k])
  }

  predicate StartsWith(s: string, p: string) {
    |p| <= |s| && s[..|p|] == p
  }

  predicate EndsWith(s: string, p: string) {
    |p| <= |s| && s[|s| - |p|..] == p
  }

  /** The end of the longest run of characters satisfying `p` that starts at
      offset `i` of `t`: where a greedy `p*` tried at `i` stops. */
  function RunEnd(p: char -> bool, t: string, i: nat): (n: nat)
    requires i <= |t|
    ensures i <= n <= |t|
    ensures forall k :: i <= k < n ==> p(t[k])
    ensures n < |t| ==> !p(t[n])
    decreases |t| - i
  {
    if i == |t| || !p(t[i]) then i else RunEnd(p, t, i + 1)
  }

  /** A greedy run is determined by where it must stop. */
  lemma RunEndIs(p: char -> bool, t: string, i: nat, n: nat)
    requires i <= n <= |t|
    requires forall k :: i <= k < n ==> p(t[k])
    requires n < |t| ==> !p(t[n])
    ensures RunEnd(p, t, i) == n
  {
  }

  /** A run that stops inside `l` is not affected by what follows `l`. */
  lemma RunStopsInside(p: char -> bool, l: string, rest: string, i: nat)
    requires i <= |l| && RunEnd(p, l, i) < |l|
    ensures RunEnd(p, l + rest, i) == RunEnd(p, l, i)
  {
    var n := RunEnd(p, l, i);
    assert (l + rest)[n] == l[n];
    assert forall k :: i <= k < n ==> (l + rest)[k] == l[k];
    RunEndIs(p, l + rest, i, n);
  }

  /** A run that reaches the end of `l` continues into what follows. */
  lemma RunRunsThrough(p: char -> bool, l: string, rest: string, i: nat)
    requires i <= |l| && RunEnd(p, l, i) == |l|
    ensures RunEnd(p, l + rest, i) == RunEnd(p, l + rest, |l|)
  {
    var u := l + rest;
    var n := RunEnd(p, u, |l|);
    assert forall k :: i <= k < |l| ==> u[k] == l[k];
    RunEndIs(p, u, i, n);
  }

  /** `^` in multiline mode: the start of the text or just after a newline. */
  predicate LineStart(s: string, i: nat)
    requires i <= |s|
  {
    i == 0 || s[i - 1] == '\n'
  }

  /** `$` in multiline mode: the end of the text or just before a newline. */
  predicate EndsLine(t: string, n: nat)
    requires n <= |t|
  {
    n == |t| || t[n] == '\n'
  }

  /** The end of the line that starts at or contains offset `i`: the first
      newline at or after `i`, or the end of the text. */
  function LineEnd(s: string, i: nat): (k: nat)
    requires i <= |s|
    ensures i <= k <= |s|
    ensures EndsLine(s, k)
    ensures forall x :: i <= x < k ==> s[x] != '\n'
    ensures NoNewline(s[i..k])
  {
    RunEnd(NotNewline, s, i)
  }

  /** PHP's `implode(sep, parts)`: the parts with `sep` between neighbours. */
  function Join(parts: seq<string>, sep: string): string {
    if |parts| == 0 then ""
    else if |parts| == 1 then parts[0]
    else parts[0] + sep + Join(parts[1..], sep)
  }

  /** Joining lines that hold no newline with a separator that holds none
      gives a single line. */
  lemma {:induction false} JoinNoNewline(parts: seq<string>, sep: string)
    requires NoNewline(sep) && forall k :: 0 <= k < |parts| ==> NoNewline(parts[k])
    ensures NoNewline(Join(parts, sep))
  {
    if |parts| > 1 {
      assert forall k :: 0 <= k < |parts| - 1 ==> parts[1..][k] == parts[k + 1];
      JoinNoNewline(parts[1..], sep);
    }
  }

  /** Joining non-empty parts is empty exactly when there are no parts. */
  lemma JoinEmpty(parts: seq<string>, sep: string)
    requires forall k :: 0 <= k < |parts| ==> parts[k] != []
    ensures Join(parts, sep) == [] <==> parts == []
  {
    if |parts| > 0 {
      assert |Join(parts, sep)| >= |parts[0]|;
    }
  }

  /** The joined text opens with the first part and closes with the last,
      and with two parts or more the separator lies between them. */
  lemma {:induction false} JoinEnds(parts: seq<string>, sep: string)
    requires |parts| > 0
    ensures var r := Join(parts, sep);
            && StartsWith(r, parts[0]) && EndsWith(r, parts[|parts| - 1])
            && (|parts| > 1 ==> |r| >= |parts[0]| + |sep| + |parts[|parts| - 1]|)
            && (|parts| > 1 ==> r[|parts[0]|..|parts[0]| + |sep|] == sep)
  {
    if |parts| > 1 {
      var tail := Join(parts[1..], sep);
      JoinEnds(parts[1..], sep);
      var r := parts[0] + sep + tail;
      var last := parts[|parts| - 1];
      assert parts[1..][|parts| - 2] == last;
      assert r[..|parts[0]|] == parts[0];
      assert r[|parts[0]|..|parts[0]| + |sep|] == sep;
      assert r[|r| - |tail|..] == tail;
      assert r[|r| - |last|..] == tail[|tail| - |last|..];
    }
  }
}
