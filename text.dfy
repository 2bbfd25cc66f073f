/** The string operations the pages apply to search boxes and notes:
    `String.prototype.trim`, `toLowerCase` (ASCII letters only, see README)
    and `includes`. */
module Text {

  /** The characters `trim` removes: ECMAScript white space and line terminators. */
  predicate IsSpace(c: char) {
    c == ' ' || c == '\t' || c == '\n' || c == '\r' || c == '\U{000B}' || c == '\U{000C}'
    || c == '\U{00A0}' || c == '\U{1680}' || ('\U{2000}' <= c <= '\U{200A}')
    || c == '\U{2028}' || c == '\U{2029}' || c == '\U{202F}' || c == '\U{205F}'
    || c == '\U{3000}' || c == '\U{FEFF}'
  }

  predicate AllSpace(s: string) {
    forall i :: 0 <= i < |s| ==> IsSpace(s[i])
  }

  /** Number of white-space characters at the front. */
  function LeadingSpaces(s: string): (n: nat)
    ensures n <= |s|
    ensures AllSpace(s[..n])
    ensures n < |s| ==> !IsSpace(s[n])
  {
    if s == [] || !IsSpace(s[0]) then 0
    else
      var n := 1 + LeadingSpaces(s[1..]);
      assert forall i :: 1 <= i < n ==> s[i] == s[1..][i - 1];
      n
  }

  /** Length of `s` without its trailing white space. */
  function ContentEnd(s: string): (n: nat)
    ensures n <= |s|
    ensures AllSpace(s[n..])
    ensures n > 0 ==> !IsSpace(s[n - 1])
  {
    if s == [] || !IsSpace(s[|s| - 1]) then |s|
    else
      var n := ContentEnd(s[..|s| - 1]);
      assert forall i :: n <= i < |s| - 1 ==> s[i] == s[..|s| - 1][i];
      n
  }

  /** `r` is `s` cut at offset `b`, with only white space cut away on both sides. */
  predicate TrimmedFrom(s: string, r: string, b: int) {
    0 <= b <= |s| - |r| && r == s[b..b + |r|] && AllSpace(s[..b]) && AllSpace(s[b + |r|..])
  }

  /** `s.trim()`: `s` without leading and trailing white space. The result is a
      slice of `s` cut only at white space, and it neither starts nor ends with
      white space; it is empty exactly when `s` is all white space. */
  function Trim(s: string): (r: string)
    ensures r != [] ==> !IsSpace(r[0]) && !IsSpace(r[|r| - 1])
    ensures r == [] <==> AllSpace(s)
    ensures exists b :: TrimmedFrom(s, r, b)
  {
    var e := ContentEnd(s);
    var b := LeadingSpaces(s[..e]);
    TrimSlice(s, b, e);
    s[b..e]
  }

  lemma TrimSlice(s: string, b: nat, e: nat)
    requires e == ContentEnd(s) && b == LeadingSpaces(s[..e])
    ensures b <= e && TrimmedFrom(s, s[b..e], b)
    ensures b < e ==> !IsSpace(s[b]) && !IsSpace(s[e - 1])
    ensures b == e <==> AllSpace(s)
  {
    TrimSliceCut(s, b, e);
    TrimSliceEmpty(s, b, e);
  }

  /** The cut keeps the middle of `s` and removes only white space. */
  lemma TrimSliceCut(s: string, b: nat, e: nat)
    requires e == ContentEnd(s) && b == LeadingSpaces(s[..e])
    ensures b <= e && TrimmedFrom(s, s[b..e], b)
    ensures b < e ==> !IsSpace(s[b]) && !IsSpace(s[e - 1])
  {
    var t := s[..e];
    assert s[..b] == t[..b];
    assert b < e ==> s[b] == t[b];
  }

  /** Nothing is left exactly when `s` is all white space. */
  lemma TrimSliceEmpty(s: string, b: nat, e: nat)
    requires e == ContentEnd(s) && b == LeadingSpaces(s[..e])
    ensures b == e <==> AllSpace(s)
  {
    var t := s[..e];
    if b == e {
      assert t[..b] == t;
      assert s == t + s[e..];
      AllSpaceAppend(t, s[e..]);
    }
  }

  lemma AllSpaceAppend(a: string, b: string)
    requires AllSpace(a) && AllSpace(b)
    ensures AllSpace(a + b)
  {
    forall i | 0 <= i < |a + b| ensures IsSpace((a + b)[i]) {
      if i >= |a| {
        assert (a + b)[i] == b[i - |a|];
      }
    }
  }

  /** Trimming twice is trimming once. */
  lemma TrimIdempotent(s: string)
    ensures Trim(Trim(s)) == Trim(s)
  {
    var r := Trim(s);
    assert r[..|r|] == r;
  }

  /** Minimum trimmed query length before a name search is issued. */
  const MinQueryLength := 2

  /** `s.length`: the number of UTF-16 code units, one per character of the
      Basic Multilingual Plane and two (a surrogate pair) per character above
      it. */
  function CodeUnits(s: string): (n: nat)
    ensures |s| <= n <= 2 * |s|
    ensures n == |s| <==> forall i :: 0 <= i < |s| ==> s[i] as int <= 0xFFFF
  {
    if s == [] then 0
    else CodeUnits(s[..|s| - 1]) + (if s[|s| - 1] as int > 0xFFFF then 2 else 1)
  }

  /** `query.trim().length >= 2`: the search boxes only query from two UTF-16
      code units of trimmed text on. */
  predicate SearchReady(query: string) {
    CodeUnits(Trim(query)) >= MinQueryLength
  }

  /** A single character outside the Basic Multilingual Plane (an emoji, say)
      is two code units long, so it opens the gate on its own, while one
      character of the plane does not. */
  lemma OneCharSearches(c: char)
    ensures SearchReady([c]) <==> c as int > 0xFFFF
  {
    assert [c][..0] == [];
    if !IsSpace(c) {
      assert Trim([c]) == [c];
    }
  }

  /** A query is ready iff it has two non-blank characters with only text
      between them; leading and trailing blanks never count. */
  lemma SearchReadyTrim(query: string)
    ensures SearchReady(query) <==> SearchReady(Trim(query))
    ensures AllSpace(query) ==> !SearchReady(query)
  {
    TrimIdempotent(query);
  }

  /** Upper-case ASCII letters to lower case, everything else unchanged. */
  function LowerChar(c: char): (d: char)
    ensures 'A' <= c <= 'Z' ==> d as int == c as int + 32
    ensures !('A' <= c <= 'Z') ==> d == c
    ensures !('A' <= d <= 'Z')
  {
    if 'A' <= c <= 'Z' then (c as int + 32) as char else c
  }

  /** `s.toLowerCase()`, restricted to ASCII letters. */
  function Lower(s: string): (r: string)
    ensures |r| == |s|
    ensures forall i :: 0 <= i < |s| ==> r[i] == LowerChar(s[i])
  {
    seq(|s|, i requires 0 <= i < |s| => LowerChar(s[i]))
  }

  /** Lower-casing is idempotent. */
  lemma LowerIdempotent(s: string)
    ensures Lower(Lower(s)) == Lower(s)
  {
  }

  /** `s.startsWith(p)`. */
  function StartsWith(s: string, p: string): (r: bool)
    ensures r <==> |p| <= |s| && s[..|p|] == p
  {
    if p == [] then true
    else if s == [] then false
    else
      assert |p| <= |s| && s[..|p|] == p ==> s[1..][..|p| - 1] == p[1..];
      assert |p| <= |s| && s[0] == p[0] && s[1..][..|p| - 1] == p[1..] ==> s[..|p|] == p;
      s[0] == p[0] && StartsWith(s[1..], p[1..])
  }

  /** `p` occurs in `s` starting at offset `i`. */
  predicate OccursAt(s: string, p: string, i: int) {
    0 <= i <= |s| - |p| && s[i..i + |p|] == p
  }

  /** `s.includes(p)`: `p` occurs in `s` at some offset. */
  function Contains(s: string, p: string): (r: bool)
    ensures r <==> exists i :: OccursAt(s, p, i)
    decreases |s|
  {
    if StartsWith(s, p) then
      assert OccursAt(s, p, 0);
      true
    else if s == [] then
      false
    else
      var r := Contains(s[1..], p);
      ContainsShift(s, p, r);
      r
  }

  lemma ContainsShift(s: string, p: string, r: bool)
    requires s != [] && !StartsWith(s, p)
    requires r <==> exists i :: OccursAt(s[1..], p, i)
    ensures r <==> exists i :: OccursAt(s, p, i)
  {
    forall i | OccursAt(s, p, i) ensures OccursAt(s[1..], p, i - 1) {
      assert s[..|p|] == s[0..0 + |p|];
      assert s[1..][i - 1..i - 1 + |p|] == s[i..i + |p|];
    }
    forall i | OccursAt(s[1..], p, i) ensures OccursAt(s, p, i + 1) {
      assert s[1..][i..i + |p|] == s[i + 1..i + 1 + |p|];
    }
  }

  /** Every string contains the empty string and itself. */
  lemma ContainsTrivial(s: string)
    ensures Contains(s, "")
    ensures Contains(s, s)
  {
    assert OccursAt(s, "", 0);
    assert OccursAt(s, s, 0);
  }

  /** `name.toLowerCase().includes(term.toLowerCase())`. */
  predicate NameMatches(name: string, term: string) {
    Contains(Lower(name), Lower(term))
  }

  /** An empty search term matches every name. */
  lemma EmptyTermMatches(name: string)
    ensures NameMatches(name, "")
  {
    ContainsTrivial(Lower(name));
  }
}
