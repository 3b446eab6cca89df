/**
 * The Kotlin string helpers the app relies on: `Char.isWhitespace`, `isBlank`,
 * `trim`, `isDigit`, `uppercase`, `lowercase`, `equals(ignoreCase = true)` and
 * `String.compareTo`. Case mapping is the ASCII part of Unicode case mapping.
 */
module KotlinText {
  import opened Wrappers

  /** `Char.isWhitespace()` on the JVM: Java's `isWhitespace` or `isSpaceChar`. */
  predicate IsWhitespace(c: char) {
    || c == ' ' || c == '\t' || c == '\n' || c == '\r'
    || c == '\U{0B}' || c == '\U{0C}'
    || ('\U{1C}' <= c <= '\U{1F}')
    || c == '\U{A0}' || c == '\U{1680}'
    || ('\U{2000}' <= c <= '\U{200A}')
    || c == '\U{2028}' || c == '\U{2029}' || c == '\U{202F}' || c == '\U{205F}' || c == '\U{3000}'
  }

  /** `isBlank()`: empty, or whitespace only. */
  predicate IsBlank(s: string) {
    forall i :: 0 <= i < |s| ==> IsWhitespace(s[i])
  }

  /** `isNullOrBlank()` on a `String?`. */
  predicate IsNullOrBlank(s: Option<string>) {
    s.None? || IsBlank(s.value)
  }

  /** ASCII `isDigit()`. */
  predicate IsDigit(c: char) {
    '0' <= c <= '9'
  }

  /** The end of the whitespace run that starts at `from`. */
  function SpaceRunEnd(s: string, from: nat): (end: nat)
    requires from <= |s|
    ensures from <= end <= |s|
    ensures forall k :: from <= k < end ==> IsWhitespace(s[k])
    ensures end < |s| ==> !IsWhitespace(s[end])
    decreases |s| - from
  {
    if from < |s| && IsWhitespace(s[from]) then SpaceRunEnd(s, from + 1) else from
  }

  /** The start of the whitespace run that ends at `hi`, going no lower than `lo`. */
  function SpaceRunStart(s: string, lo: nat, hi: nat): (start: nat)
    requires lo <= hi <= |s|
    ensures lo <= start <= hi
    ensures forall k :: start <= k < hi ==> IsWhitespace(s[k])
    ensures start > lo ==> !IsWhitespace(s[start - 1])
    decreases hi
  {
    if lo < hi && IsWhitespace(s[hi - 1]) then SpaceRunStart(s, lo, hi - 1) else hi
  }

  /**
   * `trim()`: skips the whitespace at the start, then the whitespace at the end
   * of what is left, and keeps the characters in between.
   */
  function Trim(s: string): (r: string)
    ensures |r| <= |s|
    ensures r != [] ==> !IsWhitespace(r[0]) && !IsWhitespace(r[|r| - 1])
    ensures r == [] <==> IsBlank(s)
  {
    var i := SpaceRunEnd(s, 0);
    var j := SpaceRunStart(s, i, |s|);
    s[i..j]
  }

  /**
   * What `trim()` removes is whitespace on both sides of the infix it keeps,
   * and that infix begins at the first character that is not whitespace.
   */
  lemma TrimIsInfix(s: string)
    ensures var i := SpaceRunEnd(s, 0);
      && i + |Trim(s)| <= |s| && Trim(s) == s[i..i + |Trim(s)|]
      && (forall k :: 0 <= k < i ==> IsWhitespace(s[k]))
      && (forall k :: i + |Trim(s)| <= k < |s| ==> IsWhitespace(s[k]))
  {
  }

  /** The run end is the first position, from `from` on, that is not whitespace. */
  lemma SpaceRunEndIs(s: string, from: nat, e: nat)
    requires from <= e <= |s|
    requires forall k :: from <= k < e ==> IsWhitespace(s[k])
    requires e < |s| ==> !IsWhitespace(s[e])
    ensures SpaceRunEnd(s, from) == e
  {
  }

  /** The run start is the last position, down to `lo`, after a character that is not whitespace. */
  lemma SpaceRunStartIs(s: string, lo: nat, hi: nat, b: nat)
    requires lo <= b <= hi <= |s|
    requires forall k :: b <= k < hi ==> IsWhitespace(s[k])
    requires b > lo ==> !IsWhitespace(s[b - 1])
    ensures SpaceRunStart(s, lo, hi) == b
  {
  }

  /** Trimming a value padded with blanks on both sides gives back the value. */
  lemma TrimRemovesPadding(before: string, s: string, after: string)
    requires IsBlank(before) && IsBlank(after)
    requires s != [] && !IsWhitespace(s[0]) && !IsWhitespace(s[|s| - 1])
    ensures Trim(before + s + after) == s
  {
    var x := before + s + after;
    var i := |before|;
    var j := |before| + |s|;
    assert forall k :: 0 <= k < i ==> x[k] == before[k];
    assert forall k :: j <= k < |x| ==> x[k] == after[k - j];
    assert x[i] == s[0] && x[j - 1] == s[|s| - 1];
    SpaceRunEndIs(x, 0, i);
    SpaceRunStartIs(x, i, |x|, j);
    assert x[i..j] == s;
  }

  /** `Char.uppercaseChar()` on ASCII letters. */
  function UpperChar(c: char): (u: char)
    ensures 'a' <= c <= 'z' ==> 'A' <= u <= 'Z' && u as int == c as int - 32
    ensures !('a' <= c <= 'z') ==> u == c
  {
    if 'a' <= c <= 'z' then (c as int - 32) as char else c
  }

  /** `Char.lowercaseChar()` on ASCII letters. */
  function LowerChar(c: char): (l: char)
    ensures 'A' <= c <= 'Z' ==> 'a' <= l <= 'z' && l as int == c as int + 32
    ensures !('A' <= c <= 'Z') ==> l == c
  {
    if 'A' <= c <= 'Z' then (c as int + 32) as char else c
  }

  /** `uppercase()`: every character mapped by `UpperChar`. */
  function Upper(s: string): (r: string)
    ensures |r| == |s| && forall i :: 0 <= i < |s| ==> r[i] == UpperChar(s[i])
  {
    if s == [] then [] else [UpperChar(s[0])] + Upper(s[1..])
  }

  /** `lowercase()`: every character mapped by `LowerChar`. */
  function Lower(s: string): (r: string)
    ensures |r| == |s| && forall i :: 0 <= i < |s| ==> r[i] == LowerChar(s[i])
  {
    if s == [] then [] else [LowerChar(s[0])] + Lower(s[1..])
  }

  /** `a.equals(b, ignoreCase = true)`: same length, and the characters agree after case mapping. */
  predicate EqualsIgnoreCase(a: string, b: string) {
    |a| == |b| && forall i :: 0 <= i < |a| ==> UpperChar(a[i]) == UpperChar(b[i])
  }

  lemma EqualsIgnoreCaseIsUpperEquality(a: string, b: string)
    ensures EqualsIgnoreCase(a, b) <==> Upper(a) == Upper(b)
  {
    if Upper(a) == Upper(b) {
      assert forall i :: 0 <= i < |a| ==> Upper(a)[i] == Upper(b)[i];
    }
  }

  /** `a < b` by `String.compareTo`: lexicographic on characters, a proper prefix first. */
  predicate StrLess(a: string, b: string) {
    if a == [] then b != []
    else if b == [] then false
    else a[0] < b[0] || (a[0] == b[0] && StrLess(a[1..], b[1..]))
  }

  /**
   * `a.compareTo(b)`: the difference of the first characters that differ, or of
   * the lengths when one string is a prefix of the other. Its sign is the order.
   */
  function StrCompare(a: string, b: string): (r: int)
    ensures r < 0 <==> StrLess(a, b)
    ensures r == 0 <==> a == b
    ensures r > 0 <==> StrLess(b, a)
  {
    if a == [] || b == [] then |a| - |b|
    else if a[0] != b[0] then a[0] as int - b[0] as int
    else
      var r := StrCompare(a[1..], b[1..]);
      assert a == [a[0]] + a[1..] && b == [b[0]] + b[1..];
      r
  }

  /** Upper-casing undoes lower-casing on upper-case letters, and the other way round. */
  lemma CaseRoundTrip(c: char)
    ensures 'a' <= c <= 'z' ==> LowerChar(UpperChar(c)) == c
    ensures 'A' <= c <= 'Z' ==> UpperChar(LowerChar(c)) == c
    ensures UpperChar(UpperChar(c)) == UpperChar(c) && LowerChar(LowerChar(c)) == LowerChar(c)
  {
  }

  lemma {:induction false} StrLessIrreflexive(a: string)
    ensures !StrLess(a, a)
  {
    if a != [] { StrLessIrreflexive(a[1..]); }
  }

  lemma {:induction false} StrLessTransitive(a: string, b: string, c: string)
    requires StrLess(a, b) && StrLess(b, c)
    ensures StrLess(a, c)
  {
    if a != [] && a[0] == b[0] && b[0] == c[0] {
      StrLessTransitive(a[1..], b[1..], c[1..]);
    }
  }

  lemma {:induction false} StrLessTotal(a: string, b: string)
    ensures a == b || StrLess(a, b) || StrLess(b, a)
  {
    if a != [] && b != [] && a[0] == b[0] {
      StrLessTotal(a[1..], b[1..]);
      if a[1..] == b[1..] {
        assert a == [a[0]] + a[1..] && b == [b[0]] + b[1..];
      }
    }
  }
}
