/**
 * The handful of Python `str` operations the scripts rely on, restricted to
 * ASCII: `str.find`, the `in` operator on strings, slicing with clamped
 * bounds, `str.strip()` and `str.lower()`.
 */
module Text {

  /** `pat` occurs in `s` starting at index `i`. */
  predicate OccursAt(s: string, pat: string, i: int)
  {
    0 <= i && i + |pat| <= |s| && s[i..i + |pat|] == pat
  }

  /** Python's `s.find(pat)`: the least index at which `pat` occurs, or -1. */
  function Find(s: string, pat: string): (r: int)
    ensures r == -1 <==> forall i :: 0 <= i <= |s| ==> !OccursAt(s, pat, i)
    ensures r != -1 ==> OccursAt(s, pat, r)
    ensures forall i :: 0 <= i < r ==> !OccursAt(s, pat, i)
  {
    FindFrom(s, pat, 0)
  }

  /** The least index at or after `from` at which `pat` occurs, or -1. */
  function FindFrom(s: string, pat: string, from: nat): (r: int)
    requires from <= |s|
    ensures r == -1 <==> forall i :: from <= i <= |s| ==> !OccursAt(s, pat, i)
    ensures r != -1 ==> from <= r && OccursAt(s, pat, r)
    ensures forall i :: from <= i < r ==> !OccursAt(s, pat, i)
    decreases |s| - from
  {
    if from + |pat| > |s| then -1
    else if s[from..from + |pat|] == pat then assert OccursAt(s, pat, from); from
    else if from == |s| then -1
    else FindFrom(s, pat, from + 1)
  }

  /** Python's `pat in s`. */
  predicate Contains(s: string, pat: string)
  {
    Find(s, pat) != -1
  }

  /** `i` is the first index at which `pat` occurs in `s`. */
  predicate FirstAt(s: string, pat: string, i: int)
  {
    OccursAt(s, pat, i) && forall j :: 0 <= j < i ==> !OccursAt(s, pat, j)
  }

  lemma FindIsFirst(s: string, pat: string, i: int)
    requires FirstAt(s, pat, i)
    ensures Find(s, pat) == i
  {
  }

  /** A Python slice bound: a negative bound counts from the end, then the result is clamped to 0..n. */
  function ClampBound(i: int, n: nat): (b: nat)
    ensures b <= n
    ensures 0 <= i <= n ==> b == i
    ensures i > n ==> b == n
    ensures i < 0 <= i + n ==> b == i + n
    ensures i + n < 0 ==> b == 0
  {
    if i < 0 then (if i + n < 0 then 0 else i + n)
    else if i > n then n
    else i
  }

  /** Python's `s[i:j]`, which never fails: out-of-range bounds are clamped and a reversed range is empty. */
  function Slice(s: string, i: int, j: int): (r: string)
    ensures |r| <= |s|
    ensures 0 <= i <= j <= |s| ==> r == s[i..j]
    ensures 0 <= j <= i ==> r == ""
    ensures 0 <= i <= |s| < j ==> r == s[i..]
    ensures i < -|s| && 0 <= j <= |s| ==> r == s[..j]
    ensures -|s| <= i <= j < 0 ==> r == s[|s| + i..|s| + j]
    ensures 0 <= i <= |s| && -|s| <= j < 0 ==> r == (if i <= |s| + j then s[i..|s| + j] else "")
    ensures j < -|s| ==> r == ""
  {
    var a, b := ClampBound(i, |s|), ClampBound(j, |s|);
    if a < b then s[a..b] else ""
  }

  /**
   * The ASCII characters for which Python's `str.isspace()` holds: space,
   * the controls 9..13 (tab, line feed, vertical tab, form feed, carriage
   * return) and the separators 28..31.
   */
  predicate IsSpace(c: char)
  {
    c == ' ' || 9 <= c as int <= 13 || 28 <= c as int <= 31
  }

  predicate AllSpace(s: string)
  {
    forall k :: 0 <= k < |s| ==> IsSpace(s[k])
  }

  /** Number of leading whitespace characters. */
  function LeadingSpace(s: string): (n: nat)
    ensures n <= |s|
    ensures AllSpace(s[..n])
    ensures n < |s| ==> !IsSpace(s[n])
  {
    if s == [] || !IsSpace(s[0]) then 0
    else 1 + LeadingSpace(s[1..])
  }

  /** Length of `s` without its trailing whitespace. */
  function TrimmedEnd(s: string): (n: nat)
    ensures n <= |s|
    ensures AllSpace(s[n..])
    ensures n > 0 ==> !IsSpace(s[n - 1])
  {
    if s == [] || !IsSpace(s[|s| - 1]) then |s|
    else TrimmedEnd(s[..|s| - 1])
  }

  /** Python's `s.strip()` over ASCII whitespace. */
  function Strip(s: string): (r: string)
    ensures |r| <= |s|
    ensures r == "" || (!IsSpace(r[0]) && !IsSpace(r[|r| - 1]))
    ensures exists i :: 0 <= i <= |s| - |r| && s[i..i + |r|] == r && AllSpace(s[..i]) && AllSpace(s[i + |r|..])
  {
    var e := TrimmedEnd(s);
    var t := s[..e];
    var b := LeadingSpace(t);
    assert s[..b] == t[..b];
    assert s[e..] == s[b + |t[b..]|..];
    t[b..]
  }

  lemma StripEmpty()
    ensures Strip("") == ""
  {
  }

  /** Python's `c.lower()` on an ASCII character. */
  function LowerChar(c: char): (d: char)
    ensures 'A' <= c <= 'Z' ==> 'a' <= d <= 'z' && d as int - c as int == 'a' as int - 'A' as int
    ensures !('A' <= c <= 'Z') ==> d == c
  {
    if 'A' <= c <= 'Z' then (c as int - 'A' as int + 'a' as int) as char else c
  }

  /** Python's `s.lower()`, ASCII letters only. */
  function Lower(s: string): (r: string)
    ensures |r| == |s|
    ensures forall k :: 0 <= k < |s| ==> r[k] == LowerChar(s[k])
  {
    seq(|s|, k requires 0 <= k < |s| => LowerChar(s[k]))
  }
}
