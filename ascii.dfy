/**
 * Character classes and case mapping, restricted to ASCII.
 *
 * Python's `\w` and `str.lower()` follow Unicode; this model keeps only their
 * ASCII part: the word characters are the letters, the digits and `_`, and
 * lowercasing maps `A`..`Z` to `a`..`z` and leaves every other character alone.
 */
module Ascii {

  predicate IsUpper(c: char) { 'A' <= c <= 'Z' }

  predicate IsLower(c: char) { 'a' <= c <= 'z' }

  predicate IsDigit(c: char) { '0' <= c <= '9' }

  /** A character that `\w` matches. */
  predicate IsWordChar(c: char) {
    IsUpper(c) || IsLower(c) || IsDigit(c) || c == '_'
  }

  /** `c.lower()` for an ASCII character. */
  function Lower(c: char): (d: char)
    ensures !IsUpper(d)
    ensures IsUpper(c) ==> IsLower(d) && d as int == c as int + 32
    ensures !IsUpper(c) ==> d == c
    ensures IsWordChar(d) <==> IsWordChar(c)
  {
    if IsUpper(c) then (c as int + 32) as char else c
  }

  /** `s.lower()`: every character lowercased, the length unchanged. */
  function LowerText(s: string): (r: string)
    ensures |r| == |s|
    ensures forall i :: 0 <= i < |s| ==> r[i] == Lower(s[i])
  {
    seq(|s|, i requires 0 <= i < |s| => Lower(s[i]))
  }

  /** Lowercasing a lowercased text changes nothing. */
  lemma LowerTextIdempotent(s: string)
    ensures LowerText(LowerText(s)) == LowerText(s)
  {
  }

  /** Lowercasing commutes with taking a slice. */
  lemma LowerTextSlice(s: string, lo: nat, hi: nat)
    requires lo <= hi <= |s|
    ensures LowerText(s[lo..hi]) == LowerText(s)[lo..hi]
  {
  }
}
