/** Substring and prefix tests over strings, with a declarative meaning for each scan. */
module Strings {

  /** `p` occurs in `s` starting at position `i`. */
  ghost predicate OccursAt(s: string, p: string, i: int) {
    0 <= i && i + |p| <= |s| && s[i..i + |p|] == p
  }

  /** Python's `p in s` for strings. */
  ghost predicate Contains(s: string, p: string) {
    exists i :: OccursAt(s, p, i)
  }

  /** Python's `s.startswith(p)`. */
  predicate StartsWith(s: string, p: string) {
    |p| <= |s| && s[..|p|] == p
  }

  /** The ASCII decimal digits. */
  predicate IsDigit(c: char) {
    '0' <= c <= '9'
  }

  /** Left-to-right search for `p` in `s` from position `i` on. */
  function OccursFrom(s: string, p: string, i: nat): (r: bool)
    ensures r <==> exists j :: i <= j && OccursAt(s, p, j)
    decreases |s| - i
  {
    if i + |p| > |s| then false
    else if s[i..i + |p|] == p then assert OccursAt(s, p, i); true
    else OccursFrom(s, p, i + 1)
  }

  /** Executable substring test. */
  function HasSubstring(s: string, p: string): (r: bool)
    ensures r <==> Contains(s, p)
  {
    OccursFrom(s, p, 0)
  }
}
