/** The string tests of the Go standard library that the source calls. */
module Strings {

  predicate HasPrefix(s: string, prefix: string) { |prefix| <= |s| && s[..|prefix|] == prefix }

  predicate HasSuffix(s: string, suffix: string) { |suffix| <= |s| && s[|s| - |suffix|..] == suffix }

  predicate Contains(s: string, part: string) {
    HasPrefix(s, part) || (s != "" && Contains(s[1..], part))
  }

  /** A string has no part with a character it does not have. */
  lemma {:induction false} NotContained(s: string, part: string, c: char)
    requires c in part && c !in s
    ensures !Contains(s, part)
  {
    var i :| 0 <= i < |part| && part[i] == c;
    if |part| <= |s| { assert s[..|part|][i] == s[i]; }
    if s != "" { NotContained(s[1..], part, c); }
  }
}
