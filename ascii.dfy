/** Lowercasing of command names, as `String.toLowerCase(Locale.ENGLISH)` does it
    for the ASCII letters. */
module Ascii {

  predicate IsUpper(c: char) { 'A' <= c <= 'Z' }

  /** The lowercase form of one character: A-Z map to a-z, every other character is kept. */
  function LowerChar(c: char): (d: char)
    ensures IsUpper(c) ==> d as int == c as int + 32
    ensures !IsUpper(c) ==> d == c
    ensures !IsUpper(d)
  {
    if IsUpper(c) then (c as int + 32) as char else c
  }

  /** A string with no upper-case letter: the form every registered command name has. */
  predicate IsLower(s: string)
  {
    forall i :: 0 <= i < |s| ==> !IsUpper(s[i])
  }

  function Lower(s: string): (r: string)
    ensures |r| == |s|
    ensures forall i :: 0 <= i < |s| ==> r[i] == LowerChar(s[i])
    ensures IsLower(r)
  {
    seq(|s|, i requires 0 <= i < |s| => LowerChar(s[i]))
  }

  /** Lowercasing twice is lowercasing once, so a stored key looks itself up. */
  lemma LowerIdempotent(s: string)
    ensures Lower(Lower(s)) == Lower(s)
  {
  }
}
