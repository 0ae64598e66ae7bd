/**
 * ASCII character classes and the case mapping of Python's `str.capitalize`,
 * which the registration step applies to the submitted role key before it
 * looks the role up (hello.py:85 and hello.py:88).
 */
module Ascii {

  predicate IsUpper(c: char) {
    'A' <= c <= 'Z'
  }

  predicate IsLower(c: char) {
    'a' <= c <= 'z'
  }

  /** Upper-cases an ASCII letter; every other character is returned as is. */
  function Upper(c: char): char {
    if IsLower(c) then (c as int - 32) as char else c
  }

  /** Lower-cases an ASCII letter; every other character is returned as is. */
  function Lower(c: char): char {
    if IsUpper(c) then (c as int + 32) as char else c
  }

  /** The lower-cased tail of `Capitalize`: the same string with every ASCII letter in lower case. */
  function LowerAll(s: string): (r: string)
    ensures |r| == |s|
    ensures forall i :: 0 <= i < |s| ==> r[i] == Lower(s[i])
  {
    if |s| == 0 then [] else [Lower(s[0])] + LowerAll(s[1..])
  }

  /** `str.capitalize` over ASCII: the first character in upper case, the rest in lower case. */
  function Capitalize(s: string): (r: string)
    ensures |r| == |s|
    ensures |s| > 0 ==> r[0] == Upper(s[0])
    ensures forall i :: 0 < i < |s| ==> r[i] == Lower(s[i])
  {
    if |s| == 0 then [] else [Upper(s[0])] + LowerAll(s[1..])
  }

  /** A string already in capitalised form: no lower-case letter first, no upper-case letter after. */
  predicate IsCapitalized(s: string) {
    && (|s| > 0 ==> !IsLower(s[0]))
    && forall i :: 0 < i < |s| ==> !IsUpper(s[i])
  }

  /** Two strings that differ at most in the case of their ASCII letters. */
  predicate SameIgnoringCase(s: string, t: string) {
    |s| == |t| && forall i :: 0 <= i < |s| ==> Lower(s[i]) == Lower(t[i])
  }

  /** The result of Capitalize is in capitalised form, and a capitalised string is left alone. */
  lemma CapitalizeFixesExactlyCapitalized(s: string)
    ensures IsCapitalized(Capitalize(s))
    ensures Capitalize(s) == s <==> IsCapitalized(s)
  {
  }

  /** Capitalising twice is capitalising once. */
  lemma CapitalizeIdempotent(s: string)
    ensures Capitalize(Capitalize(s)) == Capitalize(s)
  {
  }

  /**
   * Capitalize sends two strings to the same result exactly when they differ
   * only in letter case, so "admin", "Admin" and "ADMIN" all name one role.
   */
  lemma CapitalizeIgnoresCase(s: string, t: string)
    ensures Capitalize(s) == Capitalize(t) <==> SameIgnoringCase(s, t)
  {
  }
}
