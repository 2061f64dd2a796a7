/**
 * ASCII case folding, standing for Python's `str.upper()` and `str.lower()`.
 * Only the letters 'a'..'z' and 'A'..'Z' change; every other character is kept.
 */
module Text {

  predicate IsLowerLetter(ch: char) { 'a' <= ch <= 'z' }

  predicate IsUpperLetter(ch: char) { 'A' <= ch <= 'Z' }

  function UpperChar(ch: char): char
  {
    if IsLowerLetter(ch) then (ch as int - 32) as char else ch
  }

  function LowerChar(ch: char): char
  {
    if IsUpperLetter(ch) then (ch as int + 32) as char else ch
  }

  function Upper(s: string): string
  {
    seq(|s|, i requires 0 <= i < |s| => UpperChar(s[i]))
  }

  function Lower(s: string): string
  {
    seq(|s|, i requires 0 <= i < |s| => LowerChar(s[i]))
  }

  /** Two characters that are the same letter written in either case, or the same character. */
  predicate SameIgnoringCase(x: char, y: char)
  {
    || x == y
    || (IsLowerLetter(x) && y as int == x as int - 32)
    || (IsLowerLetter(y) && x as int == y as int - 32)
  }

  /** Two strings that differ at most in the letter case of some positions. */
  predicate CaseVariants(a: string, b: string)
  {
    |a| == |b| && forall i :: 0 <= i < |a| ==> SameIgnoringCase(a[i], b[i])
  }

  /** Upper-casing identifies exactly the strings that differ only in letter case. */
  lemma UpperIdentifiesCaseVariants(a: string, b: string)
    ensures Upper(a) == Upper(b) <==> CaseVariants(a, b)
  {
    if Upper(a) == Upper(b) {
      forall i | 0 <= i < |a|
        ensures SameIgnoringCase(a[i], b[i])
      {
        assert Upper(a)[i] == Upper(b)[i];
      }
    }
  }

  /** Lower-casing identifies exactly the same pairs as upper-casing. */
  lemma LowerIdentifiesCaseVariants(a: string, b: string)
    ensures Lower(a) == Lower(b) <==> CaseVariants(a, b)
  {
    if Lower(a) == Lower(b) {
      forall i | 0 <= i < |a|
        ensures SameIgnoringCase(a[i], b[i])
      {
        assert Lower(a)[i] == Lower(b)[i];
      }
    }
  }

  /** An upper-cased string has no lower-case letter left, so upper-casing it again changes nothing. */
  lemma UpperIdempotent(s: string)
    ensures forall i :: 0 <= i < |Upper(s)| ==> !IsLowerLetter(Upper(s)[i])
    ensures Upper(Upper(s)) == Upper(s)
  {
  }
}
