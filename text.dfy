/**
 * The few string operations of Python's standard library that the journal
 * relies on: `str.lower`, `str.upper` and the substring test `x in s`.
 * Case mapping is restricted to the ASCII letters.
 */
module Text {

  predicate IsLowerLetter(c: char) { 'a' <= c <= 'z' }

  predicate IsUpperLetter(c: char) { 'A' <= c <= 'Z' }

  function LowerChar(c: char): char
  {
    if IsUpperLetter(c) then (c as int + 32) as char else c
  }

  function UpperChar(c: char): char
  {
    if IsLowerLetter(c) then (c as int - 32) as char else c
  }

  /** `s.lower()` */
  function Lower(s: string): (r: string)
    ensures |r| == |s|
    ensures forall i :: 0 <= i < |s| ==> r[i] == LowerChar(s[i])
  {
    seq(|s|, i requires 0 <= i < |s| => LowerChar(s[i]))
  }

  lemma LowerConcat(a: string, b: string)
    ensures Lower(a + b) == Lower(a) + Lower(b)
  {
    assert forall i :: 0 <= i < |a + b| ==> Lower(a + b)[i] == (Lower(a) + Lower(b))[i];
  }

  /** No lower-case ASCII letter occurs in `s`. */
  predicate IsUpperCased(s: string)
  {
    forall i :: 0 <= i < |s| ==> !IsLowerLetter(s[i])
  }

  /** `s.upper()`: the result has no lower-case letter, leaves every other
      character alone and spells the same word ignoring case. */
  function Upper(s: string): (r: string)
    ensures |r| == |s|
    ensures IsUpperCased(r)
    ensures forall i :: 0 <= i < |s| && !IsLowerLetter(s[i]) ==> r[i] == s[i]
    ensures Lower(r) == Lower(s)
  {
    var r := seq(|s|, i requires 0 <= i < |s| => UpperChar(s[i]));
    assert forall i :: 0 <= i < |s| ==> Lower(r)[i] == Lower(s)[i];
    r
  }

  /** `pat` occurs in `s` starting at index `i`. */
  ghost predicate OccursAt(s: string, pat: string, i: int)
  {
    0 <= i && i + |pat| <= |s| && s[i..i + |pat|] == pat
  }

  lemma OccursAtShift(s: string, pat: string, i: int)
    requires |s| > 0 && 0 <= i
    ensures OccursAt(s[1..], pat, i) <==> OccursAt(s, pat, i + 1)
  {
    if 0 <= i && i + |pat| <= |s| - 1 {
      assert s[1..][i..i + |pat|] == s[i + 1..i + 1 + |pat|];
    }
  }

  /** Python's `pat in s` for strings. */
  function Contains(s: string, pat: string): (b: bool)
    ensures b <==> exists i :: OccursAt(s, pat, i)
    decreases |s|
  {
    if |s| < |pat| then
      false
    else if s[..|pat|] == pat then
      assert OccursAt(s, pat, 0);
      true
    else
      var b := Contains(s[1..], pat);
      assert b <==> exists i :: OccursAt(s, pat, i) by {
        assert !OccursAt(s, pat, 0);
        forall i | OccursAt(s, pat, i)
          ensures OccursAt(s[1..], pat, i - 1)
        {
          OccursAtShift(s, pat, i - 1);
        }
        forall i | OccursAt(s[1..], pat, i)
          ensures OccursAt(s, pat, i + 1)
        {
          OccursAtShift(s, pat, i);
        }
      }
      b
  }
}
