/**
 * The two string transformations the script applies to user input:
 * Python's `str.lower()` and `str.title()`, restricted to ASCII letters.
 */
module Text {

  predicate IsUpper(c: char) { 'A' <= c <= 'Z' }

  predicate IsLower(c: char) { 'a' <= c <= 'z' }

  /** A cased character in the sense of Python's `str.title()`. */
  predicate IsLetter(c: char) { IsUpper(c) || IsLower(c) }

  function LowerChar(c: char): char
  {
    if IsUpper(c) then (c as int + 32) as char else c
  }

  function UpperChar(c: char): char
  {
    if IsLower(c) then (c as int - 32) as char else c
  }

  /** No upper-case letter occurs in `s`. */
  predicate IsLowerCase(s: string)
  {
    forall i :: 0 <= i < |s| ==> !IsUpper(s[i])
  }

  /** `str.lower()`: every upper-case letter replaced by its lower-case partner. */
  function Lower(s: string): (r: string)
    ensures |r| == |s|
    ensures IsLowerCase(r)
    ensures forall i :: 0 <= i < |s| ==> LowerChar(r[i]) == LowerChar(s[i])
  {
    seq(|s|, i requires 0 <= i < |s| => LowerChar(s[i]))
  }

  /** A string that is already lower-case is its own `lower()`, so `lower()` is idempotent. */
  lemma LowerOfLowerCase(s: string)
    requires IsLowerCase(s)
    ensures Lower(s) == s
    ensures Lower(Lower(s)) == Lower(s)
  {
  }

  /**
   * `str.title()`: a letter that follows a letter is lower-cased, any other letter
   * upper-cased; other characters are kept.
   */
  function Title(s: string): (r: string)
    ensures |r| == |s|
    ensures Lower(r) == Lower(s)
  {
    seq(|s|, i requires 0 <= i < |s| =>
      if !IsLetter(s[i]) then s[i]
      else if i > 0 && IsLetter(s[i - 1]) then LowerChar(s[i])
      else UpperChar(s[i]))
  }

  /**
   * What title case means: non-letters are kept, and a letter comes out upper-case
   * exactly when it starts a word (no letter before it), lower-case otherwise.
   */
  lemma TitleMarksWordStarts(s: string)
    ensures forall i :: 0 <= i < |s| && !IsLetter(s[i]) ==> Title(s)[i] == s[i]
    ensures forall i :: 0 <= i < |s| && IsLetter(s[i]) ==>
      && IsLetter(Title(s)[i])
      && (IsUpper(Title(s)[i]) <==> i == 0 || !IsLetter(s[i - 1]))
  {
  }

  /** Title-casing twice is title-casing once. */
  lemma TitleIdempotent(s: string)
    ensures Title(Title(s)) == Title(s)
  {
  }

  /** The title case of one lower-case word capitalises its first letter and keeps the rest. */
  lemma TitleOfLowerWord(s: string)
    requires |s| > 0
    requires forall i :: 0 <= i < |s| ==> IsLower(s[i])
    ensures Title(s) == [UpperChar(s[0])] + s[1..]
    ensures IsUpper(Title(s)[0])
  {
  }
}
