/**
 * Character classification and case mapping over an ASCII alphabet.
 *
 * Swift's `Character.isLetter`, `isNumber`, `isUppercase`, `isLowercase` and
 * `uppercased()`/`lowercased()` are Unicode-aware; this model restricts them
 * to ASCII, where every case map is one character to one character.
 */
module Characters {

  predicate IsUppercase(c: char) { 'A' <= c <= 'Z' }

  predicate IsLowercase(c: char) { 'a' <= c <= 'z' }

  predicate IsLetter(c: char) { IsUppercase(c) || IsLowercase(c) }

  predicate IsNumber(c: char) { '0' <= c <= '9' }

  /** `Character.isAlphanumeric` (DefaultTokenizer.swift): a letter or a number. */
  predicate IsAlphanumeric(c: char) { IsLetter(c) || IsNumber(c) }

  const CaseOffset: int := 'a' as int - 'A' as int

  function ToUpper(c: char): (r: char)
    ensures IsLowercase(c) ==> IsUppercase(r) && r as int == c as int - CaseOffset
    ensures !IsLowercase(c) ==> r == c
  {
    if IsLowercase(c) then (c as int - CaseOffset) as char else c
  }

  function ToLower(c: char): (r: char)
    ensures IsUppercase(c) ==> IsLowercase(r) && r as int == c as int + CaseOffset
    ensures !IsUppercase(c) ==> r == c
  {
    if IsUppercase(c) then (c as int + CaseOffset) as char else c
  }

  /** Case mapping never changes the letter/number classification of a character. */
  lemma CaseMapsKeepClasses(c: char)
    ensures IsLetter(ToUpper(c)) == IsLetter(c) && IsLetter(ToLower(c)) == IsLetter(c)
    ensures IsNumber(ToUpper(c)) == IsNumber(c) && IsNumber(ToLower(c)) == IsNumber(c)
    ensures !IsLowercase(ToUpper(c)) && !IsUppercase(ToLower(c))
  {
  }

  /** The two case maps undo each other on letters of the opposite case. */
  lemma CaseMapsInverse(c: char)
    ensures IsLowercase(c) ==> ToLower(ToUpper(c)) == c
    ensures IsUppercase(c) ==> ToUpper(ToLower(c)) == c
  {
  }

  /** True when every character of `s` satisfies `p`. */
  predicate All(s: string, p: char -> bool) {
    forall i :: 0 <= i < |s| ==> p(s[i])
  }
}
