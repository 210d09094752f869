/** C strings as the freestanding tools see them: text without NUL, read past its end as NUL. */
module CText {
  type CString = s: string | '\0' !in s witness ""

  /** The byte a pointer at p reads. */
  function At(s: string, p: nat): (c: char) {
    if p < |s| then s[p] else '\0'
  }

  predicate StartsWith(s: string, prefix: string) {
    |prefix| <= |s| && s[..|prefix|] == prefix
  }
}
