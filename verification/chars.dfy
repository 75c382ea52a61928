/** The character classes both scanners test with: ASCII ranges compared
    code point by code point, exactly as single-character string comparison
    does in the original. */
module Chars {

  /** The characters the token scanner skips between tokens. */
  predicate IsSpace(c: char) {
    c == ' ' || c == '\t' || c == '\r' || c == '\n'
  }

  predicate IsDigit(c: char) {
    '0' <= c <= '9'
  }

  predicate IsLetter(c: char) {
    ('a' <= c <= 'z') || ('A' <= c <= 'Z')
  }

  /** A character that may continue (but not start) an identifier. */
  predicate IsIdentChar(c: char) {
    IsLetter(c) || IsDigit(c) || c == '_'
  }

  /** Text the token scanner accepts as one identifier: a letter followed by
      letters, digits and underscores. */
  predicate IsIdentifierText(t: string) {
    |t| > 0 && IsLetter(t[0]) && forall k :: 0 <= k < |t| ==> IsIdentChar(t[k])
  }
}
