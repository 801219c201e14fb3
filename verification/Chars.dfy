/** Character classes shared by the Fluent parser and the language identifiers. */
module Chars {

  predicate IsAlpha(c: char) { 'a' <= c <= 'z' || 'A' <= c <= 'Z' }

  predicate IsDigit(c: char) { '0' <= c <= '9' }

  predicate IsAlnum(c: char) { IsAlpha(c) || IsDigit(c) }

  predicate IsHex(c: char) { IsDigit(c) || 'a' <= c <= 'f' || 'A' <= c <= 'F' }

  predicate IsIdentChar(c: char) { IsAlpha(c) || IsDigit(c) || c == '-' || c == '_' }

  predicate All(s: string, p: char -> bool) { forall i | 0 <= i < |s| :: p(s[i]) }

  /** [a-zA-Z][a-zA-Z0-9_-]* */
  predicate IsIdentifier(s: string) {
    && |s| > 0
    && IsAlpha(s[0])
    && All(s, IsIdentChar)
  }
}
