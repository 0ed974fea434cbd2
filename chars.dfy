/** Character classes of JavaScript regular expressions and number parsing. */
module Chars {

  /** `\s` in a regular expression, and the white space `parseInt` skips:
      tab, line tabulation, form feed, space, no-break space, the Unicode
      space separators, line and paragraph separators, line feed, carriage
      return and the byte-order mark. */
  predicate IsWhiteSpace(c: char) {
    c == '\t' || c == '\n' || c == '\U{000B}' || c == '\U{000C}' || c == '\r' || c == ' ' ||
    c == '\U{00A0}' || c == '\U{1680}' || ('\U{2000}' <= c <= '\U{200A}') ||
    c == '\U{2028}' || c == '\U{2029}' || c == '\U{202F}' || c == '\U{205F}' ||
    c == '\U{3000}' || c == '\U{FEFF}'
  }

  /** `\d`: the ASCII digits only. */
  predicate IsDecimalDigit(c: char) { '0' <= c <= '9' }
}
