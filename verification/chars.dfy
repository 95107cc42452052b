/** Character classes recognised by the entry-header scanners. */
module Chars {

  predicate IsDigit(c: char) {
    '0' <= c <= '9'
  }

  predicate IsLetter(c: char) {
    'a' <= c <= 'z' || 'A' <= c <= 'Z'
  }

  predicate IsAlnum(c: char) {
    IsDigit(c) || IsLetter(c)
  }

  /** A character allowed inside a pre-release or build-metadata identifier list:
      alphanumerics, `.` separators and `-`. */
  predicate IsIdentChar(c: char) {
    IsAlnum(c) || c == '.' || c == '-'
  }

  /** A character that could extend a version token when it directly follows one. */
  predicate IsTokenChar(c: char) {
    IsIdentChar(c) || c == '+'
  }

  /** Indentation and Markdown heading markers that may precede the version token. */
  predicate IsLeadChar(c: char) {
    c == ' ' || c == '\t' || c == '#'
  }

  /** Separator noise between the version token and the date: anything on the
      header line that is not a letter or a digit. */
  predicate IsNoise(c: char) {
    !IsAlnum(c) && c != '\n'
  }

  /** Characters a blank line may consist of. */
  predicate IsSpace(c: char) {
    c == ' ' || c == '\t' || c == '\r'
  }
}
