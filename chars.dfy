/** Character classes shared by the modules of this project, restricted to ASCII. */
module Chars {

  /** ASCII characters for which Python's `str.isspace` holds (and `\s` matches). */
  predicate IsSpace(c: char) {
    c == ' ' || 9 <= c as int <= 13 || 28 <= c as int <= 31
  }
}
