/** Character classes on key codes and characters, as the `curses.ascii`
    helpers and Python's `str` methods define them on the ASCII range. */
module Ascii {

  /** `curses.ascii.isalpha`: an upper- or lower-case ASCII letter. */
  predicate IsAlphaCode(k: int) {
    65 <= k <= 90 || 97 <= k <= 122
  }

  /** `curses.ascii.isprint`: space up to tilde. */
  predicate IsPrintCode(k: int) {
    32 <= k <= 126
  }

  /** `curses.ascii.isspace`: tab, line feed, vertical tab, form feed,
      carriage return and space. */
  predicate IsSpaceCode(k: int) {
    9 <= k <= 13 || k == 32
  }

  /** `str.isalpha` on one character, restricted to ASCII. */
  predicate IsAlpha(c: char) {
    IsAlphaCode(c as int)
  }

  /** The characters Python 2's byte-string `str.strip()` removes when
      given no argument: the C library's white space, the same class as
      `curses.ascii.isspace`. */
  predicate IsStripSpace(c: char) {
    IsSpaceCode(c as int)
  }

  /** The characters `str.strip('. ')` removes. */
  predicate IsDotOrSpace(c: char) {
    c == '.' || c == ' '
  }

  predicate IsUpper(c: char) {
    'A' <= c <= 'Z'
  }

  /** `str.lower` on one character, restricted to ASCII. */
  function Lower(c: char): (l: char)
    ensures IsAlpha(c) <==> IsAlpha(l)
    ensures !IsUpper(l)
    ensures !IsUpper(c) ==> l == c
    ensures IsUpper(c) ==> l as int == c as int + 32
  {
    if IsUpper(c) then (c as int + 32) as char else c
  }
}
