/**
 * The character classes of Python's `str.isalpha`, `str.isdigit` and
 * `str.lower`, restricted to ASCII.
 */
module Ascii {

  /** `c.isalpha()` for an ASCII character. */
  predicate IsLetter(c: char)
    ensures IsLetter(c) ==> c != ' ' && c != '_'
  {
    'a' <= c <= 'z' || 'A' <= c <= 'Z'
  }

  /** `c.isdigit()` for an ASCII character. */
  predicate IsDigit(c: char)
    ensures IsDigit(c) ==> !IsLetter(c) && c != ' ' && c != '_'
  {
    '0' <= c <= '9'
  }

  predicate IsUpper(c: char) {
    'A' <= c <= 'Z'
  }

  /** `c.lower()` for an ASCII character: upper-case letters move down, all else stays. */
  function ToLower(c: char): (r: char)
    ensures !IsUpper(r)
    ensures IsLetter(c) <==> IsLetter(r)
    ensures !IsUpper(c) ==> r == c
  {
    if IsUpper(c) then (c as int - 'A' as int + 'a' as int) as char else c
  }

  /** The value of one decimal digit. */
  function DigitValue(c: char): (d: nat)
    requires IsDigit(c)
    ensures d < 10
  {
    c as int - '0' as int
  }

  /** The digit whose value is `d`. */
  function DigitChar(d: nat): (c: char)
    requires d < 10
    ensures IsDigit(c) && DigitValue(c) == d
  {
    ('0' as int + d) as char
  }
}
