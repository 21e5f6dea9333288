/** The few string operations of the Java runtime that the services rely on. */
module Text {

  /** Java's `Character.isWhitespace`, restricted to the ASCII range (space, the tab, line feed,
      vertical tab, form feed and carriage return, and the four information separators). */
  predicate IsWhitespace(c: char) {
    c == ' ' || ('\t' <= c <= '\r') || ('\U{1C}' <= c <= '\U{1F}')
  }

  /** Java's `String.isBlank`: empty or white space only. */
  predicate IsBlank(s: string) {
    forall i :: 0 <= i < |s| ==> IsWhitespace(s[i])
  }

  /** Upper-casing of one character, for the Latin letters a-z. */
  function ToUpper(c: char): (u: char)
    ensures 'a' <= c <= 'z' ==> u as int == c as int - 32
    ensures !('a' <= c <= 'z') ==> u == c
    ensures 'a' <= u <= 'z' ==> u == c
  {
    if 'a' <= c <= 'z' then (c as int - 32) as char else c
  }

  function Upper(s: string): (u: string)
    ensures |u| == |s|
    ensures forall i :: 0 <= i < |s| ==> u[i] == ToUpper(s[i])
  {
    seq(|s|, i requires 0 <= i < |s| => ToUpper(s[i]))
  }

  /** `needle` occurs in `s` at position `i`. */
  predicate OccursAt(needle: string, s: string, i: int) {
    0 <= i && i + |needle| <= |s| && s[i..i + |needle|] == needle
  }

  /** SQL `upper(s) LIKE upper('%' || needle || '%')` with the wildcards of `needle` escaped, which
      is what a derived `...ContainingIgnoreCase` query runs. */
  predicate ContainsIgnoreCase(s: string, needle: string) {
    exists i :: 0 <= i <= |s| - |needle| && OccursAt(Upper(needle), Upper(s), i)
  }

  lemma ContainsIgnoreCaseOfEqual(s: string, needle: string)
    requires Upper(s) == Upper(needle)
    ensures ContainsIgnoreCase(s, needle)
  {
    assert OccursAt(Upper(needle), Upper(s), 0);
  }

  /** Decimal digits of a natural number. */
  function Digits(n: nat): (r: string)
    ensures |r| >= 1
    ensures forall i :: 0 <= i < |r| ==> '0' <= r[i] <= '9'
  {
    if n < 10 then [(48 + n) as char] else Digits(n / 10) + [(48 + n % 10) as char]
  }

  /** Java's `Long.toString` (without the 64-bit range, which no id here reaches). */
  function Decimal(n: int): (r: string)
    ensures |r| >= 1
    ensures (n < 0) == (r[0] == '-')
  {
    if n < 0 then "-" + Digits(-n) else Digits(n)
  }
}
