/**
 * The handful of Kotlin/JVM string primitives the ledger relies on:
 * `isBlank`, `uppercase`, `contains`, `String.length` (UTF-16 code units)
 * and `String.compareTo` (lexicographic on UTF-16 code units).
 */
module Text {

  /** JVM `Char.isWhitespace`: Java whitespace plus every space separator (Zs, Zl, Zp). */
  predicate IsWhitespace(c: char) {
    var n := c as int;
    n == 0x09 || n == 0x0A || n == 0x0B || n == 0x0C || n == 0x0D
    || (0x1C <= n <= 0x20)
    || n == 0xA0 || n == 0x1680
    || (0x2000 <= n <= 0x200A)
    || n == 0x2028 || n == 0x2029 || n == 0x202F || n == 0x205F || n == 0x3000
  }

  /** `CharSequence.isBlank()`: empty or whitespace only. */
  predicate IsBlank(s: string) {
    forall i :: 0 <= i < |s| ==> IsWhitespace(s[i])
  }

  predicate IsAsciiDigit(c: char) { '0' <= c <= '9' }

  predicate AllDigits(s: string) {
    forall i :: 0 <= i < |s| ==> IsAsciiDigit(s[i])
  }

  function DigitValue(c: char): int {
    c as int - '0' as int
  }

  function DigitChar(n: nat): (c: char)
    requires n < 10
    ensures IsAsciiDigit(c) && DigitValue(c) == n
  {
    ('0' as int + n) as char
  }

  predicate IsAsciiLetter(c: char) { 'a' <= c <= 'z' || 'A' <= c <= 'Z' }

  /**
   * `Char.uppercase()` under the root locale: ASCII letters, plus the
   * characters whose upper-case form is made of ASCII letters only (the
   * dotless i, the long s, the sharp s and the Latin ligatures).
   */
  function UpperOf(c: char): (r: string)
    ensures |r| >= 1
    ensures 'a' <= c <= 'z' ==> r == [(c as int - 32) as char]
    ensures c as int < 0x80 && !('a' <= c <= 'z') ==> r == [c]
  {
    var n := c as int;
    if 'a' <= c <= 'z' then [(n - 32) as char]
    else if n == 0x131 then "I"
    else if n == 0x17F then "S"
    else if n == 0xDF then "SS"
    else if n == 0xFB00 then "FF"
    else if n == 0xFB01 then "FI"
    else if n == 0xFB02 then "FL"
    else if n == 0xFB03 then "FFI"
    else if n == 0xFB04 then "FFL"
    else if n == 0xFB05 || n == 0xFB06 then "ST"
    else [c]
  }

  /** `String.uppercase()`. */
  function Upper(s: string): (r: string)
    ensures |r| >= |s|
    ensures IsAscii(s) ==> |r| == |s| && forall i :: 0 <= i < |s| ==> r[i] == UpperOf(s[i])[0]
  {
    if s == [] then [] else UpperOf(s[0]) + Upper(s[1..])
  }

  predicate IsAscii(s: string) {
    forall i :: 0 <= i < |s| ==> s[i] as int < 0x80
  }

  predicate Contains(s: string, c: char) {
    exists i :: 0 <= i < |s| && s[i] == c
  }

  /** Number of UTF-16 code units Kotlin's `String.length` reports. */
  function Utf16Length(s: string): (n: nat)
    ensures n >= |s|
    ensures (forall i :: 0 <= i < |s| ==> s[i] as int < 0x10000) ==> n == |s|
  {
    if s == [] then 0
    else (if s[0] as int >= 0x10000 then 2 else 1) + Utf16Length(s[1..])
  }

  /** The UTF-16 code units of `s`, surrogate pairs for characters beyond the BMP. */
  function Utf16Units(s: string): seq<int> {
    if s == [] then []
    else
      var n := s[0] as int;
      (if n >= 0x10000
       then [0xD800 + (n - 0x10000) / 0x400, 0xDC00 + (n - 0x10000) % 0x400]
       else [n])
      + Utf16Units(s[1..])
  }

  /** Lexicographic order on code-unit sequences: a prefix comes first. */
  predicate UnitsLe(a: seq<int>, b: seq<int>) {
    if a == [] then true
    else if b == [] then false
    else if a[0] != b[0] then a[0] < b[0]
    else UnitsLe(a[1..], b[1..])
  }

  /** `a.compareTo(b) <= 0` on Kotlin strings. */
  predicate StringLe(a: string, b: string) {
    UnitsLe(Utf16Units(a), Utf16Units(b))
  }

  lemma {:induction false} UnitsLeTotal(a: seq<int>, b: seq<int>)
    ensures UnitsLe(a, b) || UnitsLe(b, a)
  {
    if a != [] && b != [] && a[0] == b[0] {
      UnitsLeTotal(a[1..], b[1..]);
    }
  }

  lemma {:induction false} UnitsLeTransitive(a: seq<int>, b: seq<int>, c: seq<int>)
    requires UnitsLe(a, b) && UnitsLe(b, c)
    ensures UnitsLe(a, c)
  {
    if a != [] && b != [] && c != [] && a[0] == b[0] && b[0] == c[0] {
      UnitsLeTransitive(a[1..], b[1..], c[1..]);
    }
  }
}
