/**
 * Calendar dates as `kotlinx.datetime.LocalDate` handles them: ISO
 * `yyyy-MM-dd` parsing (strict: the day must exist in that month of that
 * proleptic Gregorian year), `toString()`, and chronological order.
 */
module Dates {
  import opened Wrappers
  import opened Text

  datatype Date = Date(year: int, month: int, day: int)

  predicate IsLeap(y: int) {
    y % 4 == 0 && (y % 100 != 0 || y % 400 == 0)
  }

  function DaysInMonth(y: int, m: int): int {
    if m == 2 then (if IsLeap(y) then 29 else 28)
    else if m == 4 || m == 6 || m == 9 || m == 11 then 30
    else 31
  }

  /** A day that exists in the calendar. */
  predicate Valid(d: Date) {
    1 <= d.month <= 12 && 1 <= d.day <= DaysInMonth(d.year, d.month)
  }

  /** Years written with exactly four digits, the only ones `ParseDate` accepts. */
  predicate FourDigitYear(d: Date) {
    0 <= d.year <= 9999
  }

  predicate DigitsAt(s: string, lo: nat, hi: nat)
    requires lo <= hi <= |s|
  {
    forall i :: lo <= i < hi ==> IsAsciiDigit(s[i])
  }

  function Two(a: char, b: char): int {
    10 * DigitValue(a) + DigitValue(b)
  }

  function Four(a: char, b: char, c: char, d: char): int {
    100 * Two(a, b) + Two(c, d)
  }

  /** `LocalDate.parse(s)`, `None` where it throws. */
  function ParseDate(s: string): (r: Option<Date>)
    ensures r.Some? ==> Valid(r.value) && FourDigitYear(r.value)
  {
    if |s| == 10 && s[4] == '-' && s[7] == '-'
       && DigitsAt(s, 0, 4) && DigitsAt(s, 5, 7) && DigitsAt(s, 8, 10) then
      var d := Date(Four(s[0], s[1], s[2], s[3]), Two(s[5], s[6]), Two(s[8], s[9]));
      if Valid(d) then Some(d) else None
    else None
  }

  /** The two digits of `n < 100`. */
  function Pad2(n: nat): (s: string)
    requires n < 100
    ensures |s| == 2 && DigitsAt(s, 0, 2) && Two(s[0], s[1]) == n
  {
    [DigitChar(n / 10), DigitChar(n % 10)]
  }

  /** `LocalDate.toString()` for a four-digit year. */
  function FormatDate(d: Date): (s: string)
    requires Valid(d) && FourDigitYear(d)
    ensures |s| == 10
  {
    Pad2(d.year / 100) + Pad2(d.year % 100) + "-" + Pad2(d.month) + "-" + Pad2(d.day)
  }

  /** Parsing what `toString()` printed gives the same date. */
  lemma ParseFormat(d: Date)
    requires Valid(d) && FourDigitYear(d)
    ensures ParseDate(FormatDate(d)) == Some(d)
  {
    var s := FormatDate(d);
    var hi := Pad2(d.year / 100);
    var lo := Pad2(d.year % 100);
    var m := Pad2(d.month);
    var dd := Pad2(d.day);
    assert s[0] == hi[0] && s[1] == hi[1] && s[2] == lo[0] && s[3] == lo[1];
    assert s[5] == m[0] && s[6] == m[1] && s[8] == dd[0] && s[9] == dd[1];
  }

  /** The format is strict: a string that parses is exactly what `toString()` prints for its date. */
  lemma FormatParse(s: string)
    requires ParseDate(s).Some?
    ensures FormatDate(ParseDate(s).value) == s
  {
    var d := ParseDate(s).value;
    var t := FormatDate(d);
    assert d.year / 100 == Two(s[0], s[1]) && d.year % 100 == Two(s[2], s[3]);
    PadTwo(s[0], s[1]);
    PadTwo(s[2], s[3]);
    PadTwo(s[5], s[6]);
    PadTwo(s[8], s[9]);
    assert forall i :: 0 <= i < 10 ==> t[i] == s[i];
  }

  lemma PadTwo(a: char, b: char)
    requires IsAsciiDigit(a) && IsAsciiDigit(b)
    ensures Pad2(Two(a, b)) == [a, b]
  {
  }

  /**
   * A number that orders valid dates chronologically (the database's
   * date comparison and sort order).
   */
  function Ordinal(d: Date): int {
    (d.year * 13 + d.month) * 32 + d.day
  }

  predicate Le(a: Date, b: Date) {
    Ordinal(a) <= Ordinal(b)
  }

  /** On valid dates the ordinal order is year, then month, then day. */
  lemma LeChronological(a: Date, b: Date)
    requires Valid(a) && Valid(b)
    ensures Le(a, b) <==>
      a.year < b.year || (a.year == b.year && (a.month < b.month || (a.month == b.month && a.day <= b.day)))
  {
  }
}
