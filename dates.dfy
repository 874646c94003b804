/** Calendar dates as the task forms exchange them: `YYYY-MM-DD` strings, the
    `full-date` form of section 5.6 of RFC 3339, compared the way JavaScript
    compares the `Date` objects built from them. */
module Dates {

  import opened Decimal
  import opened Text

  datatype Date = Date(year: int, month: int, day: int)

  predicate IsLeapYear(y: int) {
    y % 4 == 0 && (y % 100 != 0 || y % 400 == 0)
  }

  function DaysInMonth(y: int, m: int): (n: int)
    requires 1 <= m <= 12
    ensures 28 <= n <= 31
  {
    if m == 2 then (if IsLeapYear(y) then 29 else 28)
    else if m == 4 || m == 6 || m == 9 || m == 11 then 30
    else 31
  }

  /** A date of the Gregorian calendar whose year has four digits. */
  predicate ValidDate(d: Date) {
    0 <= d.year <= 9999 && 1 <= d.month <= 12 && 1 <= d.day <= DaysInMonth(d.year, d.month)
  }

  /** Chronological order: `a` is a strictly earlier day than `b`. */
  predicate Precedes(a: Date, b: Date) {
    || a.year < b.year
    || (a.year == b.year && a.month < b.month)
    || (a.year == b.year && a.month == b.month && a.day < b.day)
  }

  /** `d` as `date-fullyear "-" date-month "-" date-mday`: what
      `selectedDate.toISOString().split('T')[0]` yields for a picked day. */
  function Format(d: Date): (s: string)
    requires ValidDate(d)
    ensures |s| == 10
  {
    FixedDigits(d.year, 4) + "-" + FixedDigits(d.month, 2) + "-" + FixedDigits(d.day, 2)
  }

  /** Four digits, a hyphen, two digits, a hyphen, two digits. */
  predicate WellShaped(s: string) {
    && |s| == 10
    && AllDigits(s[..4]) && s[4] == '-'
    && AllDigits(s[5..7]) && s[7] == '-'
    && AllDigits(s[8..])
  }

  function Parse(s: string): Date
    requires WellShaped(s)
  {
    Date(Val(s[..4]), Val(s[5..7]), Val(s[8..]))
  }

  /** `s` is an RFC 3339 `full-date` naming a day that exists. */
  predicate IsFullDate(s: string) {
    WellShaped(s) && ValidDate(Parse(s))
  }

  /** Every valid date formats to a full-date that parses back to it. */
  lemma FormatThenParse(d: Date)
    requires ValidDate(d)
    ensures WellShaped(Format(d)) && Parse(Format(d)) == d
    ensures IsFullDate(Format(d))
  {
    var s := Format(d);
    assert s[..4] == FixedDigits(d.year, 4);
    assert s[5..7] == FixedDigits(d.month, 2);
    assert s[8..] == FixedDigits(d.day, 2);
  }

  /** Every full-date is the format of the date it parses to. */
  lemma ParseThenFormat(s: string)
    requires IsFullDate(s)
    ensures Format(Parse(s)) == s
  {
    FixedDigitsOfVal(s[..4]);
    FixedDigitsOfVal(s[5..7]);
    FixedDigitsOfVal(s[8..]);
    assert s == s[..4] + "-" + s[5..7] + "-" + s[8..];
  }

  /** JavaScript's `new Date(a) < new Date(b)` for two date strings. A string
      that is not a full-date makes an invalid `Date`, whose time value is NaN,
      and every comparison with NaN is false. */
  predicate Earlier(a: string, b: string) {
    IsFullDate(a) && IsFullDate(b) && Precedes(Parse(a), Parse(b))
  }

  /** On digit strings of equal width, string order is numeric order. */
  lemma {:induction false} DigitsLexLess(a: string, b: string)
    requires |a| == |b| && AllDigits(a) && AllDigits(b)
    ensures LexLess(a, b) <==> Val(a) < Val(b)
    decreases |a|
  {
    if a != [] {
      var n := |a| - 1;
      DigitsLexLess(a[..n], b[..n]);
      LexLessAppend(a[..n], [a[n]], b[..n], [b[n]]);
      assert a[..n] + [a[n]] == a && b[..n] + [b[n]] == b;
      assert LexLess([a[n]], [b[n]]) <==> a[n] < b[n];
      if a[..n] == b[..n] {
        assert Val(a[..n]) == Val(b[..n]);
      } else if Val(a[..n]) == Val(b[..n]) {
        ValInjective(a[..n], b[..n]);
      }
    }
  }

  /** Comparing two well-shaped strings compares the year, then the month,
      then the day field. */
  lemma WellShapedLexLess(a: string, b: string)
    requires WellShaped(a) && WellShaped(b)
    ensures LexLess(a, b) <==>
              || LexLess(a[..4], b[..4])
              || (a[..4] == b[..4] && LexLess(a[5..7], b[5..7]))
              || (a[..4] == b[..4] && a[5..7] == b[5..7] && LexLess(a[8..], b[8..]))
  {
    LexLessAppend(a[..4], a[4..], b[..4], b[4..]);
    assert a == a[..4] + a[4..] && b == b[..4] + b[4..];
    assert a[4..][1..] == a[5..] && b[4..][1..] == b[5..];
    LexLessAppend(a[5..7], a[7..], b[5..7], b[7..]);
    assert a[5..] == a[5..7] + a[7..] && b[5..] == b[5..7] + b[7..];
    assert a[7..][1..] == a[8..] && b[7..][1..] == b[8..];
  }

  /** Section 5.1 of RFC 3339: for full-dates, comparing the strings is the
      same as comparing the days they name. */
  lemma EarlierIsLexLess(a: string, b: string)
    requires IsFullDate(a) && IsFullDate(b)
    ensures Earlier(a, b) <==> LexLess(a, b)
  {
    WellShapedLexLess(a, b);
    DigitsLexLess(a[..4], b[..4]);
    DigitsLexLess(a[5..7], b[5..7]);
    DigitsLexLess(a[8..], b[8..]);
    if Val(a[..4]) == Val(b[..4]) { ValInjective(a[..4], b[..4]); }
    if Val(a[5..7]) == Val(b[5..7]) { ValInjective(a[5..7], b[5..7]); }
  }

  /** Two full-dates neither of which is earlier than the other are equal. */
  lemma EarlierTotal(a: string, b: string)
    requires IsFullDate(a) && IsFullDate(b)
    requires !Earlier(a, b) && !Earlier(b, a)
    ensures a == b
  {
    var da, db := Parse(a), Parse(b);
    assert da.year == db.year && da.month == db.month && da.day == db.day;
    ParseThenFormat(a);
    ParseThenFormat(b);
  }

  /** `Earlier` is a strict order: irreflexive and transitive. */
  lemma EarlierStrictOrder(a: string, b: string, c: string)
    ensures !Earlier(a, a)
    ensures Earlier(a, b) && Earlier(b, c) ==> Earlier(a, c)
  {
  }
}
