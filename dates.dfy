/** Proleptic Gregorian calendar dates with the range and the operations of Python's
    `datetime.date` that the period resolver relies on, and the `full-date` text format
    of section 5.6 of RFC 3339 that `date.isoformat()` prints. */
module Dates {
  import opened Wrappers
  import opened Strings

  /** Python's `datetime.MINYEAR` and `datetime.MAXYEAR`. */
  const MIN_YEAR := 1
  const MAX_YEAR := 9999

  datatype Date = Date(year: int, month: int, day: int)

  predicate IsLeapYear(y: int) {
    y % 4 == 0 && (y % 100 != 0 || y % 400 == 0)
  }

  /** Length of a month in the Gregorian calendar. */
  function DaysInMonth(y: int, m: int): (n: int)
    requires 1 <= m <= 12
    ensures 28 <= n <= 31
    ensures m == 2 ==> (n == 29 <==> IsLeapYear(y))
  {
    if m == 2 then (if IsLeapYear(y) then 29 else 28)
    else if m == 4 || m == 6 || m == 9 || m == 11 then 30
    else 31
  }

  /** The dates Python's `date` can represent. */
  predicate ValidDate(d: Date) {
    MIN_YEAR <= d.year <= MAX_YEAR && 1 <= d.month <= 12 && 1 <= d.day <= DaysInMonth(d.year, d.month)
  }

  /** Python's `date(y, m, d)`: None where the constructor raises ValueError. */
  function MakeDate(y: int, m: int, d: int): (r: Option<Date>)
    ensures r.Some? <==> (MIN_YEAR <= y <= MAX_YEAR && 1 <= m <= 12 && 1 <= d <= DaysInMonth(y, m))
    ensures r.Some? ==> r.value == Date(y, m, d) && ValidDate(r.value)
  {
    if MIN_YEAR <= y <= MAX_YEAR && 1 <= m <= 12 && 1 <= d <= DaysInMonth(y, m)
    then Some(Date(y, m, d)) else None
  }

  /** Python's comparison of dates: by year, then month, then day. */
  predicate DateLe(a: Date, b: Date) {
    a.year < b.year || (a.year == b.year && (a.month < b.month || (a.month == b.month && a.day <= b.day)))
  }

  /** Position of a date's month on a single month line (January of year 0 is 0). */
  function MonthIndex(d: Date): int {
    d.year * 12 + d.month - 1
  }

  /** Days before January 1 of year `y`, as Python's `_days_before_year`. */
  function DaysBeforeYear(y: int): int {
    var p := y - 1;
    p * 365 + p / 4 - p / 100 + p / 400
  }

  /** Days in year `y` before month `m`, the sum of the lengths of the earlier months. */
  function DaysBeforeMonth(y: int, m: int): int
    requires 1 <= m <= 12
  {
    if m == 1 then 0 else DaysBeforeMonth(y, m - 1) + DaysInMonth(y, m - 1)
  }

  /** Python's `date.toordinal()`: 0001-01-01 is day 1. */
  function Ordinal(d: Date): int
    requires 1 <= d.month <= 12
  {
    DaysBeforeYear(d.year) + DaysBeforeMonth(d.year, d.month) + d.day
  }

  lemma DaysInYear(y: int)
    ensures DaysBeforeMonth(y, 12) + DaysInMonth(y, 12) == if IsLeapYear(y) then 366 else 365
  {
    var leap := if IsLeapYear(y) then 1 else 0;
    assert DaysBeforeMonth(y, 2) == 31;
    assert DaysBeforeMonth(y, 3) == 59 + leap;
    assert DaysBeforeMonth(y, 4) == 90 + leap;
    assert DaysBeforeMonth(y, 5) == 120 + leap;
    assert DaysBeforeMonth(y, 6) == 151 + leap;
    assert DaysBeforeMonth(y, 7) == 181 + leap;
    assert DaysBeforeMonth(y, 8) == 212 + leap;
    assert DaysBeforeMonth(y, 9) == 243 + leap;
    assert DaysBeforeMonth(y, 10) == 273 + leap;
    assert DaysBeforeMonth(y, 11) == 304 + leap;
    assert DaysBeforeMonth(y, 12) == 334 + leap;
  }

  /** Stepping `p` to `p + 1` raises `p / k` exactly when `p + 1` is a multiple of `k`. */
  lemma DivStep(p: int, k: int)
    requires k == 4 || k == 100 || k == 400
    ensures (p + 1) / k == p / k + (if (p + 1) % k == 0 then 1 else 0)
  {
  }

  /** Consecutive years are 365 or 366 days apart, as the leap rule says. */
  lemma DaysBeforeNextYear(y: int)
    ensures DaysBeforeYear(y + 1) == DaysBeforeYear(y) + (if IsLeapYear(y) then 366 else 365)
  {
    var p := y - 1;
    DivStep(p, 4);
    DivStep(p, 100);
    DivStep(p, 400);
  }

  /** `d.replace(day=1)`. */
  function FirstDayOfMonth(d: Date): (r: Date)
    requires ValidDate(d)
    ensures ValidDate(r)
    ensures r.year == d.year && r.month == d.month && r.day == 1
    ensures DateLe(r, d)
  {
    d.(day := 1)
  }

  /** `d - timedelta(days=1)`: None where Python raises OverflowError (before 0001-01-01). */
  function PreviousDay(d: Date): (r: Option<Date>)
    requires ValidDate(d)
    ensures r.None? <==> d == Date(MIN_YEAR, 1, 1)
    ensures r.Some? ==> ValidDate(r.value)
  {
    if d.day > 1 then Some(d.(day := d.day - 1))
    else if d.month > 1 then Some(Date(d.year, d.month - 1, DaysInMonth(d.year, d.month - 1)))
    else if d.year > MIN_YEAR then Some(Date(d.year - 1, 12, 31))
    else None
  }

  /** The previous day is exactly one day earlier on the ordinal day line. */
  lemma PreviousDayOrdinal(d: Date)
    requires ValidDate(d) && d != Date(MIN_YEAR, 1, 1)
    ensures Ordinal(PreviousDay(d).value) == Ordinal(d) - 1
  {
    if d.day == 1 && d.month == 1 {
      DaysBeforeNextYear(d.year - 1);
      DaysInYear(d.year - 1);
    }
  }

  /** The source's `_last_day_of_month`: the first day of the next month, one day back.
      It fails only for December of MAX_YEAR, where `replace(year=d.year + 1)` raises;
      otherwise it keeps the year and month and lands on the month's true last day. */
  function LastDayOfMonth(d: Date): (r: Option<Date>)
    requires ValidDate(d)
    ensures r.None? <==> (d.year == MAX_YEAR && d.month == 12)
    ensures r.Some? ==> ValidDate(r.value) && r.value.year == d.year && r.value.month == d.month
    ensures r.Some? ==> r.value.day == DaysInMonth(d.year, d.month) && DateLe(d, r.value)
  {
    var next := if d.month == 12 then MakeDate(d.year + 1, 1, 1) else Some(d.(month := d.month + 1, day := 1));
    if next.None? then None else PreviousDay(next.value)
  }

  /** The last day is immediately followed by the first day of the next month. */
  lemma LastDayOfMonthOrdinal(d: Date)
    requires ValidDate(d) && !(d.year == MAX_YEAR && d.month == 12)
    ensures var next := if d.month == 12 then Date(d.year + 1, 1, 1) else Date(d.year, d.month + 1, 1);
      Ordinal(LastDayOfMonth(d).value) + 1 == Ordinal(next)
  {
    var next := if d.month == 12 then Date(d.year + 1, 1, 1) else Date(d.year, d.month + 1, 1);
    PreviousDayOrdinal(next);
  }

  predicate IsDigits(s: string) {
    forall i :: 0 <= i < |s| ==> '0' <= s[i] <= '9'
  }

  /** `date.isoformat()`: the RFC 3339 `full-date` form YYYY-MM-DD (year zero-padded to
      four digits). */
  function IsoFormat(d: Date): (s: string)
    requires ValidDate(d)
    ensures |s| == 10 && s[4] == '-' && s[7] == '-'
    ensures IsDigits(s[..4]) && IsDigits(s[5..7]) && IsDigits(s[8..])
  {
    PadDigits(d.year, 4) + "-" + PadDigits(d.month, 2) + "-" + PadDigits(d.day, 2)
  }

  /** Reads an RFC 3339 `full-date`; None unless the text is exactly of that form and
      names a representable date. */
  function ParseIso(s: string): (r: Option<Date>)
    ensures r.Some? ==> ValidDate(r.value)
  {
    if |s| == 10 && s[4] == '-' && s[7] == '-' && IsDigits(s[..4]) && IsDigits(s[5..7]) && IsDigits(s[8..])
    then MakeDate(DigitsValue(s[..4]), DigitsValue(s[5..7]), DigitsValue(s[8..]))
    else None
  }

  /** Printing a date and reading it back gives the same date. */
  lemma ParseIsoFormat(d: Date)
    requires ValidDate(d)
    ensures ParseIso(IsoFormat(d)) == Some(d)
  {
    var s := IsoFormat(d);
    assert s[..4] == PadDigits(d.year, 4);
    assert s[5..7] == PadDigits(d.month, 2);
    assert s[8..] == PadDigits(d.day, 2);
    assert Pow10(4) == 10000 && Pow10(2) == 100;
    PadDigitsValue(d.year, 4);
    PadDigitsValue(d.month, 2);
    PadDigitsValue(d.day, 2);
  }

  lemma {:induction false} DigitsPadValue(s: string)
    requires IsDigits(s)
    ensures PadDigits(DigitsValue(s), |s|) == s
  {
    if s != [] {
      var init := s[..|s| - 1];
      assert IsDigits(init) by {
        forall i | 0 <= i < |init| ensures '0' <= init[i] <= '9' {
          assert init[i] == s[i];
        }
      }
      DigitsPadValue(init);
      var v := DigitsValue(s);
      var c := s[|s| - 1] as int - '0' as int;
      assert v / 10 == DigitsValue(init) && v % 10 == c;
      assert DigitChar(c) == s[|s| - 1];
      assert s == init + [s[|s| - 1]];
    }
  }

  /** The text format is canonical: any text that reads as a date is that date's print. */
  lemma FormatParseIso(s: string)
    requires ParseIso(s).Some?
    ensures IsoFormat(ParseIso(s).value) == s
  {
    DigitsPadValue(s[..4]);
    DigitsPadValue(s[5..7]);
    DigitsPadValue(s[8..]);
    assert s == s[..4] + "-" + s[5..7] + "-" + s[8..];
  }
}
