/** The period resolver: a period key and a reference date ("today", passed in) give an
    inclusive range of calendar dates, printed as a tracker query fragment
    `field: {YYYY-MM-DD} .. {YYYY-MM-DD}`. */
module PeriodUtils {
  import opened Wrappers
  import opened Dates

  datatype PeriodKey = CurrentMonth | PreviousMonth | Last6Months | Last1Year

  /** The recognised keys in their configured order (`PERIOD_KEYS` in config.py). */
  const PERIOD_KEYS: seq<string> := ["current_month", "previous_month", "last_6_months", "last_1_year"]

  function KeyName(k: PeriodKey): string {
    match k
    case CurrentMonth => "current_month"
    case PreviousMonth => "previous_month"
    case Last6Months => "last_6_months"
    case Last1Year => "last_1_year"
  }

  /** Looks a key up among the resolvers; None for any other text. */
  function ParsePeriodKey(s: string): (r: Option<PeriodKey>)
    ensures r.Some? <==> s in PERIOD_KEYS
    ensures r.Some? ==> KeyName(r.value) == s
  {
    if s == "current_month" then Some(CurrentMonth)
    else if s == "previous_month" then Some(PreviousMonth)
    else if s == "last_6_months" then Some(Last6Months)
    else if s == "last_1_year" then Some(Last1Year)
    else None
  }

  lemma ParsePeriodKeyName(k: PeriodKey)
    ensures ParsePeriodKey(KeyName(k)) == Some(k)
  {
  }

  /** `ValueError` for an unknown key (it carries the key and the valid keys that the
      message names), or a date Python cannot represent (`ValueError`/`OverflowError`). */
  datatype PeriodError = UnknownPeriodKey(key: string, expected: seq<string>) | DateOutOfRange

  /** Pairs the two ends; a failure at either end fails the whole range. */
  function Both(start: Option<Date>, end: Option<Date>): Result<(Date, Date), PeriodError> {
    if start.Some? && end.Some? then Ok((start.value, end.value)) else Err(DateOutOfRange)
  }

  /** `current_month`: the whole month containing `today`. */
  function CurrentMonthRange(today: Date): (r: Result<(Date, Date), PeriodError>)
    requires ValidDate(today)
    ensures r.Ok? <==> !(today.year == MAX_YEAR && today.month == 12)
    ensures r.Ok? ==> r.value.0 == Date(today.year, today.month, 1)
    ensures r.Ok? ==> r.value.1 == Date(today.year, today.month, DaysInMonth(today.year, today.month))
    ensures r.Ok? ==> DateLe(r.value.0, today) && DateLe(today, r.value.1)
  {
    Both(Some(FirstDayOfMonth(today)), LastDayOfMonth(today))
  }

  /** `previous_month`: the whole calendar month before `today`'s month, reached by
      stepping one day back from the first of the month. */
  function PreviousMonthRange(today: Date): (r: Result<(Date, Date), PeriodError>)
    requires ValidDate(today)
    ensures r.Ok? <==> !(today.year == MIN_YEAR && today.month == 1)
    ensures r.Ok? ==>
      var (y, m) := if today.month == 1 then (today.year - 1, 12) else (today.year, today.month - 1);
      r.value == (Date(y, m, 1), Date(y, m, DaysInMonth(y, m)))
    ensures r.Ok? ==> MonthIndex(r.value.0) == MonthIndex(today) - 1
  {
    var before := PreviousDay(FirstDayOfMonth(today));
    if before.None? then Err(DateOutOfRange)
    else
      assert before.value.year == (if today.month == 1 then today.year - 1 else today.year);
      assert before.value.month == (if today.month == 1 then 12 else today.month - 1);
      Both(Some(FirstDayOfMonth(before.value)), LastDayOfMonth(before.value))
  }

  /** `last_6_months`: from the first day of the month five months back (the year drops
      by one when `today.month <= 5`; the month is `((month - 6) mod 12) + 1`, where
      Dafny's `%` agrees with Python's for the positive divisor 12) to the last day of
      `today`'s month. */
  function Last6MonthsRange(today: Date): (r: Result<(Date, Date), PeriodError>)
    requires ValidDate(today)
    ensures r.Ok? <==> !(today.year == MIN_YEAR && today.month <= 5) && !(today.year == MAX_YEAR && today.month == 12)
    ensures r.Ok? ==>
      r.value.0 == Date(if today.month <= 5 then today.year - 1 else today.year,
                        if today.month <= 5 then today.month + 7 else today.month - 5, 1)
    ensures r.Ok? ==> r.value.1 == Date(today.year, today.month, DaysInMonth(today.year, today.month))
    ensures r.Ok? ==> MonthIndex(r.value.1) - MonthIndex(r.value.0) == 5
  {
    var start := MakeDate(today.year - (if today.month - 5 <= 0 then 1 else 0), ((today.month - 5 - 1) % 12) + 1, 1);
    Both(if start.None? then None else Some(FirstDayOfMonth(start.value)), LastDayOfMonth(today))
  }

  /** `last_1_year`: from the first day of the same month a year earlier to the last day of
      `today`'s month, which is thirteen calendar months counting both ends. */
  function Last1YearRange(today: Date): (r: Result<(Date, Date), PeriodError>)
    requires ValidDate(today)
    ensures r.Ok? <==> today.year > MIN_YEAR && !(today.year == MAX_YEAR && today.month == 12)
    ensures r.Ok? ==> r.value.0 == Date(today.year - 1, today.month, 1)
    ensures r.Ok? ==> r.value.1 == Date(today.year, today.month, DaysInMonth(today.year, today.month))
    ensures r.Ok? ==> MonthIndex(r.value.1) - MonthIndex(r.value.0) == 12
  {
    Both(MakeDate(today.year - 1, today.month, 1), LastDayOfMonth(today))
  }

  function Resolve(k: PeriodKey, today: Date): Result<(Date, Date), PeriodError>
    requires ValidDate(today)
  {
    match k
    case CurrentMonth => CurrentMonthRange(today)
    case PreviousMonth => PreviousMonthRange(today)
    case Last6Months => Last6MonthsRange(today)
    case Last1Year => Last1YearRange(today)
  }

  /** `get_period_range(period_key, today)`. For every recognised key a successful range
      starts on a first day, ends on a last day and is not empty; any other key fails
      with the offending key and the list of valid keys. */
  function GetPeriodRange(periodKey: string, today: Date): (r: Result<(Date, Date), PeriodError>)
    requires ValidDate(today)
    ensures periodKey !in PERIOD_KEYS <==> r == Err(UnknownPeriodKey(periodKey, PERIOD_KEYS))
    ensures r.Ok? ==> ValidDate(r.value.0) && ValidDate(r.value.1)
    ensures r.Ok? ==> r.value.0.day == 1 && r.value.1.day == DaysInMonth(r.value.1.year, r.value.1.month)
    ensures r.Ok? ==> DateLe(r.value.0, r.value.1)
    ensures r.Ok? ==> DateLe(today, r.value.1) || periodKey == "previous_month"
  {
    match ParsePeriodKey(periodKey)
    case None => Err(UnknownPeriodKey(periodKey, PERIOD_KEYS))
    case Some(k) => Resolve(k, today)
  }

  /** The fragment `field: {start} .. {end}` with both dates in ISO form. */
  function RangeFragment(field: string, start: Date, end: Date): string
    requires ValidDate(start) && ValidDate(end)
  {
    field + ": {" + IsoFormat(start) + "} .. {" + IsoFormat(end) + "}"
  }

  /** Reads a fragment for `field` back into its two dates. */
  function ParseRangeFragment(field: string, text: string): (r: Option<(Date, Date)>)
    ensures r.Some? ==> ValidDate(r.value.0) && ValidDate(r.value.1)
  {
    var n := |field| + 3;
    if |text| == n + 27 && text[..n] == field + ": {" && text[n + 10..n + 16] == "} .. {" && text[n + 26] == '}'
    then
      var start := ParseIso(text[n..n + 10]);
      var end := ParseIso(text[n + 16..n + 26]);
      if start.Some? && end.Some? then Some((start.value, end.value)) else None
    else None
  }

  /** Reading a printed fragment back gives the range it was printed from. */
  lemma ParseRangeFragmentRoundTrip(field: string, start: Date, end: Date)
    requires ValidDate(start) && ValidDate(end)
    ensures ParseRangeFragment(field, RangeFragment(field, start, end)) == Some((start, end))
  {
    var text := RangeFragment(field, start, end);
    var n := |field| + 3;
    assert text == (field + ": {") + IsoFormat(start) + "} .. {" + IsoFormat(end) + "}";
    assert text[..n] == field + ": {";
    assert text[n..n + 10] == IsoFormat(start);
    assert text[n + 10..n + 16] == "} .. {";
    assert text[n + 16..n + 26] == IsoFormat(end);
    ParseIsoFormat(start);
    ParseIsoFormat(end);
  }

  /** `get_field_period_filter(field, period_key)` with `date.today()` passed in. */
  function FieldPeriodFilter(field: string, periodKey: string, today: Date): (r: Result<string, PeriodError>)
    requires ValidDate(today)
    ensures r.Err? <==> GetPeriodRange(periodKey, today).Err?
    ensures r.Err? ==> r.error == GetPeriodRange(periodKey, today).error
  {
    match GetPeriodRange(periodKey, today)
    case Err(e) => Err(e)
    case Ok((start, end)) => Ok(RangeFragment(field, start, end))
  }

  /** `get_created_filter(period_key)`: the filter on the `created` field. */
  function CreatedFilter(periodKey: string, today: Date): Result<string, PeriodError>
    requires ValidDate(today)
  {
    FieldPeriodFilter("created", periodKey, today)
  }

  /** A filter fragment, parsed back, names exactly the resolved range. */
  lemma FieldPeriodFilterRoundTrip(field: string, periodKey: string, today: Date)
    requires ValidDate(today)
    requires FieldPeriodFilter(field, periodKey, today).Ok?
    ensures GetPeriodRange(periodKey, today).Ok?
    ensures ParseRangeFragment(field, FieldPeriodFilter(field, periodKey, today).value)
            == Some(GetPeriodRange(periodKey, today).value)
  {
    var (start, end) := GetPeriodRange(periodKey, today).value;
    ParseRangeFragmentRoundTrip(field, start, end);
  }

  lemma CreatedFilterRoundTrip(periodKey: string, today: Date)
    requires ValidDate(today)
    requires CreatedFilter(periodKey, today).Ok?
    ensures ParseRangeFragment("created", CreatedFilter(periodKey, today).value)
            == Some(GetPeriodRange(periodKey, today).value)
  {
    FieldPeriodFilterRoundTrip("created", periodKey, today);
  }

  /** Worked resolutions of each period key. */
  lemma CurrentMonthExample()
    ensures GetPeriodRange("current_month", Date(2025, 8, 15)) == Ok((Date(2025, 8, 1), Date(2025, 8, 31)))
  {
    assert ValidDate(Date(2025, 8, 15));
  }

  lemma PreviousMonthExample()
    ensures GetPeriodRange("previous_month", Date(2025, 1, 10)) == Ok((Date(2024, 12, 1), Date(2024, 12, 31)))
  {
    assert ValidDate(Date(2025, 1, 10));
  }

  lemma Last6MonthsExample()
    ensures GetPeriodRange("last_6_months", Date(2025, 3, 20)) == Ok((Date(2024, 10, 1), Date(2025, 3, 31)))
  {
    assert ValidDate(Date(2025, 3, 20));
  }

  lemma Last1YearLeapExample()
    ensures GetPeriodRange("last_1_year", Date(2024, 2, 29)) == Ok((Date(2023, 2, 1), Date(2024, 2, 29)))
  {
    assert ValidDate(Date(2024, 2, 29));
  }
}
