/**
 * The proleptic Gregorian calendar behind the dates and timestamps of a
 * prayer-time entry: validity of a day, the weekday of a date and the two
 * ways the report writes a date (`%A` and the default `YYYY-MM-DD` display).
 */
module Calendar {
  import opened Wrappers
  import opened Text

  /** A calendar day (a `NaiveDate` whose year is not negative). */
  datatype Date = Date(year: nat, month: nat, day: nat)

  /** A time of day (a `NaiveTime`); a `second` of 60 is a leap second. */
  datatype TimeOfDay = TimeOfDay(hour: nat, minute: nat, second: nat)

  /** A date together with a time of day (a `NaiveDateTime`). */
  datatype DateTime = DateTime(date: Date, time: TimeOfDay)

  predicate IsLeapYear(y: nat) {
    y % 4 == 0 && (y % 100 != 0 || y % 400 == 0)
  }

  function DaysInYear(y: nat): nat {
    if IsLeapYear(y) then 366 else 365
  }

  function DaysInMonth(y: nat, m: nat): (n: nat)
    requires 1 <= m <= 12
    ensures 28 <= n <= 31
    ensures n == 29 <==> m == 2 && IsLeapYear(y)
  {
    if m == 2 then (if IsLeapYear(y) then 29 else 28)
    else if m == 4 || m == 6 || m == 9 || m == 11 then 30
    else 31
  }

  /** A date that names a real day: the month exists and the day is in it. */
  predicate ValidDate(d: Date) {
    1 <= d.month <= 12 && 1 <= d.day <= DaysInMonth(d.year, d.month)
  }

  /** A time of day on a 24-hour clock; chrono admits 60 seconds for a leap second. */
  predicate ValidTime(t: TimeOfDay) {
    t.hour < 24 && t.minute < 60 && t.second <= 60
  }

  // ---------------------------------------------------------------------------
  // Counting days from 0000-01-01
  // ---------------------------------------------------------------------------

  /** Days in the years 0 .. y-1 (year 0 is a leap year). */
  function DaysBeforeYear(y: nat): nat {
    365 * y + (y + 3) / 4 - (y + 99) / 100 + (y + 399) / 400
  }

  lemma DaysBeforeNextYear(y: nat)
    ensures DaysBeforeYear(y + 1) == DaysBeforeYear(y) + DaysInYear(y)
  {
    assert (y + 4) / 4 == (y + 3) / 4 + (if y % 4 == 0 then 1 else 0);
    assert (y + 100) / 100 == (y + 99) / 100 + (if y % 100 == 0 then 1 else 0);
    assert (y + 400) / 400 == (y + 399) / 400 + (if y % 400 == 0 then 1 else 0);
    if y % 100 == 0 {
      assert y % 4 == 0;
    }
    if y % 400 == 0 {
      assert y % 100 == 0;
    }
  }

  /** Days in the months of year `y` before month `m`, read from a table. */
  function DaysBeforeMonth(y: nat, m: nat): nat
    requires 1 <= m <= 12
  {
    [0, 31, 59, 90, 120, 151, 181, 212, 243, 273, 304, 334][m - 1]
      + (if m > 2 && IsLeapYear(y) then 1 else 0)
  }

  /** The table agrees with the month lengths, and the twelve months fill the year. */
  lemma DaysBeforeMonthIsSum(y: nat, m: nat)
    requires 1 <= m <= 12
    ensures DaysBeforeMonth(y, m) + DaysInMonth(y, m)
            == if m < 12 then DaysBeforeMonth(y, m + 1) else DaysInYear(y)
  {
  }

  /** Number of days from 0000-01-01 to `d`. */
  function DayNumber(d: Date): nat
    requires ValidDate(d)
  {
    DaysBeforeYear(d.year) + DaysBeforeMonth(d.year, d.month) + d.day - 1
  }

  /** The day after `d`. */
  function NextDay(d: Date): (e: Date)
    requires ValidDate(d)
    ensures ValidDate(e)
    ensures DayNumber(e) == DayNumber(d) + 1
  {
    if d.day < DaysInMonth(d.year, d.month) then
      d.(day := d.day + 1)
    else if d.month < 12 then
      DaysBeforeMonthIsSum(d.year, d.month);
      Date(d.year, d.month + 1, 1)
    else
      DaysBeforeMonthIsSum(d.year, 12);
      DaysBeforeNextYear(d.year);
      Date(d.year + 1, 1, 1)
  }

  // ---------------------------------------------------------------------------
  // Weekday (`%A`)
  // ---------------------------------------------------------------------------

  const WeekdayNames: seq<string> :=
    ["Monday", "Tuesday", "Wednesday", "Thursday", "Friday", "Saturday", "Sunday"]

  /** Day of the week, 0 for Monday to 6 for Sunday; 0000-01-01 was a Saturday. */
  function Weekday(d: Date): (w: nat)
    requires ValidDate(d)
    ensures w < 7
  {
    (DayNumber(d) + 5) % 7
  }

  lemma SuccessorMod7(n: nat)
    ensures (n + 1) % 7 == (n % 7 + 1) % 7
  {
  }

  lemma WeekdayOfNextDay(d: Date)
    requires ValidDate(d)
    ensures Weekday(NextDay(d)) == (Weekday(d) + 1) % 7
  {
    SuccessorMod7(DayNumber(d) + 5);
  }

  /** The full English weekday name, as `%A` writes it. */
  function WeekdayName(d: Date): (name: string)
    requires ValidDate(d)
    ensures name in WeekdayNames
  {
    WeekdayNames[Weekday(d)]
  }

  // ---------------------------------------------------------------------------
  // Display of a date (`YYYY-MM-DD`)
  // ---------------------------------------------------------------------------

  /**
   * The default display of a date: the year zero-padded to four digits, or
   * with an explicit sign beyond 9999, then the two-digit month and day.
   */
  function FormatIsoDate(d: Date): (s: string)
    requires ValidDate(d)
    ensures d.year <= 9999 ==> |s| == 10 && s[4] == '-' && s[7] == '-'
    ensures d.year > 9999 ==> |s| > 0 && s[0] == '+'
  {
    (if d.year <= 9999 then Pad4(d.year) else "+" + Decimal(d.year))
      + "-" + Pad2(d.month) + "-" + Pad2(d.day)
  }

  /** Reads back a `YYYY-MM-DD` string with a four-digit year. */
  function ParseIsoDate(s: string): (r: Option<Date>)
    ensures r.Some? ==> ValidDate(r.value) && r.value.year <= 9999
  {
    if |s| == 10 && AllDigits(s[..4]) && s[4] == '-' && AllDigits(s[5..7]) && s[7] == '-'
       && AllDigits(s[8..])
    then
      var d := Date(Value4(s[..4]), Value2(s[5..7]), Value2(s[8..]));
      if ValidDate(d) then Some(d) else None
    else None
  }

  /** The date line of the report reads back as the date it was written from. */
  lemma IsoDateRoundTrip(d: Date)
    requires ValidDate(d) && d.year <= 9999
    ensures ParseIsoDate(FormatIsoDate(d)) == Some(d)
  {
    var s := FormatIsoDate(d);
    assert s[..4] == Pad4(d.year);
    assert s[5..7] == Pad2(d.month);
    assert s[8..] == Pad2(d.day);
  }
}
