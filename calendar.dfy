/**
 * The slice of JavaScript's local-time `Date` that the date and week helpers use:
 * a calendar date in the proleptic Gregorian calendar plus a time of day, the
 * `setDate` and `new Date(year, monthIndex, day)` roll-over rules, and `getDay`.
 * Time zones and daylight-saving shifts are not modelled: every day is 24 hours long.
 */
module Calendar {

  const MsPerDay: int := 86_400_000

  /** A calendar date; `month` is 1-based (JavaScript's `getMonth() + 1`). */
  datatype Date = Date(year: int, month: int, day: int)

  /** A JavaScript `Date` in local time: a calendar date and the milliseconds since its midnight. */
  datatype DateTime = DateTime(date: Date, ms: int)

  predicate IsLeapYear(y: int) {
    (y % 4 == 0 && y % 100 != 0) || y % 400 == 0
  }

  function DaysInMonth(y: int, m: int): (n: int)
    requires 1 <= m <= 12
    ensures 28 <= n <= 31
  {
    if m == 2 then (if IsLeapYear(y) then 29 else 28)
    else if m == 4 || m == 6 || m == 9 || m == 11 then 30
    else 31
  }

  function YearLength(y: int): int {
    if IsLeapYear(y) then 366 else 365
  }

  predicate ValidDate(d: Date) {
    1 <= d.month <= 12 && 1 <= d.day <= DaysInMonth(d.year, d.month)
  }

  predicate ValidDateTime(t: DateTime) {
    ValidDate(t.date) && 0 <= t.ms < MsPerDay
  }

  /** Days from 1970-01-01 to January 1 of year `y` (negative before 1970). */
  function DaysBeforeYear(y: int): int
    decreases if y >= 1970 then y - 1970 else 1970 - y
  {
    if y == 1970 then 0
    else if y > 1970 then DaysBeforeYear(y - 1) + YearLength(y - 1)
    else DaysBeforeYear(y + 1) - YearLength(y)
  }

  /** Days from January 1 to the first of month `m` in year `y`. */
  function DaysBeforeMonth(y: int, m: int): int
    requires 1 <= m <= 12
  {
    if m == 1 then 0 else DaysBeforeMonth(y, m - 1) + DaysInMonth(y, m - 1)
  }

  /** Days from 1970-01-01 (the JavaScript epoch) to `d`. */
  function DayNumber(d: Date): int
    requires 1 <= d.month <= 12
  {
    DaysBeforeYear(d.year) + DaysBeforeMonth(d.year, d.month) + d.day - 1
  }

  /** JavaScript's `getDay()`: 0 is Sunday; 1970-01-01 was a Thursday. */
  function DayOfWeek(d: Date): (w: int)
    requires 1 <= d.month <= 12
    ensures 0 <= w < 7
  {
    (DayNumber(d) + 4) % 7
  }

  lemma ModShift(n: int, k: int)
    ensures (n + k + 4) % 7 == ((n + 4) % 7 + k) % 7
  {
  }

  /** Moving a date by `k` days moves its weekday by `k` modulo 7. */
  lemma DayOfWeekShift(a: Date, b: Date, k: int)
    requires 1 <= a.month <= 12 && 1 <= b.month <= 12
    requires DayNumber(b) == DayNumber(a) + k
    ensures DayOfWeek(b) == (DayOfWeek(a) + k) % 7
  {
    ModShift(DayNumber(a), k);
  }

  /** `k` days after a Sunday, for `k` below 7, is weekday `k`. */
  lemma WeekdayAfterSunday(a: Date, b: Date, k: int)
    requires 1 <= a.month <= 12 && 1 <= b.month <= 12
    requires DayOfWeek(a) == 0 && 0 <= k < 7
    requires DayNumber(b) == DayNumber(a) + k
    ensures DayOfWeek(b) == k
  {
    DayOfWeekShift(a, b, k);
  }

  /** Dates a whole number of weeks apart fall on the same weekday. */
  lemma WeekdayAfterWeeks(a: Date, b: Date, weeks: int)
    requires 1 <= a.month <= 12 && 1 <= b.month <= 12
    requires DayNumber(b) == DayNumber(a) + 7 * weeks
    ensures DayOfWeek(b) == DayOfWeek(a)
  {
    DayOfWeekShift(a, b, 7 * weeks);
  }

  lemma YearStep(y: int)
    ensures DaysBeforeYear(y + 1) == DaysBeforeYear(y) + YearLength(y)
  {
  }

  lemma MonthStep(y: int, m: int)
    requires 1 <= m < 12
    ensures DaysBeforeMonth(y, m + 1) == DaysBeforeMonth(y, m) + DaysInMonth(y, m)
  {
  }

  /** The closed form of the cumulative month lengths. */
  lemma {:induction false} DaysBeforeMonthValue(y: int, m: int)
    requires 1 <= m <= 12
    ensures DaysBeforeMonth(y, m) == (367 * m - 362) / 12 + (if m <= 2 then 0 else if IsLeapYear(y) then -1 else -2)
  {
    if m > 1 {
      DaysBeforeMonthValue(y, m - 1);
    }
  }

  lemma LastMonthFillsYear(y: int)
    ensures DaysBeforeMonth(y, 12) + DaysInMonth(y, 12) == YearLength(y)
  {
    DaysBeforeMonthValue(y, 12);
  }

  /** The following calendar day. */
  function NextDay(d: Date): (r: Date)
    requires ValidDate(d)
    ensures ValidDate(r) && DayNumber(r) == DayNumber(d) + 1
  {
    if d.day < DaysInMonth(d.year, d.month) then Date(d.year, d.month, d.day + 1)
    else if d.month < 12 then MonthStep(d.year, d.month); Date(d.year, d.month + 1, 1)
    else LastMonthFillsYear(d.year); YearStep(d.year); Date(d.year + 1, 1, 1)
  }

  /** The preceding calendar day. */
  function PrevDay(d: Date): (r: Date)
    requires ValidDate(d)
    ensures ValidDate(r) && DayNumber(r) == DayNumber(d) - 1
  {
    if d.day > 1 then Date(d.year, d.month, d.day - 1)
    else if d.month > 1 then MonthStep(d.year, d.month - 1); Date(d.year, d.month - 1, DaysInMonth(d.year, d.month - 1))
    else LastMonthFillsYear(d.year - 1); YearStep(d.year - 1); Date(d.year - 1, 12, 31)
  }

  /** The date `k` days after `d` (before it when `k` is negative). */
  function AddDays(d: Date, k: int): (r: Date)
    requires ValidDate(d)
    ensures ValidDate(r) && DayNumber(r) == DayNumber(d) + k
    decreases if k >= 0 then k else -k
  {
    if k == 0 then d
    else if k > 0 then AddDays(NextDay(d), k - 1)
    else AddDays(PrevDay(d), k + 1)
  }

  /** Chronological order of calendar dates: year, then month, then day. */
  predicate Before(a: Date, b: Date) {
    a.year < b.year
    || (a.year == b.year && a.month < b.month)
    || (a.year == b.year && a.month == b.month && a.day < b.day)
  }

  lemma {:induction false} YearsAdvance(y1: int, y2: int)
    requires y1 < y2
    ensures DaysBeforeYear(y1) + YearLength(y1) <= DaysBeforeYear(y2)
    decreases y2 - y1
  {
    YearStep(y1);
    if y1 + 1 < y2 {
      YearsAdvance(y1 + 1, y2);
    }
  }

  lemma MonthsAdvance(y: int, m1: int, m2: int)
    requires 1 <= m1 < m2 <= 12
    ensures DaysBeforeMonth(y, m1) + DaysInMonth(y, m1) <= DaysBeforeMonth(y, m2)
  {
    DaysBeforeMonthValue(y, m1);
    DaysBeforeMonthValue(y, m2);
  }

  lemma MonthFitsYear(y: int, m: int)
    requires 1 <= m <= 12
    ensures 0 <= DaysBeforeMonth(y, m)
    ensures DaysBeforeMonth(y, m) + DaysInMonth(y, m) <= YearLength(y)
  {
    DaysBeforeMonthValue(y, m);
  }

  /** Day numbers order valid dates exactly as the calendar does. */
  lemma DayNumberOrder(a: Date, b: Date)
    requires ValidDate(a) && ValidDate(b)
    ensures Before(a, b) <==> DayNumber(a) < DayNumber(b)
  {
    MonthFitsYear(a.year, a.month);
    MonthFitsYear(b.year, b.month);
    if a.year < b.year {
      YearsAdvance(a.year, b.year);
    } else if b.year < a.year {
      YearsAdvance(b.year, a.year);
    } else if a.month < b.month {
      MonthsAdvance(a.year, a.month, b.month);
    } else if b.month < a.month {
      MonthsAdvance(a.year, b.month, a.month);
    }
  }

  /** Two valid dates with the same day number are the same date. */
  lemma DayNumberInjective(a: Date, b: Date)
    requires ValidDate(a) && ValidDate(b)
    requires DayNumber(a) == DayNumber(b)
    ensures a == b
  {
    DayNumberOrder(a, b);
    DayNumberOrder(b, a);
  }

  lemma {:induction false} AddDaysCompose(d: Date, j: int, k: int)
    requires ValidDate(d)
    ensures AddDays(AddDays(d, j), k) == AddDays(d, j + k)
  {
    DayNumberInjective(AddDays(AddDays(d, j), k), AddDays(d, j + k));
  }

  /** JavaScript's `setDate(n)`: day `n` of the date's month, rolling over into
      neighbouring months when `n` is outside the month (day 0 is the previous month's last day). */
  function SetDate(d: Date, n: int): (r: Date)
    requires ValidDate(d)
    ensures ValidDate(r) && DayNumber(r) == DayNumber(d) + (n - d.day)
  {
    AddDays(Date(d.year, d.month, 1), n - 1)
  }

  /** Setting the day-of-month to `d.day + k` moves the date by exactly `k` days. */
  lemma SetDateShifts(d: Date, k: int)
    requires ValidDate(d)
    ensures SetDate(d, d.day + k) == AddDays(d, k)
  {
    DayNumberInjective(SetDate(d, d.day + k), AddDays(d, k));
  }

  /** The year JavaScript's `new Date(year, ...)` uses: years 0 to 99 mean 1900 to 1999. */
  function FullYear(year: int): int {
    if 0 <= year <= 99 then 1900 + year else year
  }

  /** `new Date(year, monthIndex, day)` at local midnight: the month index is 0-based and
      carries into the year, and the day carries into neighbouring months. */
  function NewDate(year: int, monthIndex: int, day: int): (r: Date)
    ensures ValidDate(r)
    ensures DayNumber(r) == DayNumber(Date(FullYear(year) + monthIndex / 12, monthIndex % 12 + 1, 1)) + day - 1
  {
    AddDays(Date(FullYear(year) + monthIndex / 12, monthIndex % 12 + 1, 1), day - 1)
  }

  /** Day 0 of month index `m` (1 to 12) is the last day of month `m`, counted from 1. */
  lemma NewDateDayZero(year: int, m: int)
    requires 1 <= m <= 12
    ensures NewDate(year, m, 0) == Date(FullYear(year), m, DaysInMonth(FullYear(year), m))
  {
    var y := FullYear(year);
    var last := Date(y, m, DaysInMonth(y, m));
    var next := NextDay(last);
    if m < 12 {
      assert m / 12 == 0 && m % 12 + 1 == m + 1;
      assert next == Date(y, m + 1, 1);
    } else {
      assert m / 12 == 1 && m % 12 + 1 == 1;
      assert next == Date(y + 1, 1, 1);
    }
    DayNumberInjective(NewDate(year, m, 0), last);
  }

  /** Between 1970 and 2100 every fourth year is a leap year (2000 included), so the days
      before a year are 365 per year plus one per multiple of four passed. */
  lemma {:induction false} DaysBeforeYearSince1970(y: int)
    requires 1970 <= y <= 2100
    ensures DaysBeforeYear(y) == 365 * (y - 1970) + (y - 1) / 4 - 492
    decreases y
  {
    if y > 1970 {
      DaysBeforeYearSince1970(y - 1);
      assert IsLeapYear(y - 1) <==> (y - 1) % 4 == 0;
      assert (y - 1) / 4 - (y - 2) / 4 == if (y - 1) % 4 == 0 then 1 else 0;
    }
  }

  /** Weekdays of known dates: the epoch was a Thursday, 2000-01-01 a Saturday and
      2025-01-05 a Sunday. */
  lemma KnownWeekdays()
    ensures DayOfWeek(Date(1970, 1, 1)) == 4
    ensures DayOfWeek(Date(2000, 1, 1)) == 6
    ensures DayOfWeek(Date(2025, 1, 5)) == 0
  {
    DaysBeforeYearSince1970(2000);
    DaysBeforeYearSince1970(2025);
    assert DayNumber(Date(1970, 1, 1)) == 0;
    assert DayNumber(Date(2000, 1, 1)) == 10957;
    assert DayNumber(Date(2025, 1, 5)) == 20093;
  }

  /** Milliseconds since the epoch, as `getTime()` gives them (time zone offset not modelled). */
  function Instant(t: DateTime): int
    requires 1 <= t.date.month <= 12
  {
    DayNumber(t.date) * MsPerDay + t.ms
  }
}
