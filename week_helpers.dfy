/**
 * Sunday-based week helpers of `lib/utils/week-helpers.ts`. The ambient clock is an
 * explicit `now` parameter; `formatWeekRange` (locale formatting) is not modelled.
 */
module WeekHelpers {
  import opened Calendar

  /** The Sunday that starts the week of `t`, at midnight: `setDate(getDate() - getDay())`
      followed by `setHours(0, 0, 0, 0)`. */
  function WeekStartDate(t: DateTime): (r: DateTime)
    requires ValidDateTime(t)
    ensures ValidDateTime(r) && r.ms == 0
    ensures DayOfWeek(r.date) == 0
    ensures 0 <= DayNumber(t.date) - DayNumber(r.date) <= 6
  {
    var day := DayOfWeek(t.date);
    var r := DateTime(SetDate(t.date, t.date.day - day), 0);
    DayOfWeekShift(t.date, r.date, -day);
    r
  }

  /** The Saturday that ends the week of `t`, at 23:59:59.999. */
  function WeekEndDate(t: DateTime): (r: DateTime)
    requires ValidDateTime(t)
    ensures ValidDateTime(r) && r.ms == MsPerDay - 1
    ensures DayNumber(r.date) == DayNumber(WeekStartDate(t).date) + 6
  {
    var start := WeekStartDate(t);
    DateTime(SetDate(start.date, start.date.day + 6), 23 * 3_600_000 + 59 * 60_000 + 59 * 1000 + 999)
  }

  /** Whether `weekStart` has the year, month and day of the current week's start. */
  function IsCurrentWeek(weekStart: DateTime, now: DateTime): bool
    requires ValidDateTime(now)
  {
    var current := WeekStartDate(now);
    weekStart.date.year == current.date.year
    && weekStart.date.month == current.date.month
    && weekStart.date.day == current.date.day
  }

  /** Seven days earlier, same time of day. */
  function PreviousWeekStart(weekStart: DateTime): (r: DateTime)
    requires ValidDateTime(weekStart)
    ensures ValidDateTime(r) && r.ms == weekStart.ms
    ensures DayNumber(r.date) == DayNumber(weekStart.date) - 7
  {
    DateTime(SetDate(weekStart.date, weekStart.date.day - 7), weekStart.ms)
  }

  /** Seven days later, same time of day. */
  function NextWeekStart(weekStart: DateTime): (r: DateTime)
    requires ValidDateTime(weekStart)
    ensures ValidDateTime(r) && r.ms == weekStart.ms
    ensures DayNumber(r.date) == DayNumber(weekStart.date) + 7
  {
    DateTime(SetDate(weekStart.date, weekStart.date.day + 7), weekStart.ms)
  }

  /** The week ends on a Saturday. */
  lemma WeekEndIsSaturday(t: DateTime)
    requires ValidDateTime(t)
    ensures DayOfWeek(WeekEndDate(t).date) == 6
  {
    WeekdayAfterSunday(WeekStartDate(t).date, WeekEndDate(t).date, 6);
  }

  lemma SundayWithinWeekUnique(n: int, a: int, b: int)
    requires (a + 4) % 7 == 0 && (b + 4) % 7 == 0
    requires 0 <= n - a <= 6 && 0 <= n - b <= 6
    ensures a == b
  {
  }

  /** The week start is the only Sunday midnight at most six days before `t`. */
  lemma WeekStartUnique(t: DateTime, s: DateTime)
    requires ValidDateTime(t) && ValidDateTime(s)
    requires s.ms == 0 && DayOfWeek(s.date) == 0
    requires 0 <= DayNumber(t.date) - DayNumber(s.date) <= 6
    ensures s == WeekStartDate(t)
  {
    var w := WeekStartDate(t);
    var n, a, b := DayNumber(t.date), DayNumber(s.date), DayNumber(w.date);
    assert (a + 4) % 7 == 0 && (b + 4) % 7 == 0;
    SundayWithinWeekUnique(n, a, b);
    DayNumberInjective(s.date, w.date);
    assert s.date == w.date && s.ms == w.ms;
  }

  /** Wednesday 2025-01-08 belongs to the week that starts on Sunday 2025-01-05 and ends on
      Saturday 2025-01-11. */
  lemma WeekOfJanuaryEighth()
    ensures WeekStartDate(DateTime(Date(2025, 1, 8), 5)) == DateTime(Date(2025, 1, 5), 0)
    ensures WeekEndDate(DateTime(Date(2025, 1, 8), 5)).date == Date(2025, 1, 11)
  {
    var t := DateTime(Date(2025, 1, 8), 5);
    KnownWeekdays();
    assert DayNumber(t.date) == DayNumber(Date(2025, 1, 5)) + 3;
    WeekStartUnique(t, DateTime(Date(2025, 1, 5), 0));
    assert DayNumber(Date(2025, 1, 11)) == DayNumber(Date(2025, 1, 5)) + 6;
    DayNumberInjective(WeekEndDate(t).date, Date(2025, 1, 11));
  }

  /** Taking the week start of a week start changes nothing. */
  lemma WeekStartIdempotent(t: DateTime)
    requires ValidDateTime(t)
    ensures WeekStartDate(WeekStartDate(t)) == WeekStartDate(t)
  {
    WeekStartUnique(WeekStartDate(t), WeekStartDate(t));
  }

  /** Every moment lies between its week's start and end. */
  lemma WeekContainsDate(t: DateTime)
    requires ValidDateTime(t)
    ensures Instant(WeekStartDate(t)) <= Instant(t) <= Instant(WeekEndDate(t))
    ensures Instant(WeekEndDate(t)) - Instant(WeekStartDate(t)) == 7 * MsPerDay - 1
  {
  }

  /** Moving back a week and forward a week are inverse to each other. */
  lemma PreviousNextInverse(w: DateTime)
    requires ValidDateTime(w)
    ensures NextWeekStart(PreviousWeekStart(w)) == w
    ensures PreviousWeekStart(NextWeekStart(w)) == w
  {
    DayNumberInjective(NextWeekStart(PreviousWeekStart(w)).date, w.date);
    DayNumberInjective(PreviousWeekStart(NextWeekStart(w)).date, w.date);
  }

  /** Shifting a Sunday by a week gives a Sunday; shifting a week start gives the
      start of the week seven days earlier or later. */
  lemma WeekShiftKeepsSunday(t: DateTime)
    requires ValidDateTime(t)
    ensures DayOfWeek(PreviousWeekStart(WeekStartDate(t)).date) == 0
    ensures DayOfWeek(NextWeekStart(WeekStartDate(t)).date) == 0
    ensures PreviousWeekStart(WeekStartDate(t)) == WeekStartDate(DateTime(AddDays(t.date, -7), t.ms))
    ensures NextWeekStart(WeekStartDate(t)) == WeekStartDate(DateTime(AddDays(t.date, 7), t.ms))
  {
    var s := WeekStartDate(t);
    WeekdayAfterWeeks(s.date, PreviousWeekStart(s).date, -1);
    WeekdayAfterWeeks(s.date, NextWeekStart(s).date, 1);
    WeekStartUnique(DateTime(AddDays(t.date, -7), t.ms), PreviousWeekStart(s));
    WeekStartUnique(DateTime(AddDays(t.date, 7), t.ms), NextWeekStart(s));
  }

  /** `IsCurrentWeek` holds exactly for the current week's start day, at any time of day;
      for a Sunday that means `now` is at most six days after it. */
  lemma CurrentWeekIffSameStartDay(w: DateTime, now: DateTime)
    requires ValidDateTime(w) && ValidDateTime(now)
    ensures IsCurrentWeek(w, now) <==> w.date == WeekStartDate(now).date
    ensures DayOfWeek(w.date) == 0 ==>
      (IsCurrentWeek(w, now) <==> 0 <= DayNumber(now.date) - DayNumber(w.date) <= 6)
  {
    if DayOfWeek(w.date) == 0 && 0 <= DayNumber(now.date) - DayNumber(w.date) <= 6 {
      WeekStartUnique(now, DateTime(w.date, 0));
    }
  }
}
