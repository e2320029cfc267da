/**
 * Quarter and day-count helpers of `lib/utils/date-helpers.ts`. The ambient clock
 * (`new Date()`) is an explicit `today` parameter; the locale formatting helpers are
 * not modelled.
 */
module DateHelpers {
  import opened Common
  import opened Calendar

  /** Months 1-3, 4-6 and 7-9 give quarters 1, 2 and 3; every other number gives 4. */
  function QuarterFromMonth(month: int): (q: int)
    ensures 1 <= q <= 4
    ensures 1 <= month <= 12 ==> q == (month - 1) / 3 + 1
  {
    if 1 <= month <= 3 then 1
    else if 4 <= month <= 6 then 2
    else if 7 <= month <= 9 then 3
    else 4
  }

  /** The quarter of a date's month (`getMonth() + 1`). */
  function QuarterFromDate(t: DateTime): (q: int)
    ensures 1 <= q <= 4
  {
    QuarterFromMonth(t.date.month)
  }

  /** The three months of a quarter in order, or no months for anything but 1 to 4. */
  function MonthsForQuarter(quarter: int): (months: seq<int>)
    ensures 1 <= quarter <= 4 ==> months == [3 * quarter - 2, 3 * quarter - 1, 3 * quarter]
    ensures !(1 <= quarter <= 4) ==> months == []
  {
    if quarter == 1 then [1, 2, 3]
    else if quarter == 2 then [4, 5, 6]
    else if quarter == 3 then [7, 8, 9]
    else if quarter == 4 then [10, 11, 12]
    else []
  }

  /** Last day of the quarter: `new Date(year, lastMonth, 0)`. With no months the
      month index is `undefined` and the result is an Invalid Date, here `None`. */
  function QuarterEndDate(year: int, quarter: int): (r: Option<DateTime>)
    ensures r.Some? <==> 1 <= quarter <= 4
    ensures r.Some? ==> ValidDateTime(r.value) && r.value.ms == 0
  {
    var months := MonthsForQuarter(quarter);
    if |months| == 0 then None
    else Some(DateTime(NewDate(year, months[|months| - 1], 0), 0))
  }

  /** First day of the quarter: `new Date(year, months[0] - 1, 1)`; an Invalid Date
      (`None`) when the quarter has no months. */
  function QuarterStartDate(year: int, quarter: int): (r: Option<DateTime>)
    ensures r.Some? <==> 1 <= quarter <= 4
    ensures r.Some? ==> ValidDateTime(r.value) && r.value.ms == 0
  {
    var months := MonthsForQuarter(quarter);
    if |months| == 0 then None
    else Some(DateTime(NewDate(year, months[0] - 1, 1), 0))
  }

  /** Decimal digits of a natural number, most significant first, as JavaScript prints it. */
  function Digits(n: nat): (s: string)
    ensures |s| >= 1
    ensures forall i :: 0 <= i < |s| ==> '0' <= s[i] <= '9'
    decreases n
  {
    if n < 10 then [(n + '0' as int) as char]
    else Digits(n / 10) + [((n % 10) + '0' as int) as char]
  }

  /** The number a string of decimal digits denotes. */
  function DigitsValue(s: string): int
    decreases |s|
  {
    if |s| == 0 then 0
    else DigitsValue(s[..|s| - 1]) * 10 + (s[|s| - 1] as int - '0' as int)
  }

  lemma {:induction false} DigitsRoundTrip(n: nat)
    ensures DigitsValue(Digits(n)) == n
    decreases n
  {
    var s := Digits(n);
    if n >= 10 {
      DigitsRoundTrip(n / 10);
      assert s[..|s| - 1] == Digits(n / 10);
    }
  }

  /** The numeral is canonical: a single digit below ten, and no leading zero except
      for zero itself. */
  lemma {:induction false} DigitsCanonical(n: nat)
    ensures |Digits(n)| == 1 <==> n < 10
    ensures Digits(n)[0] == '0' <==> n == 0
    decreases n
  {
    if n >= 10 {
      DigitsCanonical(n / 10);
      assert Digits(n)[0] == Digits(n / 10)[0];
    }
  }

  /** An integer as a template literal prints it: a minus sign for negatives, then the digits. */
  function IntToString(n: int): string {
    if n < 0 then "-" + Digits(-n) else Digits(n)
  }

  /** `Q${quarter}`. */
  function QuarterLabel(quarter: int): string {
    "Q" + IntToString(quarter)
  }

  /** The label is "Q" followed by the quarter's decimal numeral, from which the quarter can be read back. */
  lemma {:induction false} QuarterLabelReadsBack(quarter: int)
    ensures |QuarterLabel(quarter)| >= 2 && QuarterLabel(quarter)[0] == 'Q'
    ensures quarter >= 0 ==> QuarterLabel(quarter)[1..] == Digits(quarter)
    ensures quarter >= 0 ==> DigitsValue(QuarterLabel(quarter)[1..]) == quarter
    ensures quarter < 0 ==> QuarterLabel(quarter)[1] == '-' && QuarterLabel(quarter)[2..] == Digits(-quarter)
    ensures quarter < 0 ==> DigitsValue(QuarterLabel(quarter)[2..]) == -quarter
  {
    var text := QuarterLabel(quarter);
    if quarter >= 0 {
      var digits := Digits(quarter);
      assert text == "Q" + digits;
      assert text[1..] == digits;
      DigitsRoundTrip(quarter);
    } else {
      var digits := Digits(-quarter);
      assert text == "Q-" + digits;
      assert text[2..] == digits;
      DigitsRoundTrip(-quarter);
    }
  }

  /** The four real quarters are labelled "Q1" to "Q4". */
  lemma QuarterLabels()
    ensures QuarterLabel(1) == "Q1" && QuarterLabel(2) == "Q2"
    ensures QuarterLabel(3) == "Q3" && QuarterLabel(4) == "Q4"
  {
  }

  function IsDateInQuarter(t: DateTime, quarter: int): bool {
    QuarterFromDate(t) == quarter
  }

  /** Whole days from `today` to `target`: both are cut to midnight, the millisecond
      difference is divided by a day and rounded up (`Math.ceil`). */
  function DaysUntil(target: DateTime, today: DateTime): (days: int)
    requires ValidDateTime(target) && ValidDateTime(today)
    ensures days == DayNumber(target.date) - DayNumber(today.date)
  {
    var diff := Instant(DateTime(target.date, 0)) - Instant(DateTime(today.date, 0));
    Ceil(diff as real / MsPerDay as real)
  }

  /** `Math.ceil` on an exact rational. */
  function Ceil(x: real): int {
    -((-x).Floor)
  }

  function IsOverdue(target: DateTime, today: DateTime): bool
    requires ValidDateTime(target) && ValidDateTime(today)
  {
    DaysUntil(target, today) < 0
  }

  /** Month numbers outside 1 to 12 (0, 13, negatives) all fall into quarter 4. */
  lemma OutOfRangeMonthIsQuarterFour(month: int)
    requires month < 1 || month > 12
    ensures QuarterFromMonth(month) == 4
  {
  }

  /** Month to quarter and quarter to months agree in both directions. */
  lemma QuarterMonthsRoundTrip(month: int, quarter: int)
    ensures 1 <= month <= 12 ==> month in MonthsForQuarter(QuarterFromMonth(month))
    ensures 1 <= quarter <= 4 ==> forall m :: m in MonthsForQuarter(quarter) ==> QuarterFromMonth(m) == quarter
    ensures month in MonthsForQuarter(quarter) <==> 1 <= month <= 12 && QuarterFromMonth(month) == quarter
  {
  }

  /** The quarter ends on the last calendar day of its third month, at midnight. */
  lemma QuarterEndIsLastDayOfThirdMonth(year: int, quarter: int)
    requires 1 <= quarter <= 4
    ensures QuarterEndDate(year, quarter)
      == Some(DateTime(Date(FullYear(year), 3 * quarter, DaysInMonth(FullYear(year), 3 * quarter)), 0))
  {
    NewDateDayZero(year, 3 * quarter);
  }

  /** The quarter starts on the first day of its first month, at midnight. */
  lemma QuarterStartIsFirstDayOfFirstMonth(year: int, quarter: int)
    requires 1 <= quarter <= 4
    ensures QuarterStartDate(year, quarter) == Some(DateTime(Date(FullYear(year), 3 * quarter - 2, 1), 0))
  {
    var mi := 3 * quarter - 3;
    assert mi / 12 == 0 && mi % 12 + 1 == 3 * quarter - 2;
    DayNumberInjective(NewDate(year, mi, 1), Date(FullYear(year), 3 * quarter - 2, 1));
  }

  /** Quarter ends of 2025: March 31, June 30 (not 31), September 30 and December 31. */
  lemma QuarterEnds2025()
    ensures QuarterEndDate(2025, 1) == Some(DateTime(Date(2025, 3, 31), 0))
    ensures QuarterEndDate(2025, 2) == Some(DateTime(Date(2025, 6, 30), 0))
    ensures QuarterEndDate(2025, 3) == Some(DateTime(Date(2025, 9, 30), 0))
    ensures QuarterEndDate(2025, 4) == Some(DateTime(Date(2025, 12, 31), 0))
  {
    QuarterEndIsLastDayOfThirdMonth(2025, 1);
    QuarterEndIsLastDayOfThirdMonth(2025, 2);
    QuarterEndIsLastDayOfThirdMonth(2025, 3);
    QuarterEndIsLastDayOfThirdMonth(2025, 4);
  }

  /** A date is in quarter `quarter` exactly when its month is one of the quarter's months. */
  lemma DateInQuarterByMonth(t: DateTime, quarter: int)
    requires ValidDateTime(t)
    ensures IsDateInQuarter(t, quarter) <==> t.date.month in MonthsForQuarter(quarter)
  {
    QuarterMonthsRoundTrip(t.date.month, quarter);
  }

  /** For a four-digit year, a date lies in quarter `quarter` exactly when it falls between
      that quarter's start date and end date in its own year, both days included. */
  lemma DateInQuarterBetweenBounds(t: DateTime, quarter: int)
    requires ValidDateTime(t) && 1 <= quarter <= 4
    requires !(0 <= t.date.year <= 99)
    ensures IsDateInQuarter(t, quarter) <==>
      && !Before(t.date, QuarterStartDate(t.date.year, quarter).value.date)
      && !Before(QuarterEndDate(t.date.year, quarter).value.date, t.date)
  {
    QuarterStartIsFirstDayOfFirstMonth(t.date.year, quarter);
    QuarterEndIsLastDayOfThirdMonth(t.date.year, quarter);
  }

  /** A target `k` days after today is `k` days away, whatever the times of day. */
  lemma DaysUntilShifted(today: DateTime, k: int, ms: int)
    requires ValidDateTime(today) && 0 <= ms < MsPerDay
    ensures DaysUntil(DateTime(AddDays(today.date, k), ms), today) == k
  {
  }

  /** The cases the helper promises: today is 0 days away, ten days ahead is 10, five days back is -5. */
  lemma DaysUntilExamples(today: DateTime)
    requires ValidDateTime(today)
    ensures DaysUntil(today, today) == 0
    ensures DaysUntil(DateTime(AddDays(today.date, 10), today.ms), today) == 10
    ensures DaysUntil(DateTime(AddDays(today.date, -5), today.ms), today) == -5
  {
    DaysUntilShifted(today, 10, today.ms);
    DaysUntilShifted(today, -5, today.ms);
  }

  /** A target is overdue exactly when its calendar day is before today's. */
  lemma OverdueIffEarlierDay(target: DateTime, today: DateTime)
    requires ValidDateTime(target) && ValidDateTime(today)
    ensures IsOverdue(target, today) <==> Before(target.date, today.date)
  {
    DayNumberOrder(target.date, today.date);
  }

  /** Yesterday is overdue; today and tomorrow are not. */
  lemma OverdueExamples(today: DateTime)
    requires ValidDateTime(today)
    ensures IsOverdue(DateTime(AddDays(today.date, -1), today.ms), today)
    ensures !IsOverdue(today, today)
    ensures !IsOverdue(DateTime(AddDays(today.date, 1), today.ms), today)
  {
  }
}
