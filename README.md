# Heading: progress engine, calendar helpers and request schemas in Dafny

Heading is a goal-tracking application: a user sets goals (optionally grouped
under objectives), breaks them into quarterly or monthly milestones and todos,
and writes a weekly check-in. This project models the application's pure core
and proves properties of it:

- **Progress engine** (`progress.dfy`, module `Progress`). It computes a goal's
  or milestone's actual progress (the share of completed todos, as a rounded
  percentage). It computes the expected progress (the share of the time window
  from creation to target date that has passed, rounded). It derives a status
  from the two: not started, completed, on track, at risk or off track. It also
  maps each status to its colour classes and label. `Math.round` is modelled
  on exact reals as `floor(x + 1/2)` and proved equal to an integer formula.
- **Calendar** (`calendar.dfy`, module `Calendar`). This is the part of the
  JavaScript `Date` the helpers rely on: the proleptic Gregorian calendar, day
  numbers counted from 1970-01-01, the weekday, `setDate` and
  `new Date(year, monthIndex, day)` with their roll-over (day 0 is the last day
  of the month before; years 0 to 99 mean 1900 to 1999).
- **Date helpers** (`date_helpers.dfy`, module `DateHelpers`): quarters of a
  month or date, the months of a quarter, the first and last day of a quarter,
  the "Q<n>" label, whether a date lies in a quarter, days until a date, and
  whether a date is overdue.
- **Week helpers** (`week_helpers.dfy`, module `WeekHelpers`): the Sunday that
  starts a date's week, the Saturday that ends it, whether a week is the
  current one, and the previous and next week starts.
- **Request schemas** (`schema.dfy`, module `Schema`, plus one module per
  entity). `Schema` is a small interpreter for the zod constructs the schemas
  use. A request body is a map from keys to JSON-like values; a missing key is
  `undefined`. Each entity module holds the create and update schemas as data.
  It proves that each schema accepts exactly the requests described field by
  field. It also checks the accepted and rejected requests of the
  application's test suite (`__tests__/lib/validations`).

The clock is a parameter (`now`, `today`) wherever the source reads it. All
dates are in one fixed time zone, so a `DateTime` is a civil date plus the
milliseconds since local midnight.

`calculateExpectedProgress` tests "now is not after the start" before "now is
not before the target". So a window whose start, target and current instant
coincide yields 0, not 100 (`Progress.ExpectedProgressEmptyWindow`).

Some consequences of the code are proved, not assumed:

- Rounding means a goal reads 100 % and "completed" once at least 99.5 % of
  its todos are done. For example, 200 of 201 done gives 100
  (`Progress.ProgressNearlyDone`).
- The status enums of the update schemas do not contain `at_risk`, a status
  the progress engine computes (`GoalValidation.UpdateGoalExamples`).
- A required `z.coerce.date()` accepts `null`, because `new Date(null)` is the
  epoch (`GoalValidation.NullTargetDateIsEpoch`).

## Model

| member | source | states |
|---|---|---|
| Progress.RoundedRatio | lib/utils/progress.ts:15-18 | the integer r with 2dr <= 2n + d < 2d(r+1), i.e. n/d rounded half up |
| Progress.Round | lib/utils/progress.ts:17 | definition of `Math.round` on exact reals; stated by RoundIsRoundedRatio |
| Progress.RoundIsRoundedRatio | lib/utils/progress.ts:17 | `Math.round((n / d) * 100)` on exact reals equals the integer rounding of 100n/d |
| Progress.CalculateProgress | lib/utils/progress.ts:15-18 | no todos gives 0 |
| Progress.ProgressIsRoundedPercentage | lib/utils/progress.ts:15-18 | with todos, progress is 100·completed/total rounded half up |
| Progress.ProgressBounds | lib/utils/progress.ts:15-18 | progress lies in 0..100; none done gives 0; all done gives 100 |
| Progress.ProgressExamples | __tests__/lib/utils/progress.test.ts:9-32 | 0/0 -> 0, 0/10 -> 0, 10/10 -> 100, 5/10 -> 50, 1/3 -> 33, 2/3 -> 67, 1/4 -> 25 |
| Progress.ProgressExtremes | lib/utils/progress.ts:15-18 | progress is 100 iff 200·completed >= 199·total, and 0 iff 200·completed < total |
| Progress.ProgressNearlyDone | lib/utils/progress.ts:15-18 | 200 of 201 done reads 100; 1 of 201 done reads 0 |
| Progress.RoundedRatioMonotone | lib/utils/progress.ts:15-18 | more completed todos never lower the percentage |
| Progress.CalculateExpectedProgress | lib/utils/progress.ts:20-36 | not after the start gives 0; after the start and at or past the target gives 100 |
| Progress.ExpectedProgressInWindow | lib/utils/progress.ts:31-35 | strictly inside the window, expected progress is elapsed/total rounded half up |
| Progress.ExpectedProgressBounds | lib/utils/progress.ts:20-36 | expected progress always lies in 0..100 |
| Progress.ExpectedProgressEmptyWindow | lib/utils/progress.ts:25-29 | start == target gives 0 up to the start and 100 after it |
| Progress.ExpectedProgressMonotone | lib/utils/progress.ts:20-36 | expected progress never decreases as time passes |
| Progress.ExpectedProgressExamples | __tests__/lib/utils/progress.test.ts:34-63 | the 2025 window reads 50 on July 1, 100 on the target day, 0 before the start, 100 after the target |
| Progress.DetermineStatus | lib/utils/progress.ts:38-49 | the status is never "in progress" |
| Progress.StatusTable | lib/utils/progress.ts:38-49 | each status holds iff its condition holds: no todos or 0 -> not started; 100 -> completed; within 10 of expected or ahead -> on track; within 25 -> at risk; else off track |
| Progress.StatusExamples | __tests__/lib/utils/progress.test.ts:65-93 | the statuses of the test cases, boundaries 10 and 25 below expected included |
| Progress.StatusOrdering | lib/utils/progress.ts:38-49 | with todos, for 0 < a1 <= a2 < 100 and e1 <= e2: more progress never worsens the status, a higher expectation never improves it, zero expectation is on track |
| Progress.CountCompleted | lib/utils/progress.ts:56 | count of completed todos is at most the total; equals it iff all are done; is 0 iff none is |
| Progress.CountCompletedAppend | lib/utils/progress.ts:56 | the count of a concatenation is the sum of the counts; with the one-todo case above, the count is the number of todos whose `completed` is true |
| Progress.MilestoneTodos | lib/utils/progress.ts:72 | the kept todos are exactly those linked to the milestone, and never more than the input (order and multiplicity: see MilestoneTodosAppend) |
| Progress.CalculateGoalProgress | lib/utils/progress.ts:51-66 | definition; stated by GoalProgressProperties and GoalScenario |
| Progress.GoalProgressProperties | lib/utils/progress.ts:51-66 | actual is 100·done/total rounded half up (0 for no todos); expected is the window's expected progress; both in 0..100; never in progress; completed iff >= 99.5 % done; not started iff no todos or < 0.5 % done; otherwise on track, at risk or off track by the lag of actual behind expected (10 and 25 points) |
| Progress.GoalScenario | lib/utils/progress.ts:51-66 | 10 of 20 todos done half way through 2025 gives (50, 50, on track) |
| Progress.MilestoneTodosAppend | lib/utils/progress.ts:72-74 | filtering a concatenation is the concatenation of the filtered parts |
| Progress.NoOwnTodos | lib/utils/progress.ts:72-74 | a list with no todo of the milestone filters to nothing |
| Progress.CalculateMilestoneProgress | lib/utils/progress.ts:68-87 | definition; stated by MilestoneScoredAsGoal and MilestoneIgnoresOtherTodos |
| Progress.MilestoneScoredAsGoal | lib/utils/progress.ts:68-87 | a milestone is scored like a goal over its own todos and its creation-to-due-date window |
| Progress.MilestoneIgnoresOtherTodos | lib/utils/progress.ts:68-87 | adding todos of other milestones, before or after, does not change a milestone's result |
| Progress.StatusColor | lib/utils/progress.ts:89-104 | definition; stated by StatusMapsInjective and StatusMapExamples |
| Progress.StatusTextColor | lib/utils/progress.ts:106-121 | definition; stated by StatusMapsInjective |
| Progress.StatusLabel | lib/utils/progress.ts:123-138 | definition; stated by StatusMapsInjective and StatusMapExamples |
| Progress.StatusMapsInjective | lib/utils/progress.ts:89-138 | distinct statuses get distinct colours, text colours and labels |
| Progress.StatusMapExamples | lib/utils/progress.ts:89-138 | the colour class and label of each of the six statuses |
| Calendar.DaysInMonth | lib/utils/date-helpers.ts:27-31 | every month has 28 to 31 days |
| Calendar.DayOfWeek | lib/utils/week-helpers.ts:3 | `getDay()` lies in 0..6 |
| Calendar.DaysBeforeYearSince1970 | lib/utils/week-helpers.ts:3 | from 1970 to 2100 the days before a year are 365 per year plus one per leap year passed |
| Calendar.KnownWeekdays | lib/utils/week-helpers.ts:3 | 1970-01-01 is a Thursday, 2000-01-01 a Saturday, 2025-01-05 a Sunday |
| Calendar.DayOfWeekShift | lib/utils/week-helpers.ts:3-5 | moving k days moves the weekday by k modulo 7 |
| Calendar.AddDays | lib/utils/week-helpers.ts:5 | adding k days gives a valid date k day numbers later |
| Calendar.DayNumberOrder | lib/utils/date-helpers.ts:84-86 | calendar order of valid dates is the order of their day numbers |
| Calendar.DayNumberInjective | lib/utils/week-helpers.ts:36-43 | two valid dates with one day number are the same date |
| Calendar.AddDaysCompose | lib/utils/week-helpers.ts:45-55 | adding j then k days is adding j + k days |
| Calendar.SetDate | lib/utils/week-helpers.ts:5 | `setDate(n)` gives a valid date n - day days later, rolling over months and years |
| Calendar.SetDateShifts | lib/utils/week-helpers.ts:45-55 | `setDate(getDate() + k)` is adding k days |
| Calendar.NewDate | lib/utils/date-helpers.ts:29 | `new Date(y, m, d)` is a valid date d - 1 days after the first of month m, with m rolling into the year |
| Calendar.NewDateDayZero | lib/utils/date-helpers.ts:29 | day 0 of the month after m is the last day of month m |
| Calendar.DaysBeforeMonthValue | lib/utils/date-helpers.ts:27-31 | the days before a month match the closed form (367m - 362)/12 minus 1 or 2 after February |
| DateHelpers.QuarterFromMonth | lib/utils/date-helpers.ts:1-6 | the quarter is in 1..4, and for months 1..12 it is (month - 1) / 3 + 1 |
| DateHelpers.OutOfRangeMonthIsQuarterFour | lib/utils/date-helpers.ts:1-6 | a month outside 1..12 falls to quarter 4 |
| DateHelpers.QuarterFromDate | lib/utils/date-helpers.ts:8-10 | the quarter of a date is in 1..4 |
| DateHelpers.MonthsForQuarter | lib/utils/date-helpers.ts:12-25 | quarter q has months 3q-2, 3q-1, 3q; any other quarter has none |
| DateHelpers.QuarterMonthsRoundTrip | lib/utils/date-helpers.ts:1-25 | a month is among its quarter's months, and a quarter's months map back to it |
| DateHelpers.QuarterEndDate | lib/utils/date-helpers.ts:27-31 | a valid midnight date exactly for quarters 1..4; otherwise an invalid date |
| DateHelpers.QuarterEndIsLastDayOfThirdMonth | lib/utils/date-helpers.ts:27-31 | the end of quarter q is the last day of month 3q |
| DateHelpers.QuarterStartDate | lib/utils/date-helpers.ts:33-36 | a valid midnight date exactly for quarters 1..4; otherwise an invalid date |
| DateHelpers.QuarterStartIsFirstDayOfFirstMonth | lib/utils/date-helpers.ts:33-36 | the start of quarter q is the first of month 3q-2 |
| DateHelpers.QuarterEnds2025 | __tests__/lib/utils/date-helpers.test.ts:62-76 | the 2025 quarters end on March 31, June 30, September 30 and December 31 |
| DateHelpers.Digits | lib/utils/date-helpers.ts:54 | the decimal form of a number is a non-empty string of digits |
| DateHelpers.DigitsCanonical | lib/utils/date-helpers.ts:54 | the decimal form has one digit iff the number is below 10, and starts with 0 only for 0 |
| DateHelpers.DigitsRoundTrip | lib/utils/date-helpers.ts:54 | reading back the decimal form gives the number |
| DateHelpers.QuarterLabel | lib/utils/date-helpers.ts:53-55 | definition; stated by QuarterLabelReadsBack and QuarterLabels |
| DateHelpers.QuarterLabelReadsBack | lib/utils/date-helpers.ts:53-55 | the label is "Q", then a minus sign for negatives, then exactly the canonical decimal form of the quarter's magnitude, which reads back to it (JavaScript prints this form only for magnitudes below 10^21) |
| DateHelpers.QuarterLabels | __tests__/lib/utils/date-helpers.test.ts:90-97 | quarters 1..4 read "Q1".."Q4" |
| DateHelpers.IsDateInQuarter | lib/utils/date-helpers.ts:70-72 | definition; stated by DateInQuarterByMonth and DateInQuarterBetweenBounds |
| DateHelpers.DateInQuarterByMonth | lib/utils/date-helpers.ts:70-72 | a date is in a quarter iff its month is one of the quarter's months |
| DateHelpers.DateInQuarterBetweenBounds | lib/utils/date-helpers.ts:27-36 | a date is in quarter q iff it lies between the quarter's first and last day of its own year |
| DateHelpers.DaysUntil | lib/utils/date-helpers.ts:74-82 | days until a date is the difference of the two day numbers, whatever the times of day |
| DateHelpers.DaysUntilShifted | lib/utils/date-helpers.ts:74-82 | a date k days ahead, at any time of day, is k days away |
| DateHelpers.DaysUntilExamples | __tests__/lib/utils/date-helpers.test.ts:107-124 | today is 0 days away, 10 days ahead is 10, 5 days back is -5 |
| DateHelpers.IsOverdue | lib/utils/date-helpers.ts:84-86 | definition; stated by OverdueIffEarlierDay and OverdueExamples |
| DateHelpers.OverdueIffEarlierDay | lib/utils/date-helpers.ts:84-86 | a date is overdue iff its day comes before today's |
| DateHelpers.OverdueExamples | __tests__/lib/utils/date-helpers.test.ts:126-141 | yesterday is overdue; today and tomorrow are not |
| WeekHelpers.WeekStartDate | lib/utils/week-helpers.ts:1-8 | a Sunday at midnight, 0 to 6 days before the date |
| WeekHelpers.WeekStartUnique | lib/utils/week-helpers.ts:1-8 | that is the only Sunday midnight 0 to 6 days before the date |
| WeekHelpers.WeekOfJanuaryEighth | lib/utils/week-helpers.ts:1-16 | Wednesday 2025-01-08 lies in the week from Sunday 2025-01-05 at midnight to Saturday 2025-01-11 |
| WeekHelpers.WeekStartIdempotent | lib/utils/week-helpers.ts:1-8 | the start of a week starts its own week |
| WeekHelpers.WeekEndDate | lib/utils/week-helpers.ts:10-16 | six days after the week start, at 23:59:59.999 |
| WeekHelpers.WeekEndIsSaturday | lib/utils/week-helpers.ts:10-16 | the week ends on a Saturday |
| WeekHelpers.WeekContainsDate | lib/utils/week-helpers.ts:1-16 | a date lies between its week's start and end, 7 days less 1 ms apart |
| WeekHelpers.IsCurrentWeek | lib/utils/week-helpers.ts:36-43 | definition; stated by CurrentWeekIffSameStartDay |
| WeekHelpers.CurrentWeekIffSameStartDay | lib/utils/week-helpers.ts:36-43 | a week is current iff its day is the Sunday that starts today's week |
| WeekHelpers.PreviousWeekStart | lib/utils/week-helpers.ts:45-49 | seven days earlier, same time of day |
| WeekHelpers.NextWeekStart | lib/utils/week-helpers.ts:51-55 | seven days later, same time of day |
| WeekHelpers.PreviousNextInverse | lib/utils/week-helpers.ts:45-55 | next after previous, and previous after next, give back the week |
| WeekHelpers.WeekShiftKeepsSunday | lib/utils/week-helpers.ts:45-55 | shifting a week start stays on Sundays and is the week start of the date a week away |
| Schema.Repeat | __tests__/lib/validations/goal.test.ts:38 | `"a".repeat(n)` has length n and only that character |
| Schema.CoercesToDate | lib/validations/goal.ts:13 | definition of `new Date(v)` being valid; stated by NullTargetDateIsEpoch and NumericWeekStart |
| Schema.FieldAccepts | lib/validations/goal.ts:8-12 | definition; stated by FieldAcceptsIff |
| Schema.Accepts | lib/validations/goal.ts:3-20 | definition of `safeParse(input).success`; stated by the nine *SchemaMeaning lemmas |
| Schema.FieldAcceptsIff | lib/validations/goal.ts:8-12 | a field passes iff it is missing and optional, null and nullable, or passes its check |
| Schema.AllOptionalAcceptsEmpty | lib/validations/goal.ts:22-43 | a schema of optional fields accepts the empty object |
| MilestoneValidation.CreateMilestoneSchema | lib/validations/milestone.ts:3-20 | the schema as data; stated by CreateMilestoneSchemaMeaning |
| MilestoneValidation.CreateMilestoneSchemaMeaning | lib/validations/milestone.ts:3-20 | the schema accepts exactly: a UUID goal id, a 1..200 title, an optional nullable description up to 1000, a date, a type of quarterly or monthly, optional nullable whole quarter 1..4 and month 1..12 |
| MilestoneValidation.UpdateMilestoneSchema | lib/validations/milestone.ts:22-39 | the schema as data; stated by UpdateMilestoneSchemaMeaning |
| MilestoneValidation.UpdateMilestoneSchemaMeaning | lib/validations/milestone.ts:22-39 | the schema accepts exactly: each field optional, title not nullable, a null due date accepted (coerced to the epoch), status one of the four milestone statuses |
| MilestoneValidation.CreateMilestoneAccepted | __tests__/lib/validations/milestone.test.ts:9-33 | the full and the required-only requests are accepted |
| MilestoneValidation.CreateMilestoneRejected | __tests__/lib/validations/milestone.test.ts:35-69 | a bad goal id, empty or 201-character title, unknown type, fractional quarter or missing due date is rejected |
| MilestoneValidation.QuarterAndMonthRanges | __tests__/lib/validations/milestone.test.ts:71-119 | a whole quarter is accepted iff in 1..4, a month iff in 1..12 |
| MilestoneValidation.UpdateMilestoneExamples | __tests__/lib/validations/milestone.test.ts:122-162 | partial and empty updates pass; a status passes iff it is a milestone status; a null title fails; a null due date passes |
| MilestoneValidation.CreateIsUpdate | lib/validations/milestone.ts:3-39 | a valid create request without a status is a valid update |
| GoalValidation.CreateGoalSchema | lib/validations/goal.ts:3-20 | the schema as data; stated by CreateGoalSchemaMeaning |
| GoalValidation.CreateGoalSchemaMeaning | lib/validations/goal.ts:3-20 | the schema accepts exactly: a 1..200 title, optional nullable description up to 1000, a date, optional nullable category up to 50 and UUID objective |
| GoalValidation.UpdateGoalSchema | lib/validations/goal.ts:22-43 | the schema as data; stated by UpdateGoalSchemaMeaning |
| GoalValidation.UpdateGoalSchemaMeaning | lib/validations/goal.ts:22-43 | the schema accepts exactly: each field optional, title not nullable, a null target date accepted (coerced to the epoch), status one of five |
| GoalValidation.CreateGoalAccepted | __tests__/lib/validations/goal.test.ts:4-24 | requests with title and parseable date pass, with or without description and category, and with a null description |
| GoalValidation.CreateGoalRejected | __tests__/lib/validations/goal.test.ts:26-65 | empty or long title, long description or category, unparseable or missing date are rejected |
| GoalValidation.NullTargetDateIsEpoch | lib/validations/goal.ts:13 | a null target date passes as the epoch |
| GoalValidation.UpdateGoalExamples | __tests__/lib/validations/goal.test.ts:79-127 | partial and empty updates pass; a status passes iff it is one of the five; "at_risk" and a null title fail |
| GoalValidation.CreateIsUpdate | lib/validations/goal.ts:3-43 | a valid create request without a status is a valid update |
| TodoValidation.CreateTodoSchema | lib/validations/todo.ts:3-19 | the schema as data; stated by CreateTodoSchemaMeaning |
| TodoValidation.CreateTodoSchemaMeaning | lib/validations/todo.ts:3-19 | the schema accepts exactly: UUID goal id, optional nullable UUID milestone, 1..200 title, optional nullable description up to 1000 and due date |
| TodoValidation.UpdateTodoSchema | lib/validations/todo.ts:21-38 | the schema as data; stated by UpdateTodoSchemaMeaning |
| TodoValidation.UpdateTodoSchemaMeaning | lib/validations/todo.ts:21-38 | the schema accepts exactly: each field optional, title and completed flag not nullable, completed a boolean |
| TodoValidation.CreateTodoAccepted | __tests__/lib/validations/todo.test.ts:7-39 | full, required-only and null-milestone requests pass |
| TodoValidation.CreateTodoRejected | __tests__/lib/validations/todo.test.ts:41-91 | bad goal or milestone id, empty or long title, long description are rejected |
| TodoValidation.UpdateTodoExamples | __tests__/lib/validations/todo.test.ts:94-134 | title, completed, empty, due-date and null-due-date updates pass; a null or string completed flag fails |
| TodoValidation.CreateIsUpdate | lib/validations/todo.ts:3-38 | a valid create request without a completed flag is a valid update |
| ObjectiveValidation.CreateObjectiveSchema | lib/validations/objective.ts:3-13 | the schema as data; stated by CreateObjectiveSchemaMeaning |
| ObjectiveValidation.CreateObjectiveSchemaMeaning | lib/validations/objective.ts:3-13 | the schema accepts exactly: a 1..200 title and an optional nullable description up to 1000 |
| ObjectiveValidation.UpdateObjectiveSchema | lib/validations/objective.ts:15-29 | the schema as data; stated by UpdateObjectiveSchemaMeaning |
| ObjectiveValidation.UpdateObjectiveSchemaMeaning | lib/validations/objective.ts:15-29 | the schema accepts exactly: each field optional, title not nullable, status one of five |
| ObjectiveValidation.CreateObjectiveExamples | __tests__/lib/validations/objective.test.ts:6-82 | the accepted and rejected create requests of the test suite |
| ObjectiveValidation.UpdateObjectiveExamples | __tests__/lib/validations/objective.test.ts:84-161 | the accepted and rejected update requests of the test suite; a status passes iff it is one of five |
| ObjectiveValidation.CreateIsUpdate | lib/validations/objective.ts:3-29 | a valid create request without a status is a valid update |
| CheckInValidation.CreateCheckInSchema | lib/validations/check-in.ts:3-20 | the schema as data; stated by CreateCheckInSchemaMeaning |
| CheckInValidation.CreateCheckInSchemaMeaning | lib/validations/check-in.ts:3-20 | the schema accepts exactly: a date, three texts of 1..5000 characters and a boolean adjustment flag, all required |
| CheckInValidation.CheckInAccepted | lib/validations/check-in.ts:3-20 | a complete check-in passes, up to 5000 characters of text |
| CheckInValidation.CheckInRejected | lib/validations/check-in.ts:3-20 | a missing or null flag, missing week start, empty or 5001-character text is rejected |
| CheckInValidation.NumericWeekStart | lib/validations/check-in.ts:4-6 | a millisecond week start passes iff it is within the `Date` range |

## Left out

- Floating point: percentages are computed on exact reals. A ratio such as
  57/200, whose binary product lands just below a half, rounds one way in
  JavaScript and the other way here.
- Time zones and daylight saving: dates are civil dates in one fixed zone, and
  a day is always 86 400 000 ms. `getTime()` differences across a
  daylight-saving change are not modelled.
- The range of a JavaScript `Date` (±8.64e15 ms) is modelled only in the
  schema's date coercion. The calendar functions accept any year.
- `formatDate`, `formatMonthYear`, `getMonthName` and `formatWeekRange` are
  left out. They depend on `toLocaleDateString` and the runtime's locale data.
- `getCurrentQuarter` and `getCurrentYear` read the clock. They are
  `QuarterFromDate(now)` and `now.date.year` for a given `now`, so they have no
  members of their own.
- `getQuarterEndDate` and `getQuarterStartDate` return an invalid `Date` for a
  quarter outside 1..4. The model returns `None`.
- Quarter and month arguments are integers. JavaScript also accepts fractional
  numbers there, which are not modelled.
- DateHelpers.DateInQuarterBetweenBounds: stated only for years outside 0 to 99.
  For those years `new Date(y, ...)` puts the quarter's first and last day in
  the 1900s, so a date of that year does not lie between them. The quarter
  dates themselves do model this mapping (`QuarterStartIsFirstDayOfFirstMonth`,
  `QuarterEndIsLastDayOfThirdMonth`), and `IsDateInQuarter` does not depend on
  the year.
- DateHelpers.QuarterLabel: prints every decimal digit of any integer.
  JavaScript prints a quarter of magnitude 10^21 or more in exponent notation
  (`Q1e+21`) and holds integers above 2^53 only approximately, so the label
  facts match the source only below those magnitudes.
- DateHelpers.DaysUntil, DateHelpers.IsOverdue, WeekHelpers.WeekStartDate and
  the other week helpers take only valid dates. An invalid `Date` argument is
  not modelled: there the source yields NaN days, `false` for overdue, and an
  invalid week start that `isCurrentWeek` never matches.
- zod's UUID regular expression, and JavaScript's parsing of date strings,
  arrays and objects, are parameters (`Schema.Oracles`). They are not
  defined.
- String lengths are counted in characters. zod counts UTF-16 code units, so
  characters outside the Basic Multilingual Plane count once here but twice
  there.
- Schema parse results are not modelled: only success or failure. This leaves
  out error messages, the parsed output (defaults, coerced dates, stripped
  keys), and inputs that are not objects.
- `number` inputs are exact reals. NaN and infinities, which JSON cannot carry,
  are not modelled.
- Database access, authentication, AI coaching, API routes and the user
  interface are not part of this model.
