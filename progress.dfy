/**
 * The progress and status engine of `lib/utils/progress.ts`: completion percentage,
 * time-elapsed percentage, the status decision table, the goal and milestone
 * summaries built from them, and the status display maps. Timestamps are integer
 * milliseconds; the ambient clock is an explicit `now` parameter.
 */
module Progress {
  import opened Common
  import Calendar

  datatype Status = NotStarted | InProgress | OnTrack | AtRisk | OffTrack | Completed

  /** A todo as the engine sees it: whether it is done and which milestone, if any, it belongs to. */
  datatype Todo = Todo(completed: bool, milestoneId: Option<string>)

  /** The goal fields the engine reads, as millisecond timestamps. */
  datatype Goal = Goal(createdAt: int, targetDate: int)

  /** The milestone fields the engine reads, as millisecond timestamps. */
  datatype Milestone = Milestone(id: string, createdAt: int, dueDate: int)

  datatype ProgressResult = ProgressResult(actual: int, expected: int, status: Status)

  /** How far below the expected percentage a goal may be and still be on track. */
  const OnTrackTolerance: int := 10
  /** How far below the expected percentage a goal may be and only be at risk. */
  const AtRiskTolerance: int := 25

  /** `Math.round` on an exact rational: halves round towards positive infinity. */
  function Round(x: real): int {
    (x + 0.5).Floor
  }

  /** Integer round-half-up of `n / d`, the reference the percentages are proved against. */
  function RoundedRatio(n: int, d: int): (r: int)
    requires d > 0
    ensures 2 * d * r <= 2 * n + d < 2 * d * (r + 1)
  {
    (2 * n + d) / (2 * d)
  }

  lemma FloorOfRatio(n: int, d: int)
    requires d > 0
    ensures (n as real / d as real).Floor == n / d
  {
    var q, r := n / d, n % d;
    var x, dr := n as real / d as real, d as real;
    assert n == d * q + r && 0 <= r < d;
    assert x * dr == q as real * dr + r as real;
    assert q as real * dr <= x * dr < (q + 1) as real * dr;
    assert q as real <= x < (q + 1) as real;
  }

  lemma CancelFactor(a: real, b: real, c: real)
    requires c > 0.0 && a * c == b * c
    ensures a == b
  {
  }

  /** `Math.round(100 * n / d)` computed on exact rationals is the integer round-half-up. */
  lemma RoundIsRoundedRatio(n: int, d: int)
    requires d > 0
    ensures Round((n as real / d as real) * 100.0) == RoundedRatio(100 * n, d)
  {
    var x := n as real / d as real;
    var y := (2 * 100 * n + d) as real / (2 * d) as real;
    var dr := d as real;
    assert x * dr == n as real;
    assert y * (2.0 * dr) == (2 * 100 * n + d) as real;
    assert (x * 100.0 + 0.5) * (2.0 * dr) == 200.0 * (x * dr) + dr;
    CancelFactor(x * 100.0 + 0.5, y, 2.0 * dr);
    FloorOfRatio(2 * 100 * n + d, 2 * d);
  }

  /** Completion percentage; no todos at all count as 0%. */
  function CalculateProgress(total: int, completed: int): (r: int)
    ensures total == 0 ==> r == 0
  {
    if total == 0 then 0 else Round((completed as real / total as real) * 100.0)
  }

  /** Percentage of the time from `start` to `target` that has elapsed at `current`.
      `current <= start` is tested first, so a zero-length window gives 0. */
  function CalculateExpectedProgress(start: int, target: int, current: int): (r: int)
    ensures current <= start ==> r == 0
    ensures start < current && target <= current ==> r == 100
  {
    if current <= start then 0
    else if current >= target then 100
    else Round(((current - start) as real / (target - start) as real) * 100.0)
  }

  /** The status decision table; the first matching row wins. */
  function DetermineStatus(actual: int, expected: int, totalTodos: int): (s: Status)
    ensures s != InProgress
  {
    if totalTodos == 0 then NotStarted
    else if actual == 100 then Completed
    else if actual == 0 then NotStarted
    else if actual >= expected - OnTrackTolerance then OnTrack
    else if actual >= expected - AtRiskTolerance then AtRisk
    else OffTrack
  }

  /** Number of completed todos: `todos.filter(t => t.completed).length`. */
  function CountCompleted(todos: seq<Todo>): (n: nat)
    ensures n <= |todos|
    ensures n == |todos| <==> forall i :: 0 <= i < |todos| ==> todos[i].completed
    ensures n == 0 <==> forall i :: 0 <= i < |todos| ==> !todos[i].completed
  {
    if |todos| == 0 then 0
    else CountCompleted(todos[..|todos| - 1]) + (if todos[|todos| - 1].completed then 1 else 0)
  }

  /** Counting distributes over concatenation; with the one-element case of the contract
      this fixes the count as the number of completed todos. */
  lemma {:induction false} CountCompletedAppend(a: seq<Todo>, b: seq<Todo>)
    ensures CountCompleted(a + b) == CountCompleted(a) + CountCompleted(b)
    decreases |b|
  {
    if |b| > 0 {
      var init := b[..|b| - 1];
      assert (a + b)[..|a + b| - 1] == a + init;
      assert b[..|b| - 1] == init;
      CountCompletedAppend(a, init);
    } else {
      assert a + b == a;
    }
  }

  /** The todos that belong to milestone `id`, in order: `todos.filter(t => t.milestoneId === id)`. */
  function MilestoneTodos(todos: seq<Todo>, id: string): (r: seq<Todo>)
    ensures |r| <= |todos|
    ensures forall t :: t in r <==> t in todos && t.milestoneId == Some(id)
  {
    if |todos| == 0 then []
    else
      var last := todos[|todos| - 1];
      MilestoneTodos(todos[..|todos| - 1], id) + (if last.milestoneId == Some(id) then [last] else [])
  }

  /** Progress of a goal over all the todos given. */
  function CalculateGoalProgress(goal: Goal, todos: seq<Todo>, now: int): ProgressResult {
    var total := |todos|;
    var completed := CountCompleted(todos);
    var actual := CalculateProgress(total, completed);
    var expected := CalculateExpectedProgress(goal.createdAt, goal.targetDate, now);
    ProgressResult(actual, expected, DetermineStatus(actual, expected, total))
  }

  /** Progress of a milestone over those of the given todos that belong to it. */
  function CalculateMilestoneProgress(milestone: Milestone, todos: seq<Todo>, now: int): ProgressResult {
    var own := MilestoneTodos(todos, milestone.id);
    var total := |own|;
    var completed := CountCompleted(own);
    var actual := CalculateProgress(total, completed);
    var expected := CalculateExpectedProgress(milestone.createdAt, milestone.dueDate, now);
    ProgressResult(actual, expected, DetermineStatus(actual, expected, total))
  }

  function StatusColor(status: Status): string {
    match status
    case Completed => "bg-purple-500"
    case OnTrack => "bg-green-500"
    case AtRisk => "bg-yellow-500"
    case OffTrack => "bg-red-500"
    case InProgress => "bg-blue-500"
    case _ => "bg-gray-300"
  }

  function StatusTextColor(status: Status): string {
    match status
    case Completed => "text-purple-600"
    case OnTrack => "text-green-600"
    case AtRisk => "text-yellow-600"
    case OffTrack => "text-red-600"
    case InProgress => "text-blue-600"
    case _ => "text-gray-500"
  }

  function StatusLabel(status: Status): string {
    match status
    case Completed => "Completed"
    case OnTrack => "On Track"
    case AtRisk => "At Risk"
    case OffTrack => "Off Track"
    case InProgress => "In Progress"
    case _ => "Not Started"
  }

  lemma MulCancelLt(t: int, a: int, b: int)
    requires t > 0 && t * a < t * b
    ensures a < b
  {
  }

  /** For a non-empty list the percentage is `round(100 * completed / total)`, rounding halves up. */
  lemma ProgressIsRoundedPercentage(total: int, completed: int)
    requires total > 0
    ensures CalculateProgress(total, completed) == RoundedRatio(100 * completed, total)
  {
    RoundIsRoundedRatio(completed, total);
  }

  /** A rounded share of `n` out of `d`, with `0 <= n <= d`, is a percentage:
      0 for nothing, 100 for everything, and within [0, 100] in between. */
  lemma RoundedShareBounds(n: int, d: int)
    requires d > 0 && 0 <= n <= d
    ensures 0 <= RoundedRatio(100 * n, d) <= 100
    ensures n == 0 ==> RoundedRatio(100 * n, d) == 0
    ensures n == d ==> RoundedRatio(100 * n, d) == 100
  {
    var r := RoundedRatio(100 * n, d);
    assert 2 * d * r <= 200 * n + d < 2 * d * (r + 1);
    MulCancelLt(2 * d, -1, r + 1);
    MulCancelLt(2 * d, r, 101);
    if n == 0 {
      MulCancelLt(2 * d, r, 1);
    }
    if n == d {
      MulCancelLt(2 * d, 99, r + 1);
    }
  }

  /** With `0 <= completed <= total` the percentage is in [0, 100]; it is 0 when nothing
      is done (or there is nothing to do) and 100 when everything is done. */
  lemma ProgressBounds(total: int, completed: int)
    requires 0 <= completed <= total
    ensures 0 <= CalculateProgress(total, completed) <= 100
    ensures completed == 0 ==> CalculateProgress(total, completed) == 0
    ensures 0 < total && completed == total ==> CalculateProgress(total, completed) == 100
  {
    if total > 0 {
      ProgressIsRoundedPercentage(total, completed);
      RoundedShareBounds(completed, total);
    }
  }

  /** The rounding cases the engine is expected to produce. */
  lemma ProgressExamples()
    ensures CalculateProgress(0, 0) == 0 && CalculateProgress(10, 0) == 0
    ensures CalculateProgress(10, 10) == 100 && CalculateProgress(10, 5) == 50
    ensures CalculateProgress(3, 1) == 33 && CalculateProgress(3, 2) == 67
    ensures CalculateProgress(4, 1) == 25
  {
    ProgressIsRoundedPercentage(3, 1);
    ProgressIsRoundedPercentage(3, 2);
    ProgressIsRoundedPercentage(4, 1);
    ProgressIsRoundedPercentage(10, 5);
    ProgressIsRoundedPercentage(10, 10);
  }

  /** The percentage reaches 100 as soon as 99.5% of the todos are done, and stays 0 while
      fewer than 0.5% are: so 200 done out of 201 already reads as 100%. */
  lemma ProgressExtremes(total: int, completed: int)
    requires 0 < total && 0 <= completed <= total
    ensures CalculateProgress(total, completed) == 100 <==> 200 * completed >= 199 * total
    ensures CalculateProgress(total, completed) == 0 <==> 200 * completed < total
  {
    ProgressIsRoundedPercentage(total, completed);
    RoundedShareBounds(completed, total);
    var r := RoundedRatio(100 * completed, total);
    if 200 * completed >= 199 * total {
      MulCancelLt(2 * total, 100, r + 1);
    }
    if 200 * completed < total {
      MulCancelLt(2 * total, r, 1);
    }
  }

  lemma ProgressNearlyDone()
    ensures CalculateProgress(201, 200) == 100
    ensures CalculateProgress(201, 1) == 0
  {
    ProgressExtremes(201, 200);
    ProgressExtremes(201, 1);
  }

  /** Rounding a share of a fixed whole never decreases as the share grows. */
  lemma RoundedRatioMonotone(n1: int, n2: int, d: int)
    requires d > 0 && n1 <= n2
    ensures RoundedRatio(n1, d) <= RoundedRatio(n2, d)
  {
    MulCancelLt(2 * d, RoundedRatio(n1, d), RoundedRatio(n2, d) + 1);
  }

  /** Strictly inside the window the expected percentage is the rounded elapsed share,
      with a positive divisor. */
  lemma ExpectedProgressInWindow(start: int, target: int, current: int)
    requires start < current < target
    ensures CalculateExpectedProgress(start, target, current)
      == RoundedRatio(100 * (current - start), target - start)
  {
    RoundIsRoundedRatio(current - start, target - start);
  }

  /** The expected percentage is always in [0, 100]. */
  lemma ExpectedProgressBounds(start: int, target: int, current: int)
    ensures 0 <= CalculateExpectedProgress(start, target, current) <= 100
  {
    if start < current < target {
      ExpectedProgressInWindow(start, target, current);
      RoundedShareBounds(current - start, target - start);
    }
  }

  /** A zero-length window gives 0 at its instant (the `current <= start` test comes first)
      and 100 after it. */
  lemma ExpectedProgressEmptyWindow(start: int, current: int)
    ensures current <= start ==> CalculateExpectedProgress(start, start, current) == 0
    ensures current > start ==> CalculateExpectedProgress(start, start, current) == 100
  {
  }

  /** As time passes the expected percentage never goes down. */
  lemma ExpectedProgressMonotone(start: int, target: int, c1: int, c2: int)
    requires c1 <= c2
    ensures CalculateExpectedProgress(start, target, c1) <= CalculateExpectedProgress(start, target, c2)
  {
    ExpectedProgressBounds(start, target, c1);
    ExpectedProgressBounds(start, target, c2);
    if start < c1 && c2 < target {
      ExpectedProgressInWindow(start, target, c1);
      ExpectedProgressInWindow(start, target, c2);
      RoundedRatioMonotone(100 * (c1 - start), 100 * (c2 - start), target - start);
    }
  }

  /** Midnight of a calendar date as a millisecond timestamp. */
  function MidnightMs(y: int, m: int, d: int): int
    requires 1 <= m <= 12
  {
    Calendar.DayNumber(Calendar.Date(y, m, d)) * Calendar.MsPerDay
  }

  /** A goal opened on 2025-01-01 and due 2025-12-31 is expected to be half done on 2025-07-01,
      and fully done on its due date; nothing is expected before the start, and everything
      after the target date. */
  lemma ExpectedProgressExamples()
    ensures CalculateExpectedProgress(MidnightMs(2025, 1, 1), MidnightMs(2025, 12, 31), MidnightMs(2025, 7, 1)) == 50
    ensures CalculateExpectedProgress(MidnightMs(2025, 1, 1), MidnightMs(2025, 12, 31), MidnightMs(2025, 12, 31)) == 100
    ensures CalculateExpectedProgress(MidnightMs(2025, 6, 1), MidnightMs(2025, 12, 31), MidnightMs(2025, 1, 1)) == 0
    ensures CalculateExpectedProgress(MidnightMs(2025, 1, 1), MidnightMs(2025, 6, 30), MidnightMs(2025, 12, 31)) == 100
  {
    var jan1, jun1 := MidnightMs(2025, 1, 1), MidnightMs(2025, 6, 1);
    var jul1, dec31 := MidnightMs(2025, 7, 1), MidnightMs(2025, 12, 31);
    assert jul1 - jan1 == 181 * Calendar.MsPerDay;
    assert dec31 - jan1 == 364 * Calendar.MsPerDay;
    assert jan1 < jun1;
    assert MidnightMs(2025, 6, 30) < dec31;
    ExpectedProgressInWindow(jan1, dec31, jul1);
    assert RoundedRatio(100 * (jul1 - jan1), dec31 - jan1) == 50;
  }

  /** Each status, read off the decision table as a condition of its own. */
  lemma StatusTable(actual: int, expected: int, totalTodos: int)
    ensures DetermineStatus(actual, expected, totalTodos) == NotStarted <==> totalTodos == 0 || actual == 0
    ensures DetermineStatus(actual, expected, totalTodos) == Completed <==> totalTodos != 0 && actual == 100
    ensures DetermineStatus(actual, expected, totalTodos) == OnTrack
      <==> totalTodos != 0 && actual != 0 && actual != 100 && actual >= expected - 10
    ensures DetermineStatus(actual, expected, totalTodos) == AtRisk
      <==> totalTodos != 0 && actual != 0 && actual != 100 && expected - 25 <= actual < expected - 10
    ensures DetermineStatus(actual, expected, totalTodos) == OffTrack
      <==> totalTodos != 0 && actual != 0 && actual != 100 && actual < expected - 25
  {
  }

  /** The decision table's cases, boundaries included. */
  lemma StatusExamples()
    ensures DetermineStatus(0, 50, 0) == NotStarted && DetermineStatus(0, 50, 10) == NotStarted
    ensures DetermineStatus(100, 50, 10) == Completed
    ensures DetermineStatus(50, 55, 10) == OnTrack && DetermineStatus(45, 55, 10) == OnTrack
    ensures DetermineStatus(60, 55, 10) == OnTrack
    ensures DetermineStatus(35, 55, 10) == AtRisk && DetermineStatus(30, 55, 10) == AtRisk
    ensures DetermineStatus(20, 55, 10) == OffTrack && DetermineStatus(10, 55, 10) == OffTrack
  {
  }

  /** How far behind a status says a goal is: on track, at risk, off track. */
  function Lag(s: Status): int {
    match s
    case AtRisk => 1
    case OffTrack => 2
    case _ => 0
  }

  /** Between 0% and 100%, more progress never worsens the status and a higher
      expectation never improves it; with nothing expected yet, any progress is on track. */
  lemma StatusOrdering(a1: int, a2: int, e1: int, e2: int, totalTodos: int)
    requires totalTodos != 0 && 0 < a1 <= a2 < 100 && e1 <= e2
    ensures Lag(DetermineStatus(a2, e1, totalTodos)) <= Lag(DetermineStatus(a1, e1, totalTodos))
    ensures Lag(DetermineStatus(a1, e1, totalTodos)) <= Lag(DetermineStatus(a1, e2, totalTodos))
    ensures DetermineStatus(a1, 0, totalTodos) == OnTrack
  {
  }

  /** What a goal summary promises: the actual percentage is the rounded share of done
      todos and the expected one that of the elapsed window, both in [0, 100]; the status
      is never in_progress; no todos means 0% and not_started; completed exactly when at
      least 99.5% of the todos are done; not_started for a non-empty list exactly when under
      0.5% are; between those, the lag behind the expectation picks the status. */
  lemma GoalProgressProperties(goal: Goal, todos: seq<Todo>, now: int)
    ensures var r := CalculateGoalProgress(goal, todos, now);
      && (|todos| > 0 ==> r.actual == RoundedRatio(100 * CountCompleted(todos), |todos|))
      && r.expected == CalculateExpectedProgress(goal.createdAt, goal.targetDate, now)
      && 0 <= r.actual <= 100 && 0 <= r.expected <= 100
      && r.status != InProgress
      && (|todos| == 0 ==> r.actual == 0 && r.status == NotStarted)
      && (r.status == Completed <==> |todos| > 0 && 200 * CountCompleted(todos) >= 199 * |todos|)
      && (|todos| > 0 ==> (r.status == NotStarted <==> 200 * CountCompleted(todos) < |todos|))
      && (r.status == OnTrack <==> |todos| > 0 && 0 < r.actual < 100 && r.actual >= r.expected - 10)
      && (r.status == AtRisk <==> |todos| > 0 && 0 < r.actual < 100 && r.expected - 25 <= r.actual < r.expected - 10)
      && (r.status == OffTrack <==> |todos| > 0 && 0 < r.actual < 100 && r.actual < r.expected - 25)
  {
    var total, completed := |todos|, CountCompleted(todos);
    var r := CalculateGoalProgress(goal, todos, now);
    ProgressBounds(total, completed);
    ExpectedProgressBounds(goal.createdAt, goal.targetDate, now);
    StatusTable(r.actual, r.expected, total);
    if total > 0 {
      ProgressIsRoundedPercentage(total, completed);
      ProgressExtremes(total, completed);
    }
  }

  /** Ten of twenty todos done, halfway through 2025: 50% done, 50% expected, on track. */
  lemma GoalScenario(todos: seq<Todo>)
    requires |todos| == 20 && CountCompleted(todos) == 10
    ensures CalculateGoalProgress(Goal(MidnightMs(2025, 1, 1), MidnightMs(2025, 12, 31)), todos, MidnightMs(2025, 7, 1))
      == ProgressResult(50, 50, OnTrack)
  {
    ExpectedProgressExamples();
    ProgressIsRoundedPercentage(20, 10);
  }

  lemma {:induction false} MilestoneTodosAppend(a: seq<Todo>, b: seq<Todo>, id: string)
    ensures MilestoneTodos(a + b, id) == MilestoneTodos(a, id) + MilestoneTodos(b, id)
    decreases |b|
  {
    if |b| == 0 {
      assert a + b == a;
    } else {
      var b' := b[..|b| - 1];
      assert (a + b)[..|a + b| - 1] == a + b';
      MilestoneTodosAppend(a, b', id);
    }
  }

  lemma {:induction false} NoOwnTodos(todos: seq<Todo>, id: string)
    requires forall t :: t in todos ==> t.milestoneId != Some(id)
    ensures MilestoneTodos(todos, id) == []
    decreases |todos|
  {
    if |todos| > 0 {
      var prefix := todos[..|todos| - 1];
      assert forall t :: t in prefix ==> t in todos;
      NoOwnTodos(prefix, id);
    }
  }

  /** A milestone is scored exactly like a goal with the milestone's dates whose todos
      are the milestone's own. */
  lemma MilestoneScoredAsGoal(milestone: Milestone, todos: seq<Todo>, now: int)
    ensures CalculateMilestoneProgress(milestone, todos, now)
      == CalculateGoalProgress(Goal(milestone.createdAt, milestone.dueDate), MilestoneTodos(todos, milestone.id), now)
  {
  }

  /** Todos of other milestones, or of none, change nothing in a milestone's summary,
      wherever they sit in the list. */
  lemma MilestoneIgnoresOtherTodos(milestone: Milestone, todos: seq<Todo>, others: seq<Todo>, now: int)
    requires forall t :: t in others ==> t.milestoneId != Some(milestone.id)
    ensures CalculateMilestoneProgress(milestone, todos + others, now) == CalculateMilestoneProgress(milestone, todos, now)
    ensures CalculateMilestoneProgress(milestone, others + todos, now) == CalculateMilestoneProgress(milestone, todos, now)
  {
    MilestoneTodosAppend(todos, others, milestone.id);
    MilestoneTodosAppend(others, todos, milestone.id);
    NoOwnTodos(others, milestone.id);
    assert MilestoneTodos(todos, milestone.id) + [] == MilestoneTodos(todos, milestone.id);
    assert [] + MilestoneTodos(todos, milestone.id) == MilestoneTodos(todos, milestone.id);
  }

  /** The three display maps send the six statuses to six different values each;
      not_started takes the default branch. */
  lemma StatusMapsInjective(a: Status, b: Status)
    requires a != b
    ensures StatusLabel(a) != StatusLabel(b)
    ensures StatusColor(a) != StatusColor(b)
    ensures StatusTextColor(a) != StatusTextColor(b)
  {
  }

  lemma StatusMapExamples()
    ensures StatusColor(Completed) == "bg-purple-500" && StatusColor(OnTrack) == "bg-green-500"
    ensures StatusColor(AtRisk) == "bg-yellow-500" && StatusColor(OffTrack) == "bg-red-500"
    ensures StatusColor(InProgress) == "bg-blue-500" && StatusColor(NotStarted) == "bg-gray-300"
    ensures StatusLabel(Completed) == "Completed" && StatusLabel(OnTrack) == "On Track"
    ensures StatusLabel(AtRisk) == "At Risk" && StatusLabel(OffTrack) == "Off Track"
    ensures StatusLabel(InProgress) == "In Progress" && StatusLabel(NotStarted) == "Not Started"
  {
  }
}
