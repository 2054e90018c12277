/**
 * The statistics of the consistency tracker (lib/stats.ts): which tasks are
 * active on a day, how many completions a day offers and earns, the day's
 * percentage, the percentage over a range of days, the per-task summary and
 * the current and longest streaks of days that scored above 0%.
 *
 * Turning a stored timestamp into a calendar day in the local time zone
 * (`format(parseISO(ts), 'yyyy-MM-dd')`) is the parameter `dayOf`.
 */
module Stats {
  import opened Types
  import opened StringOrder
  import Dates
  import opened SeqFacts

  /** The default of every `sessionsPerDay` parameter. */
  const DefaultSessionsPerDay: int := 3

  function Min(a: int, b: int): int {
    if a < b then a else b
  }

  function Max(a: nat, b: nat): nat {
    if a < b then b else a
  }

  // ---------------------------------------------------------------------------
  // Active tasks and per-day caps
  // ---------------------------------------------------------------------------

  /** Day-string facts behind `IsActive`: created before a later removal, and not removed after a day already past. */
  lemma RemovalOrder(created: string, date: string, removedAt: Option<string>, dayOf: string -> string)
    ensures removedAt.Some? && Le(created, date) && Lt(date, dayOf(removedAt.value)) ==>
      Lt(created, dayOf(removedAt.value))
    ensures removedAt.Some? && Le(dayOf(removedAt.value), date) ==> !Lt(date, dayOf(removedAt.value))
  {
    if removedAt.Some? {
      var removed := dayOf(removedAt.value);
      if Le(created, date) && Lt(date, removed) && created != date {
        LtTransitive(created, date, removed);
      }
      LeIffNotLt(removed, date);
    }
  }

  /**
   * A task counts on `date` when its creation day is not after `date` and it
   * was not removed on or before `date`. A missing or empty removal
   * timestamp means not removed.
   */
  predicate IsActive(t: Task, date: string, dayOf: string -> string)
    ensures IsActive(t, date, dayOf) && t.removedAt.Some? && t.removedAt.value != "" ==>
      Lt(dayOf(t.createdAt), dayOf(t.removedAt.value))
    ensures t.removedAt.Some? && t.removedAt.value != "" && Le(dayOf(t.removedAt.value), date) ==>
      !IsActive(t, date, dayOf)
  {
    RemovalOrder(dayOf(t.createdAt), date, t.removedAt, dayOf);
    && Le(dayOf(t.createdAt), date)
    && (t.removedAt.None? || t.removedAt.value == "" || Lt(date, dayOf(t.removedAt.value)))
  }

  /** getActiveTasksForDate: the tasks active on `date`, in their order. */
  function ActiveTasksForDate(tasks: seq<Task>, date: string, dayOf: string -> string): (r: seq<Task>)
    ensures |r| <= |tasks|
    ensures forall t :: t in r <==> t in tasks && IsActive(t, date, dayOf)
  {
    if tasks == [] then []
    else
      var rest := ActiveTasksForDate(tasks[1..], date, dayOf);
      assert forall t :: t in tasks <==> t == tasks[0] || t in tasks[1..];
      if IsActive(tasks[0], date, dayOf) then [tasks[0]] + rest else rest
  }

  /**
   * On well-formed calendar days, the string comparisons behind `IsActive`
   * are the calendar's order: created on or before the day, removed after it.
   */
  lemma IsActiveByCalendar(t: Task, date: string, dayOf: string -> string)
    requires Dates.ValidDate(date) && Dates.ValidDate(dayOf(t.createdAt))
    requires t.removedAt.Some? && t.removedAt.value != "" ==> Dates.ValidDate(dayOf(t.removedAt.value))
    ensures IsActive(t, date, dayOf) <==>
      && Dates.DayNumber(dayOf(t.createdAt)) <= Dates.DayNumber(date)
      && (t.removedAt.None? || t.removedAt.value == "" ||
          Dates.DayNumber(date) < Dates.DayNumber(dayOf(t.removedAt.value)))
  {
    Dates.DayNumberOrder(dayOf(t.createdAt), date);
    if t.removedAt.Some? && t.removedAt.value != "" {
      Dates.DayNumberOrder(date, dayOf(t.removedAt.value));
    }
  }

  /** taskMaxForDay: a daily task earns at most one completion a day. */
  function TaskMaxForDay(task: Task, sessionsPerDay: int): (r: int)
    ensures task.frequency == "daily" ==> r == 1
    ensures sessionsPerDay >= 1 ==> 1 <= r <= sessionsPerDay
  {
    if task.frequency == "daily" then 1 else sessionsPerDay
  }

  // ---------------------------------------------------------------------------
  // Counting completions
  // ---------------------------------------------------------------------------

  /** The ids of the check-ins made on `date`. */
  function DayCheckInIds(checkIns: seq<CheckIn>, date: string): (ids: seq<Id>)
    ensures forall id :: id in ids <==> exists ci :: ci in checkIns && ci.date == date && ci.id == id
  {
    if checkIns == [] then []
    else
      var rest := DayCheckInIds(checkIns[1..], date);
      assert forall ci :: ci in checkIns <==> ci == checkIns[0] || ci in checkIns[1..];
      if checkIns[0].date == date then [checkIns[0].id] + rest else rest
  }

  /** A completion row that is marked done, for `taskId`, in one of the check-ins `ids`. */
  predicate Marks(c: Completion, taskId: Id, ids: seq<Id>) {
    c.completed && c.taskId == taskId && c.checkInId in ids
  }

  /** The number of rows of `completions` that `Marks` accepts. */
  function MarkCount(completions: seq<Completion>, taskId: Id, ids: seq<Id>): (n: nat)
    ensures n <= |completions|
    ensures n > 0 <==> exists i :: 0 <= i < |completions| && Marks(completions[i], taskId, ids)
  {
    if completions == [] then 0
    else
      var k := |completions| - 1;
      var front := completions[..k];
      assert forall i :: 0 <= i < k ==> front[i] == completions[i];
      MarkCount(front, taskId, ids) + (if Marks(completions[k], taskId, ids) then 1 else 0)
  }

  /** How many times `task` was marked done in the check-ins of `date`. */
  function TaskMarks(task: Task, date: string, checkIns: seq<CheckIn>, completions: seq<Completion>): nat {
    MarkCount(completions, task.id, DayCheckInIds(checkIns, date))
  }

  /** What one task contributes to the completed count of a day: its marks, capped. */
  function Credit(task: Task, date: string, checkIns: seq<CheckIn>, completions: seq<Completion>,
                  sessionsPerDay: int): int {
    Min(TaskMarks(task, date, checkIns, completions), TaskMaxForDay(task, sessionsPerDay))
  }

  /**
   * A daily task earns one credit for a day on which it was marked done at
   * least once, however many sessions marked it.
   */
  lemma DailyTaskCountsOnce(task: Task, date: string, checkIns: seq<CheckIn>,
                            completions: seq<Completion>, sessionsPerDay: int)
    requires task.frequency == "daily"
    ensures Credit(task, date, checkIns, completions, sessionsPerDay) ==
      (if exists i, ci :: 0 <= i < |completions| && ci in checkIns && ci.date == date &&
                          completions[i].completed && completions[i].taskId == task.id &&
                          completions[i].checkInId == ci.id
       then 1 else 0)
  {
    var ids := DayCheckInIds(checkIns, date);
    if exists i :: 0 <= i < |completions| && Marks(completions[i], task.id, ids) {
      var i :| 0 <= i < |completions| && Marks(completions[i], task.id, ids);
      var ci :| ci in checkIns && ci.date == date && ci.id == completions[i].checkInId;
    }
  }

  // ---------------------------------------------------------------------------
  // Percentages
  // ---------------------------------------------------------------------------

  /**
   * `Math.round(completed / possible * 100)`, or 0 when nothing is possible:
   * the integer nearest to 100 * completed / possible, halves rounded up.
   */
  function Percent(completed: int, possible: int): (r: int)
    ensures possible <= 0 ==> r == 0
    ensures possible > 0 ==> 2 * possible * r - possible <= 200 * completed < 2 * possible * r + possible
  {
    if possible > 0 then
      var d := 2 * possible;
      var n := 200 * completed + possible;
      assert n == d * (n / d) + n % d && 0 <= n % d < d;
      n / d
    else 0
  }

  lemma PercentBounds(completed: int, possible: int)
    requires 0 <= completed <= possible
    ensures 0 <= Percent(completed, possible) <= 100
    ensures completed == possible && possible > 0 ==> Percent(completed, possible) == 100
    ensures completed == 0 ==> Percent(completed, possible) == 0
  {
    if possible > 0 {
      RoundedBounds(completed, possible, Percent(completed, possible));
    }
  }

  lemma RoundedBounds(c: int, p: int, r: int)
    requires 0 <= c <= p && 2 * p * r - p <= 200 * c < 2 * p * r + p
    ensures 0 <= r <= 100
    ensures c == p ==> r == 100
    ensures c == 0 ==> r == 0
  {
    ScaleOrder(p, -1, 2 * r);
    ScaleOrder(p, 2 * r, 202);
    ScaleOrder(p, 199, 2 * r);
    ScaleOrder(p, 2 * r, 2);
  }

  /** Multiplying by a positive factor keeps a strict order, and only then. */
  lemma ScaleOrder(p: int, a: int, b: int)
    requires p > 0
    ensures a < b <==> p * a < p * b
  {
    if a < b {
      assert p * b == p * a + p * (b - a);
    } else {
      assert p * a == p * b + p * (a - b);
    }
  }

  /**
   * A percentage is above 0 exactly when the completed share is at least
   * half a percent: 1 completion out of 201 possible rounds to 0%.
   */
  lemma PercentPositive(completed: int, possible: int)
    requires possible > 0
    ensures Percent(completed, possible) > 0 <==> 200 * completed >= possible
  {
    RoundedPositive(completed, possible, Percent(completed, possible));
  }

  lemma RoundedPositive(c: int, p: int, r: int)
    requires p > 0 && 2 * p * r - p <= 200 * c < 2 * p * r + p
    ensures r > 0 <==> 200 * c >= p
  {
    if r > 0 {
      assert p * r >= p;
    } else {
      assert p * r <= 0;
    }
  }

  // ---------------------------------------------------------------------------
  // One day
  // ---------------------------------------------------------------------------

  /** The sum of the caps of `active`. */
  function PossibleSum(active: seq<Task>, sessionsPerDay: int): int {
    if active == [] then 0
    else PossibleSum(active[..|active| - 1], sessionsPerDay) + TaskMaxForDay(active[|active| - 1], sessionsPerDay)
  }

  /** The sum of the credits of `active` on `date`. */
  function CreditSum(active: seq<Task>, date: string, checkIns: seq<CheckIn>, completions: seq<Completion>,
                     sessionsPerDay: int): int {
    if active == [] then 0
    else
      CreditSum(active[..|active| - 1], date, checkIns, completions, sessionsPerDay) +
      Credit(active[|active| - 1], date, checkIns, completions, sessionsPerDay)
  }

  function DayPossible(date: string, tasks: seq<Task>, dayOf: string -> string, sessionsPerDay: int): int {
    PossibleSum(ActiveTasksForDate(tasks, date, dayOf), sessionsPerDay)
  }

  function DayCompleted(date: string, checkIns: seq<CheckIn>, completions: seq<Completion>, tasks: seq<Task>,
                        dayOf: string -> string, sessionsPerDay: int): int {
    CreditSum(ActiveTasksForDate(tasks, date, dayOf), date, checkIns, completions, sessionsPerDay)
  }

  function DayPercent(date: string, checkIns: seq<CheckIn>, completions: seq<Completion>, tasks: seq<Task>,
                      dayOf: string -> string, sessionsPerDay: int): int {
    Percent(DayCompleted(date, checkIns, completions, tasks, dayOf, sessionsPerDay),
            DayPossible(date, tasks, dayOf, sessionsPerDay))
  }

  /** With a non-negative session count, no task earns more than its cap, nor less than 0. */
  lemma {:induction false} CreditSumBounds(active: seq<Task>, date: string, checkIns: seq<CheckIn>,
                                           completions: seq<Completion>, sessionsPerDay: int)
    requires sessionsPerDay >= 0
    ensures 0 <= CreditSum(active, date, checkIns, completions, sessionsPerDay) <= PossibleSum(active, sessionsPerDay)
  {
    if active != [] {
      CreditSumBounds(active[..|active| - 1], date, checkIns, completions, sessionsPerDay);
    }
  }

  /** A day on which every active task reached its cap scores 100% (when anything was possible). */
  lemma {:induction false} CreditSumFull(active: seq<Task>, date: string, checkIns: seq<CheckIn>,
                                         completions: seq<Completion>, sessionsPerDay: int)
    requires forall t :: t in active ==> TaskMarks(t, date, checkIns, completions) >= TaskMaxForDay(t, sessionsPerDay)
    ensures CreditSum(active, date, checkIns, completions, sessionsPerDay) == PossibleSum(active, sessionsPerDay)
  {
    if active != [] {
      var front := active[..|active| - 1];
      assert forall t :: t in front ==> t in active;
      CreditSumFull(front, date, checkIns, completions, sessionsPerDay);
      assert active[|active| - 1] in active;
    }
  }

  /** A day on which no active task was marked done earns nothing. */
  lemma {:induction false} CreditSumEmpty(active: seq<Task>, date: string, checkIns: seq<CheckIn>,
                                          completions: seq<Completion>, sessionsPerDay: int)
    requires sessionsPerDay >= 0
    requires forall t :: t in active ==> TaskMarks(t, date, checkIns, completions) == 0
    ensures CreditSum(active, date, checkIns, completions, sessionsPerDay) == 0
  {
    if active != [] {
      var front := active[..|active| - 1];
      assert forall t :: t in front ==> t in active;
      CreditSumEmpty(front, date, checkIns, completions, sessionsPerDay);
      assert active[|active| - 1] in active;
    }
  }

  /** A day's percentage is 100 when every active task reached its cap. */
  lemma PerfectDay(date: string, checkIns: seq<CheckIn>, completions: seq<Completion>, tasks: seq<Task>,
                   dayOf: string -> string, sessionsPerDay: int)
    requires sessionsPerDay >= 1
    requires ActiveTasksForDate(tasks, date, dayOf) != []
    requires forall t :: t in tasks && IsActive(t, date, dayOf) ==>
      TaskMarks(t, date, checkIns, completions) >= TaskMaxForDay(t, sessionsPerDay)
    ensures DayPercent(date, checkIns, completions, tasks, dayOf, sessionsPerDay) == 100
  {
    var active := ActiveTasksForDate(tasks, date, dayOf);
    CreditSumFull(active, date, checkIns, completions, sessionsPerDay);
    PossibleSumPositive(active, sessionsPerDay);
    PercentBounds(PossibleSum(active, sessionsPerDay), PossibleSum(active, sessionsPerDay));
  }

  /** Each task offers at least one completion when there is at least one session a day. */
  lemma {:induction false} PossibleSumPositive(active: seq<Task>, sessionsPerDay: int)
    requires sessionsPerDay >= 1
    ensures PossibleSum(active, sessionsPerDay) >= |active|
  {
    if active != [] {
      PossibleSumPositive(active[..|active| - 1], sessionsPerDay);
    }
  }

  /** A day with no completed mark of any active task scores 0%. */
  lemma IdleDay(date: string, checkIns: seq<CheckIn>, completions: seq<Completion>, tasks: seq<Task>,
                dayOf: string -> string, sessionsPerDay: int)
    requires sessionsPerDay >= 0
    requires forall t :: t in tasks && IsActive(t, date, dayOf) ==> TaskMarks(t, date, checkIns, completions) == 0
    ensures DayPercent(date, checkIns, completions, tasks, dayOf, sessionsPerDay) == 0
  {
    var active := ActiveTasksForDate(tasks, date, dayOf);
    CreditSumEmpty(active, date, checkIns, completions, sessionsPerDay);
    CreditSumBounds(active, date, checkIns, completions, sessionsPerDay);
    PercentBounds(0, PossibleSum(active, sessionsPerDay));
  }

  /**
   * computeDayStats: the completions the active tasks offer (`totalTasks`),
   * the completions they earned, each task capped (`completedTasks`), and the
   * rounded percentage.
   */
  method ComputeDayStats(date: string, checkIns: seq<CheckIn>, completions: seq<Completion>, tasks: seq<Task>,
                         dayOf: string -> string, sessionsPerDay: int := DefaultSessionsPerDay)
    returns (s: DayStats)
    ensures s.date == date
    ensures s.totalTasks == DayPossible(date, tasks, dayOf, sessionsPerDay)
    ensures s.completedTasks == DayCompleted(date, checkIns, completions, tasks, dayOf, sessionsPerDay)
    ensures s.percentage == Percent(s.completedTasks, s.totalTasks)
    ensures sessionsPerDay >= 0 ==> 0 <= s.completedTasks <= s.totalTasks && 0 <= s.percentage <= 100
  {
    var activeTasks := ActiveTasksForDate(tasks, date, dayOf);
    var dayCheckInIds := DayCheckInIds(checkIns, date);
    var totalPossible, completedCount := 0, 0;
    for i := 0 to |activeTasks|
      invariant totalPossible == PossibleSum(activeTasks[..i], sessionsPerDay)
      invariant completedCount == CreditSum(activeTasks[..i], date, checkIns, completions, sessionsPerDay)
    {
      var task := activeTasks[i];
      var max := TaskMaxForDay(task, sessionsPerDay);
      totalPossible := totalPossible + max;
      var taskCompletions := MarkCount(completions, task.id, dayCheckInIds);
      completedCount := completedCount + Min(taskCompletions, max);
      PrefixStep(activeTasks, i);
    }
    WholePrefix(activeTasks);
    if sessionsPerDay >= 0 {
      CreditSumBounds(activeTasks, date, checkIns, completions, sessionsPerDay);
      PercentBounds(completedCount, totalPossible);
    }
    s := DayStats(date, totalPossible, completedCount, Percent(completedCount, totalPossible));
  }

  // ---------------------------------------------------------------------------
  // A range of days
  // ---------------------------------------------------------------------------

  function RangePossible(dates: seq<string>, tasks: seq<Task>, dayOf: string -> string, sessionsPerDay: int): int {
    if dates == [] then 0
    else RangePossible(dates[..|dates| - 1], tasks, dayOf, sessionsPerDay) +
         DayPossible(dates[|dates| - 1], tasks, dayOf, sessionsPerDay)
  }

  function RangeCompleted(dates: seq<string>, checkIns: seq<CheckIn>, completions: seq<Completion>,
                          tasks: seq<Task>, dayOf: string -> string, sessionsPerDay: int): int {
    if dates == [] then 0
    else RangeCompleted(dates[..|dates| - 1], checkIns, completions, tasks, dayOf, sessionsPerDay) +
         DayCompleted(dates[|dates| - 1], checkIns, completions, tasks, dayOf, sessionsPerDay)
  }

  /** Over a single date, the range totals are that day's totals. */
  lemma SingleDateRange(dates: seq<string>, checkIns: seq<CheckIn>, completions: seq<Completion>,
                        tasks: seq<Task>, dayOf: string -> string, sessionsPerDay: int)
    requires |dates| == 1
    ensures RangePossible(dates, tasks, dayOf, sessionsPerDay) == DayPossible(dates[0], tasks, dayOf, sessionsPerDay)
    ensures RangeCompleted(dates, checkIns, completions, tasks, dayOf, sessionsPerDay) ==
            DayCompleted(dates[0], checkIns, completions, tasks, dayOf, sessionsPerDay)
  {
    assert dates[..0] == [];
  }

  lemma {:induction false} RangeBounds(dates: seq<string>, checkIns: seq<CheckIn>, completions: seq<Completion>,
                                       tasks: seq<Task>, dayOf: string -> string, sessionsPerDay: int)
    requires sessionsPerDay >= 0
    ensures 0 <= RangeCompleted(dates, checkIns, completions, tasks, dayOf, sessionsPerDay)
              <= RangePossible(dates, tasks, dayOf, sessionsPerDay)
  {
    if dates != [] {
      var d := dates[|dates| - 1];
      RangeBounds(dates[..|dates| - 1], checkIns, completions, tasks, dayOf, sessionsPerDay);
      CreditSumBounds(ActiveTasksForDate(tasks, d, dayOf), d, checkIns, completions, sessionsPerDay);
    }
  }

  /**
   * The range totals of consecutive stretches add up: the range percentage
   * weighs every day by what it offers, it is not a mean of day percentages.
   */
  lemma {:induction false} RangeSplit(a: seq<string>, b: seq<string>, checkIns: seq<CheckIn>,
                                      completions: seq<Completion>, tasks: seq<Task>,
                                      dayOf: string -> string, sessionsPerDay: int)
    ensures RangePossible(a + b, tasks, dayOf, sessionsPerDay) ==
            RangePossible(a, tasks, dayOf, sessionsPerDay) + RangePossible(b, tasks, dayOf, sessionsPerDay)
    ensures RangeCompleted(a + b, checkIns, completions, tasks, dayOf, sessionsPerDay) ==
            RangeCompleted(a, checkIns, completions, tasks, dayOf, sessionsPerDay) +
            RangeCompleted(b, checkIns, completions, tasks, dayOf, sessionsPerDay)
  {
    if b == [] {
      assert a + b == a;
    } else {
      var b' := b[..|b| - 1];
      assert (a + b)[..|a + b| - 1] == a + b';
      assert (a + b)[|a + b| - 1] == b[|b| - 1];
      RangeSplit(a, b', checkIns, completions, tasks, dayOf, sessionsPerDay);
    }
  }

  /**
   * computeRangePercentage: the rounded percentage of everything completed
   * over everything possible across `dates`; 0 for no dates.
   */
  method ComputeRangePercentage(dates: seq<string>, checkIns: seq<CheckIn>, completions: seq<Completion>,
                                tasks: seq<Task>, dayOf: string -> string,
                                sessionsPerDay: int := DefaultSessionsPerDay)
    returns (r: int)
    ensures r == Percent(RangeCompleted(dates, checkIns, completions, tasks, dayOf, sessionsPerDay),
                         RangePossible(dates, tasks, dayOf, sessionsPerDay))
    ensures sessionsPerDay >= 0 ==> 0 <= r <= 100
    ensures dates == [] ==> r == 0
    ensures |dates| == 1 ==> r == DayPercent(dates[0], checkIns, completions, tasks, dayOf, sessionsPerDay)
  {
    var totalPossible, totalCompleted := 0, 0;
    for i := 0 to |dates|
      invariant totalPossible == RangePossible(dates[..i], tasks, dayOf, sessionsPerDay)
      invariant totalCompleted == RangeCompleted(dates[..i], checkIns, completions, tasks, dayOf, sessionsPerDay)
    {
      var stats := ComputeDayStats(dates[i], checkIns, completions, tasks, dayOf, sessionsPerDay);
      totalPossible := totalPossible + stats.totalTasks;
      totalCompleted := totalCompleted + stats.completedTasks;
      PrefixStep(dates, i);
    }
    WholePrefix(dates);
    if sessionsPerDay >= 0 {
      RangeBounds(dates, checkIns, completions, tasks, dayOf, sessionsPerDay);
      PercentBounds(totalCompleted, totalPossible);
    }
    if |dates| == 1 {
      SingleDateRange(dates, checkIns, completions, tasks, dayOf, sessionsPerDay);
    }
    r := Percent(totalCompleted, totalPossible);
  }

  // ---------------------------------------------------------------------------
  // One task over a range of days
  // ---------------------------------------------------------------------------

  /** The dates on which `task` is active, in their order. */
  function ActiveDates(dates: seq<string>, task: Task, dayOf: string -> string): (r: seq<string>)
    ensures |r| <= |dates|
    ensures forall d :: d in r <==> d in dates && IsActive(task, d, dayOf)
  {
    if dates == [] then []
    else
      var front := dates[..|dates| - 1];
      var last := dates[|dates| - 1];
      assert forall d :: d in dates <==> d in front || d == last by {
        assert dates == front + [last];
      }
      ActiveDates(front, task, dayOf) + (if IsActive(task, last, dayOf) then [last] else [])
  }

  /** The credits `task` earned on each of `dates`, added up. */
  function TaskCompleted(task: Task, dates: seq<string>, checkIns: seq<CheckIn>, completions: seq<Completion>,
                         sessionsPerDay: int): int {
    if dates == [] then 0
    else TaskCompleted(task, dates[..|dates| - 1], checkIns, completions, sessionsPerDay) +
         Credit(task, dates[|dates| - 1], checkIns, completions, sessionsPerDay)
  }

  lemma {:induction false} TaskCompletedBounds(task: Task, dates: seq<string>, checkIns: seq<CheckIn>,
                                               completions: seq<Completion>, sessionsPerDay: int)
    requires sessionsPerDay >= 0
    ensures 0 <= TaskCompleted(task, dates, checkIns, completions, sessionsPerDay)
              <= |dates| * TaskMaxForDay(task, sessionsPerDay)
  {
    if dates != [] {
      var n := |dates| - 1;
      var m := TaskMaxForDay(task, sessionsPerDay);
      TaskCompletedBounds(task, dates[..n], checkIns, completions, sessionsPerDay);
      assert 0 <= Credit(task, dates[n], checkIns, completions, sessionsPerDay) <= m;
      MulSucc(n, m);
    }
  }

  lemma MulSucc(n: int, m: int)
    ensures (n + 1) * m == n * m + m
  {
  }

  /** A task list holding one task offers and earns on a day what that task does, if active. */
  lemma SingleTaskDay(task: Task, date: string, checkIns: seq<CheckIn>, completions: seq<Completion>,
                      dayOf: string -> string, sessionsPerDay: int)
    ensures DayPossible(date, [task], dayOf, sessionsPerDay) ==
            (if IsActive(task, date, dayOf) then TaskMaxForDay(task, sessionsPerDay) else 0)
    ensures DayCompleted(date, checkIns, completions, [task], dayOf, sessionsPerDay) ==
            (if IsActive(task, date, dayOf) then Credit(task, date, checkIns, completions, sessionsPerDay) else 0)
  {
    var active := ActiveTasksForDate([task], date, dayOf);
    assert [task][1..] == [];
    assert ActiveTasksForDate([], date, dayOf) == [];
    if IsActive(task, date, dayOf) {
      assert active == [task] + [];
      assert active[..0] == [];
      assert PossibleSum(active, sessionsPerDay) == PossibleSum([], sessionsPerDay) + TaskMaxForDay(task, sessionsPerDay);
      assert CreditSum(active, date, checkIns, completions, sessionsPerDay) ==
             CreditSum([], date, checkIns, completions, sessionsPerDay) + Credit(task, date, checkIns, completions, sessionsPerDay);
    } else {
      assert active == [];
    }
  }

  /** The days on which the task is active, each offering its cap, are the one-task range's possible total. */
  lemma {:induction false} TaskPossibleMatchesRange(task: Task, dates: seq<string>, dayOf: string -> string,
                                                    sessionsPerDay: int)
    ensures |ActiveDates(dates, task, dayOf)| * TaskMaxForDay(task, sessionsPerDay) ==
            RangePossible(dates, [task], dayOf, sessionsPerDay)
  {
    if dates != [] {
      var front := dates[..|dates| - 1];
      var last := dates[|dates| - 1];
      TaskPossibleMatchesRange(task, front, dayOf, sessionsPerDay);
      SingleTaskDay(task, last, [], [], dayOf, sessionsPerDay);
      var a := ActiveDates(front, task, dayOf);
      if IsActive(task, last, dayOf) {
        MulSucc(|a|, TaskMaxForDay(task, sessionsPerDay));
      } else {
        assert a + [] == a;
      }
    }
  }

  /** What the task earned on its active days is the one-task range's completed total. */
  lemma {:induction false} TaskCompletedMatchesRange(task: Task, dates: seq<string>, checkIns: seq<CheckIn>,
                                                     completions: seq<Completion>, dayOf: string -> string,
                                                     sessionsPerDay: int)
    ensures TaskCompleted(task, ActiveDates(dates, task, dayOf), checkIns, completions, sessionsPerDay) ==
            RangeCompleted(dates, checkIns, completions, [task], dayOf, sessionsPerDay)
  {
    if dates != [] {
      var front := dates[..|dates| - 1];
      var last := dates[|dates| - 1];
      TaskCompletedMatchesRange(task, front, checkIns, completions, dayOf, sessionsPerDay);
      SingleTaskDay(task, last, checkIns, completions, dayOf, sessionsPerDay);
      var a := ActiveDates(front, task, dayOf);
      if IsActive(task, last, dayOf) {
        var a' := a + [last];
        assert a'[..|a'| - 1] == a;
      } else {
        assert a + [] == a;
      }
    }
  }

  /**
   * computeTaskStats: over the dates on which the task is active, what it
   * could earn (its cap each day), what it earned (its capped marks each day)
   * and the rounded percentage.
   */
  method ComputeTaskStats(task: Task, checkIns: seq<CheckIn>, completions: seq<Completion>, dates: seq<string>,
                          dayOf: string -> string, sessionsPerDay: int := DefaultSessionsPerDay)
    returns (s: TaskStats)
    ensures s.task == task
    ensures s.totalPossible == |ActiveDates(dates, task, dayOf)| * TaskMaxForDay(task, sessionsPerDay)
    ensures s.totalCompleted ==
            TaskCompleted(task, ActiveDates(dates, task, dayOf), checkIns, completions, sessionsPerDay)
    ensures s.percentage == Percent(s.totalCompleted, s.totalPossible)
    ensures sessionsPerDay >= 0 ==> 0 <= s.totalCompleted <= s.totalPossible && 0 <= s.percentage <= 100
    ensures ActiveDates(dates, task, dayOf) == [] ==> s.totalPossible == 0 && s.percentage == 0
  {
    var activeDates := ActiveDates(dates, task, dayOf);
    var maxPerDay := TaskMaxForDay(task, sessionsPerDay);
    var totalPossible := |activeDates| * maxPerDay;
    var totalCompleted := 0;
    for i := 0 to |activeDates|
      invariant totalCompleted == TaskCompleted(task, activeDates[..i], checkIns, completions, sessionsPerDay)
    {
      var date := activeDates[i];
      var dayCheckInIds := DayCheckInIds(checkIns, date);
      var count := MarkCount(completions, task.id, dayCheckInIds);
      totalCompleted := totalCompleted + Min(count, maxPerDay);
      PrefixStep(activeDates, i);
    }
    WholePrefix(activeDates);
    if sessionsPerDay >= 0 {
      TaskCompletedBounds(task, activeDates, checkIns, completions, sessionsPerDay);
      PercentBounds(totalCompleted, totalPossible);
    }
    s := TaskStats(task, totalPossible, totalCompleted, Percent(totalCompleted, totalPossible));
  }

  // ---------------------------------------------------------------------------
  // Streaks
  // ---------------------------------------------------------------------------

  /** `[...dates].sort().reverse()`: the dates, latest first. */
  function Descending(dates: seq<string>): seq<string> {
    Reverse(Sort(dates))
  }

  /** Descending holds the same dates, each no earlier than the next. */
  lemma DescendingOrder(dates: seq<string>)
    ensures multiset(Descending(dates)) == multiset(dates)
    ensures |Descending(dates)| == |dates|
    ensures forall i, j :: 0 <= i < j < |dates| ==> Le(Descending(dates)[j], Descending(dates)[i])
  {
    var s := Sort(dates);
    SortCorrect(dates);
    ReverseSameElements(s);
    assert |s| == |dates| by {
      assert |s| == |multiset(s)|;
    }
  }

  lemma {:induction false} ReverseSameElements(s: seq<string>)
    ensures multiset(Reverse(s)) == multiset(s)
  {
    if s != [] {
      ReverseSameElements(s[1..]);
      assert s == [s[0]] + s[1..];
    }
  }

  /** Whether each date of `sorted` scored above 0%. */
  function Flags(sorted: seq<string>, checkIns: seq<CheckIn>, completions: seq<Completion>, tasks: seq<Task>,
                 dayOf: string -> string, sessionsPerDay: int): seq<bool>
  {
    if sorted == [] then []
    else Flags(sorted[..|sorted| - 1], checkIns, completions, tasks, dayOf, sessionsPerDay) +
         [DayPercent(sorted[|sorted| - 1], checkIns, completions, tasks, dayOf, sessionsPerDay) > 0]
  }

  lemma {:induction false} FlagsLength(sorted: seq<string>, checkIns: seq<CheckIn>, completions: seq<Completion>,
                                       tasks: seq<Task>, dayOf: string -> string, sessionsPerDay: int)
    ensures |Flags(sorted, checkIns, completions, tasks, dayOf, sessionsPerDay)| == |sorted|
  {
    if sorted != [] {
      FlagsLength(sorted[..|sorted| - 1], checkIns, completions, tasks, dayOf, sessionsPerDay);
    }
  }

  /** One flag per date, telling whether that date scored above 0%. */
  lemma {:induction false} FlagsAt(sorted: seq<string>, checkIns: seq<CheckIn>, completions: seq<Completion>,
                                   tasks: seq<Task>, dayOf: string -> string, sessionsPerDay: int, i: nat)
    requires i < |sorted|
    ensures |Flags(sorted, checkIns, completions, tasks, dayOf, sessionsPerDay)| == |sorted|
    ensures Flags(sorted, checkIns, completions, tasks, dayOf, sessionsPerDay)[i] <==>
            DayPercent(sorted[i], checkIns, completions, tasks, dayOf, sessionsPerDay) > 0
  {
    var front := sorted[..|sorted| - 1];
    FlagsLength(sorted, checkIns, completions, tasks, dayOf, sessionsPerDay);
    FlagsLength(front, checkIns, completions, tasks, dayOf, sessionsPerDay);
    if i < |front| {
      FlagsAt(front, checkIns, completions, tasks, dayOf, sessionsPerDay, i);
      assert front[i] == sorted[i];
    }
  }

  predicate AllTrue(f: seq<bool>, a: int, b: int)
    requires 0 <= a <= b <= |f|
  {
    forall j :: a <= j < b ==> f[j]
  }

  /** The number of leading `true`s. */
  function LeadRun(f: seq<bool>): (n: nat)
    ensures n <= |f|
  {
    if f == [] || !f[0] then 0 else 1 + LeadRun(f[1..])
  }

  /** The length of the first run of `true`s, after any leading `false`s. */
  function FirstRun(f: seq<bool>): (n: nat)
    ensures n <= |f|
  {
    if f == [] then 0 else if !f[0] then FirstRun(f[1..]) else LeadRun(f)
  }

  /** The number of trailing `true`s. */
  function TrailRun(f: seq<bool>): (n: nat)
    ensures n <= |f|
  {
    if f == [] || !f[|f| - 1] then 0 else 1 + TrailRun(f[..|f| - 1])
  }

  /** The longest run of `true`s, as the longest run ending at each position. */
  function LongestRun(f: seq<bool>): (n: nat)
    ensures TrailRun(f) <= n <= |f|
  {
    if f == [] then 0 else Max(LongestRun(f[..|f| - 1]), TrailRun(f))
  }

  lemma {:induction false} TrailRunTrue(f: seq<bool>)
    ensures AllTrue(f, |f| - TrailRun(f), |f|)
  {
    if f != [] && f[|f| - 1] {
      TrailRunTrue(f[..|f| - 1]);
    }
  }

  lemma {:induction false} TrailRunAtLeast(f: seq<bool>, a: nat)
    requires a <= |f| && AllTrue(f, a, |f|)
    ensures |f| - a <= TrailRun(f)
  {
    if a < |f| {
      TrailRunAtLeast(f[..|f| - 1], a);
    }
  }

  lemma {:induction false} LeadRunAt(f: seq<bool>, b: nat)
    requires b <= |f| && AllTrue(f, 0, b) && (b == |f| || !f[b])
    ensures LeadRun(f) == b
  {
    if b > 0 {
      LeadRunAt(f[1..], b - 1);
    }
  }

  /** A run of `true`s from `a` to `b`, preceded only by `false`s, is the first run. */
  lemma {:induction false} FirstRunAt(f: seq<bool>, a: nat, b: nat)
    requires a < b <= |f|
    requires forall j :: 0 <= j < a ==> !f[j]
    requires AllTrue(f, a, b) && (b == |f| || !f[b])
    ensures FirstRun(f) == b - a
  {
    if a > 0 {
      FirstRunAt(f[1..], a - 1, b - 1);
    } else {
      LeadRunAt(f, b);
    }
  }

  lemma {:induction false} FirstRunNone(f: seq<bool>)
    requires forall j :: 0 <= j < |f| ==> !f[j]
    ensures FirstRun(f) == 0
  {
    if f != [] {
      FirstRunNone(f[1..]);
    }
  }

  /** Every run of `true`s is at most the longest run. */
  lemma {:induction false} LongestRunBound(f: seq<bool>, a: nat, b: nat)
    requires a <= b <= |f| && AllTrue(f, a, b)
    ensures b - a <= LongestRun(f)
  {
    if b == |f| {
      TrailRunAtLeast(f, a);
    } else {
      LongestRunBound(f[..|f| - 1], a, b);
    }
  }

  /** The longest run is a run. */
  lemma {:induction false} LongestRunAchieved(f: seq<bool>) returns (a: nat)
    ensures a + LongestRun(f) <= |f| && AllTrue(f, a, a + LongestRun(f))
  {
    if f == [] {
      a := 0;
    } else if LongestRun(f[..|f| - 1]) >= TrailRun(f) {
      a := LongestRunAchieved(f[..|f| - 1]);
    } else {
      TrailRunTrue(f);
      a := |f| - TrailRun(f);
    }
  }

  /** The first run is a run. */
  lemma {:induction false} FirstRunPosition(f: seq<bool>) returns (a: nat)
    ensures a + FirstRun(f) <= |f| && AllTrue(f, a, a + FirstRun(f))
  {
    if f == [] {
      a := 0;
    } else if !f[0] {
      var a' := FirstRunPosition(f[1..]);
      a := a' + 1;
    } else {
      a := 0;
      LeadRunTrue(f);
    }
  }

  lemma {:induction false} LeadRunTrue(f: seq<bool>)
    ensures AllTrue(f, 0, LeadRun(f))
  {
    if f != [] && f[0] {
      LeadRunTrue(f[1..]);
    }
  }

  lemma FirstRunAtMostLongest(f: seq<bool>)
    ensures FirstRun(f) <= LongestRun(f)
  {
    var a := FirstRunPosition(f);
    LongestRunBound(f, a, a + FirstRun(f));
  }

  /**
   * What the streak scan knows after `i` flags: `temp` is the run ending
   * there, `longest` the longest run so far, and `current` is either still
   * 0 with no run finished yet, or the first run.
   */
  predicate ScanState(f: seq<bool>, i: nat, current: nat, longest: nat, temp: nat)
    requires i <= |f|
  {
    && temp == TrailRun(f[..i])
    && longest == LongestRun(f[..i])
    && (current == 0 ==> forall j :: 0 <= j < i - temp ==> !f[j])
    && (current != 0 ==> current == FirstRun(f))
  }

  /** One step of the scan keeps `ScanState`. */
  lemma ScanStep(f: seq<bool>, i: nat, current: nat, longest: nat, temp: nat)
    requires i < |f| && ScanState(f, i, current, longest, temp)
    ensures f[i] ==> ScanState(f, i + 1, current, Max(longest, temp + 1), temp + 1)
    ensures !f[i] ==> ScanState(f, i + 1, if current == 0 then temp else current, longest, 0)
  {
    PrefixStep(f, i);
    TrailRunTrue(f[..i]);
    if !f[i] && current == 0 && temp > 0 {
      FirstRunAt(f, i - temp, i);
    }
  }

  /** At the end of the scan, the last run settles `current` when no run had finished. */
  lemma ScanEnd(f: seq<bool>, current: nat, longest: nat, temp: nat)
    requires ScanState(f, |f|, current, longest, temp)
    ensures (if current == 0 then temp else current) == FirstRun(f)
    ensures Max(longest, temp) == LongestRun(f)
    ensures FirstRun(f) <= LongestRun(f)
  {
    WholePrefix(f);
    if current == 0 {
      TrailRunTrue(f);
      if temp > 0 {
        FirstRunAt(f, |f| - temp, |f|);
      } else {
        FirstRunNone(f);
      }
    }
    FirstRunAtMostLongest(f);
  }

  /**
   * computeStreak: over the dates latest first, `current` is the first run of
   * days above 0% (days at 0% before it are passed over) and `longest` the
   * longest such run.
   */
  method ComputeStreak(dates: seq<string>, checkIns: seq<CheckIn>, completions: seq<Completion>, tasks: seq<Task>,
                       dayOf: string -> string, sessionsPerDay: int := DefaultSessionsPerDay)
    returns (s: Streak)
    ensures dates == [] ==> s == Streak(0, 0)
    ensures s.current == FirstRun(Flags(Descending(dates), checkIns, completions, tasks, dayOf, sessionsPerDay))
    ensures s.longest == LongestRun(Flags(Descending(dates), checkIns, completions, tasks, dayOf, sessionsPerDay))
    ensures s.current <= s.longest
  {
    ghost var f := Flags(Descending(dates), checkIns, completions, tasks, dayOf, sessionsPerDay);
    if |dates| == 0 {
      assert f == [] by {
        SortSameElements(dates, "");
        FlagsLength(Descending(dates), checkIns, completions, tasks, dayOf, sessionsPerDay);
      }
      return Streak(0, 0);
    }
    var sorted := Reverse(Sort(dates));
    var currentStreak, longestStreak, tempStreak := ScanDays(sorted, checkIns, completions, tasks, dayOf, sessionsPerDay);
    ScanEnd(f, currentStreak, longestStreak, tempStreak);
    if currentStreak == 0 {
      currentStreak := tempStreak;
    }
    if tempStreak > longestStreak {
      longestStreak := tempStreak;
    }
    s := Streak(currentStreak, longestStreak);
  }

  /** Whether `computeDayStats` gives the date a percentage above 0. */
  method DayScored(date: string, checkIns: seq<CheckIn>, completions: seq<Completion>, tasks: seq<Task>,
                   dayOf: string -> string, sessionsPerDay: int)
    returns (scored: bool)
    ensures scored <==> DayPercent(date, checkIns, completions, tasks, dayOf, sessionsPerDay) > 0
  {
    var stats := ComputeDayStats(date, checkIns, completions, tasks, dayOf, sessionsPerDay);
    scored := stats.percentage > 0;
  }

  /** The loop of computeStreak over the dates, latest first. */
  method ScanDays(sorted: seq<string>, checkIns: seq<CheckIn>, completions: seq<Completion>, tasks: seq<Task>,
                  dayOf: string -> string, sessionsPerDay: int)
    returns (currentStreak: nat, longestStreak: nat, tempStreak: nat)
    ensures |Flags(sorted, checkIns, completions, tasks, dayOf, sessionsPerDay)| == |sorted|
    ensures ScanState(Flags(sorted, checkIns, completions, tasks, dayOf, sessionsPerDay), |sorted|,
                      currentStreak, longestStreak, tempStreak)
  {
    ghost var f := Flags(sorted, checkIns, completions, tasks, dayOf, sessionsPerDay);
    FlagsLength(sorted, checkIns, completions, tasks, dayOf, sessionsPerDay);
    currentStreak, longestStreak, tempStreak := 0, 0, 0;
    for i := 0 to |sorted|
      invariant |f| == |sorted|
      invariant ScanState(f, i, currentStreak, longestStreak, tempStreak)
    {
      var scored := DayScored(sorted[i], checkIns, completions, tasks, dayOf, sessionsPerDay);
      ghost var current0, longest0, temp0 := currentStreak, longestStreak, tempStreak;
      if scored {
        tempStreak := tempStreak + 1;
        if tempStreak > longestStreak {
          longestStreak := tempStreak;
        }
      } else {
        if currentStreak == 0 {
          currentStreak := tempStreak;
        }
        tempStreak := 0;
      }
      ScanDay(sorted, checkIns, completions, tasks, dayOf, sessionsPerDay, i, scored,
              current0, longest0, temp0, currentStreak, longestStreak, tempStreak);
    }
  }

  /** One date of the scan: its score decides the next state of the scan. */
  lemma ScanDay(sorted: seq<string>, checkIns: seq<CheckIn>, completions: seq<Completion>, tasks: seq<Task>,
                dayOf: string -> string, sessionsPerDay: int, i: nat, scored: bool,
                current: nat, longest: nat, temp: nat, current': nat, longest': nat, temp': nat)
    requires i < |sorted|
    requires |Flags(sorted, checkIns, completions, tasks, dayOf, sessionsPerDay)| == |sorted|
    requires ScanState(Flags(sorted, checkIns, completions, tasks, dayOf, sessionsPerDay), i, current, longest, temp)
    requires scored <==> DayPercent(sorted[i], checkIns, completions, tasks, dayOf, sessionsPerDay) > 0
    requires current' == if scored || current != 0 then current else temp
    requires longest' == if scored then Max(longest, temp + 1) else longest
    requires temp' == if scored then temp + 1 else 0
    ensures ScanState(Flags(sorted, checkIns, completions, tasks, dayOf, sessionsPerDay), i + 1,
                      current', longest', temp')
  {
    FlagsAt(sorted, checkIns, completions, tasks, dayOf, sessionsPerDay, i);
    ScanStep(Flags(sorted, checkIns, completions, tasks, dayOf, sessionsPerDay), i, current, longest, temp);
  }

  /** The streaks depend only on which dates are given, not on their order. */
  lemma StreakIgnoresInputOrder(d1: seq<string>, d2: seq<string>, checkIns: seq<CheckIn>,
                                completions: seq<Completion>, tasks: seq<Task>,
                                dayOf: string -> string, sessionsPerDay: int)
    requires multiset(d1) == multiset(d2)
    ensures Flags(Descending(d1), checkIns, completions, tasks, dayOf, sessionsPerDay) ==
            Flags(Descending(d2), checkIns, completions, tasks, dayOf, sessionsPerDay)
  {
    SortDependsOnlyOnContents(d1, d2);
  }
}
