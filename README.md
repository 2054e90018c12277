# Consistency tracker: a verified model of its engine

The consistency tracker is a small web app that tracks recurring habits. A user
keeps a list of tasks and has a few check-in windows a day, three by default:
morning, midday and evening. In each window the user marks which tasks they did.
The app then reports, for a day, a range of days or a single task, the share of
possible completions that were earned. It also reports the current and the
longest streak of days that scored above 0%.

This project models the engine of the app in Dafny and proves properties of
that model:

- **Statistics** (`stats.dfy`, module `Stats`):
  - which tasks are active on a day;
  - the per-day cap of a task: 1 for a daily task, the number of sessions for
    any other;
  - a day's totals and rounded percentage;
  - the percentage over a range of days, computed from summed totals;
  - the per-task summary;
  - the streak scan over the dates, latest first.
- **Session clock and dates** (`dates.dfy`, module `Dates`):
  - the current session number and the next session time, with the current
    time as a parameter;
  - session labels;
  - `formatTime12h`;
  - `isDateInRange`;
  - the clamped day counts.

  String comparison of zero-padded times and dates is proved to agree with the
  clock order and the calendar order. Supporting modules:
  - `string_order.dfy` (`StringOrder`): JavaScript's `<` on strings and
    `Array.prototype.sort()`.
  - `decimal.dfy` (`Decimal`): `Number(...)` on digit strings, `${n}` and
    `padStart`.
- **Completion ledger** (`checkin.dfy`, module `CheckInLedger`): the
  `check_ins` and `completions` tables and the check-in hook's three
  operations: `fetchCheckIns`, `submitCheckIn` and `quickComplete`.
  - Each operation is a function of the tables, with its properties proved.
  - The class `Ledger` holds the tables as fields, and its methods are proved
    to follow those functions.
- **Task list** (`tasks.dfy`, module `TaskList`): the `tasks` table and the
  hook's local list. The class `TaskStore` models `fetchTasks`, `addTask`,
  `removeTask` and `reorderTasks`.
- **PIN entry** (`pinpad.dfy`, module `PinEntry`): the keypad's `pin` state.
  - Digits are appended up to eight.
  - Delete removes the last character.
  - Submit sends the PIN once it has `minLength` characters, 4 by default.

`types.dfy` (module `Types`) holds the records of `lib/types.ts` and an
`Option` type.

External inputs become parameters or flags:

- **Database.** The hosted database becomes in-memory sequences. The network
  becomes a fault flag per request, and the database's row ids become a counter.
- **Clock.** The current time of day, today's date and the clock readings
  stored as timestamps are passed in.
- **Time zone.** Turning a stored timestamp into a local calendar day
  (`format(parseISO(ts), 'yyyy-MM-dd')`) is the function parameter `dayOf`.

### Where the code does less than its names suggest

The model follows the code in each of these places.

- **Current streak.** A current streak reads naturally as the run of days
  above 0% that ends at the most recent date. The code does something else:
  while no run has ended, a 0% day sets `current` to 0, so 0% days at the
  recent end are passed over. `current` is therefore the first run of days
  above 0% in latest-first order (lib/stats.ts:75, lib/stats.ts:80).
  - `Stats.ComputeStreak` is proved against this behaviour, via `FirstRun`.
- **What counts as a scored day.** A day with one completion is not always
  scored. The code asks for a rounded percentage above 0 (lib/stats.ts:71).
  - `Stats.PercentPositive` proves this holds exactly when
    200 × completed ≥ possible.
  - So one completion out of 201 possible does not count.
- **Write failures in quickComplete.** The comment at
  lib/hooks/useCheckIn.ts:87-88 says the call finds or creates a check-in and
  then upserts a completion. The answer does not say whether that write
  happened: `quickComplete` reports success even when these fail:
  - inserting the blank rows;
  - updating a row;
  - inserting a row.

  `success: false` comes only from a missing user
  (lib/hooks/useCheckIn.ts:97), a failed or refused check-in insert
  (lib/hooks/useCheckIn.ts:121) and an exception caught at
  lib/hooks/useCheckIn.ts:157-159. `CheckInLedger.QuickFails` states exactly
  when the model answers false. Exceptions are not modelled.
- **Repeating quickComplete.** An upsert suggests that repeating a call
  changes nothing. The code has that property only under conditions:
  - `CheckInLedger.QuickIdempotent` proves it when the task ends up with a
    single row in the session's check-in;
  - `CheckInLedger.QuickRepeatInsertsWhenTaskNotListed` exhibits a repeat that
    inserts a row: when `taskId` is not among `allTaskIds`, the first call
    creates the check-in without a row for the task, and the second call
    inserts one.

## Model

| member | source | states |
|---|---|---|
| StringOrder.LtTotal | lib/dates.ts:23 | two different strings are ordered one way or the other by JavaScript's `<` |
| StringOrder.LeIffNotLt | lib/dates.ts:43 | `a <= b` holds exactly when `b < a` does not |
| StringOrder.SortCorrect | lib/dates.ts:23 | the model of `[...xs].sort()` is sorted and a permutation of its input |
| StringOrder.SortDependsOnlyOnContents | lib/stats.ts:62 | two inputs with the same elements sort to the same sequence |
| StringOrder.SortSameElements | lib/stats.ts:62 | the sorted copy has the input's length and exactly its elements |
| StringOrder.Reverse | lib/stats.ts:62 | `.reverse()` keeps the length and puts element i at position n-1-i |
| Decimal.DigitsOrder | lib/dates.ts:28 | for digit strings of equal length, string order is numeric order, and equality is equality of values |
| Decimal.NatToString | lib/dates.ts:59 | `n.toString()` is a digit string without leading zeros whose value is n |
| Decimal.IntToString | lib/dates.ts:52 | `${n}` puts a minus sign before the digits of a negative n and none before the digits of n >= 0 |
| Decimal.IntToStringInjective | lib/dates.ts:52 | different integers render differently |
| Decimal.TwoDigitsRoundTrip | lib/dates.ts:56-59 | parsing two minute digits and padding the number back to two characters gives the same two digits |
| Dates.MinuteOfDay | lib/dates.ts:56 | a valid "HH:MM" denotes a minute of the day below 1440 |
| Dates.TimeOrder | lib/dates.ts:28 | on valid "HH:MM" strings, string order and equality are the order and equality of the minutes since midnight |
| Dates.DateOrder | lib/stats.ts:7-8 | on well-formed "yyyy-MM-dd" strings, string order is the order of (year, month, day) |
| Dates.DayNumberOrder | lib/dates.ts:100-105 | on valid dates, string order and equality are those of the calendar day number |
| Dates.CurrentSessionNumber | lib/dates.ts:18-33 | the 1-based number of the last sorted boundary the current time has reached; None exactly when the time is before every boundary; a boundary equal to the current time is reached |
| Dates.SessionWindowInMinutes | lib/dates.ts:25-31 | the session found lies in the window from its boundary up to the next one, the last running to the end of the day |
| Dates.NextSessionTime | lib/dates.ts:35-48 | the earliest configured time strictly after the current time; None exactly when every time is at or before it |
| Dates.SessionLabel | lib/dates.ts:50-53 | session 1 is "Morning", 2 "Midday" and 3 "Evening"; any other number n is "Session " followed by the digits of n |
| Dates.SessionLabelInjective | lib/dates.ts:50-53 | different session numbers get different labels |
| Dates.Hour12 | lib/dates.ts:58 | the hour shown lies in 1..12 and agrees with the 24-hour hour modulo 12, so 0 and 12 show as 12 |
| Dates.FormatTime12h | lib/dates.ts:55-60 | the rendering is the 12-hour hour, a colon, the input's two minute digits, a space and AM or PM (PM from hour 12) |
| Dates.FormatTime12hParts | lib/dates.ts:59 | the rendering reads back: the hour, the minute digits and the suffix sit at fixed places from the end |
| Dates.FormatTime12hInjective | lib/dates.ts:55-60 | different valid times render differently |
| Dates.IsDateInRange | lib/dates.ts:100-105 | true exactly when all three are valid "yyyy-MM-dd" dates and start <= date <= end |
| Dates.DaysUntilSummer | lib/dates.ts:62-67 | whole days from today to the summer date, never negative, 0 exactly when the summer date is not after today; None when a date is not a valid "yyyy-MM-dd" date |
| Dates.DaysSinceStart | lib/dates.ts:69-73 | whole days since the start date, never negative, 0 exactly when today is not after the start; None when a date is not a valid "yyyy-MM-dd" date |
| Stats.ActiveTasksForDate | lib/stats.ts:4-11 | a task is kept exactly when its creation day is on or before the date and it is not removed or was removed on a later day |
| Stats.IsActive | lib/stats.ts:6-9 | a task active on some day with a removal stamp was removed on a later day than it was created; a task removed on or before the date is not active |
| Stats.RemovalOrder | lib/stats.ts:7-8 | the day-string facts behind the activity test: created on or before a day that precedes the removal day means created before the removal day, and a removal day on or before the date is not after it |
| Stats.TaskMaxForDay | lib/stats.ts:14-16 | a daily task offers one completion a day; with at least one session, any task offers between 1 and the number of sessions |
| Stats.IsActiveByCalendar | lib/stats.ts:6-9 | on valid days, the string comparisons of activity are the calendar comparisons of day numbers |
| Stats.DayCheckInIds | lib/stats.ts:26-27 | exactly the ids of the check-ins made on the date |
| Stats.MarkCount | lib/stats.ts:28-30 | the count of completed rows of the task in those check-ins is positive exactly when such a row exists |
| Stats.DailyTaskCountsOnce | lib/stats.ts:14-16 | a daily task earns 1 on a day on which it was marked done in any session, else 0 |
| Stats.Percent | lib/stats.ts:48 | 0 when nothing is possible, else the integer nearest 100 × completed / possible, halves rounded up |
| Stats.PercentBounds | lib/stats.ts:48 | with 0 <= completed <= possible the percentage lies in 0..100, is 100 when everything was earned and 0 when nothing was |
| Stats.PercentPositive | lib/stats.ts:71 | a percentage is above 0 exactly when 200 × completed >= possible |
| Stats.CreditSumBounds | lib/stats.ts:35-42 | the capped credits of the active tasks lie between 0 and the sum of their caps |
| Stats.CreditSumFull | lib/stats.ts:41 | when every task reached its cap, the credits equal the possible total |
| Stats.CreditSumEmpty | lib/stats.ts:39-41 | when no task was marked done, the credits are 0 |
| Stats.PerfectDay | lib/stats.ts:35-48 | a day on which every active task reached its cap scores 100% |
| Stats.PossibleSumPositive | lib/stats.ts:36-37 | with at least one session a day, each active task offers at least one completion |
| Stats.IdleDay | lib/stats.ts:35-48 | a day without completed marks scores 0% |
| Stats.ComputeDayStats | lib/stats.ts:18-51 | the total is the sum of the active tasks' caps, the completed count the sum of their capped marks, the percentage their rounded ratio; completed <= total and the percentage lies in 0..100 |
| Stats.SingleDateRange | lib/stats.ts:93-100 | over one date, the range totals are that day's totals |
| Stats.RangeBounds | lib/stats.ts:93-100 | the range's completed total lies between 0 and its possible total |
| Stats.RangeSplit | lib/stats.ts:96-100 | the range totals of two stretches of dates add up |
| Stats.ComputeRangePercentage | lib/stats.ts:86-103 | the rounded ratio of the summed totals; in 0..100, 0 for no dates, and for one date that day's percentage |
| Stats.ActiveDates | lib/stats.ts:112-115 | a date is kept exactly when the task is active on it |
| Stats.TaskCompletedBounds | lib/stats.ts:120-127 | the task's earned total lies between 0 and its cap times the number of dates |
| Stats.SingleTaskDay | lib/stats.ts:25-42 | a one-task list offers and earns on a day what that task does when active, else nothing |
| Stats.TaskPossibleMatchesRange | lib/stats.ts:117-118 | the task's possible total equals the possible total of the range over a list of that task alone |
| Stats.TaskCompletedMatchesRange | lib/stats.ts:120-127 | the task's earned total equals the completed total of the range over a list of that task alone |
| Stats.ComputeTaskStats | lib/stats.ts:105-135 | over the dates the task is active, its cap per date, its capped marks per date and the rounded ratio; completed <= possible, percentage in 0..100, and 0 when it was never active |
| Stats.DescendingOrder | lib/stats.ts:62 | the latest-first copy holds the same dates and each is no earlier than the next |
| Stats.FlagsAt | lib/stats.ts:69-71 | the i-th flag of the scan says whether the i-th date scored above 0% |
| Stats.FirstRunAt | lib/stats.ts:75 | a run of scored days preceded only by unscored days is the first run |
| Stats.FirstRunNone | lib/stats.ts:80 | with no scored day the first run is 0 |
| Stats.LongestRunBound | lib/stats.ts:73 | every run of scored days is at most the longest run |
| Stats.LongestRunAchieved | lib/stats.ts:81 | the longest run is a run of scored days |
| Stats.FirstRunAtMostLongest | lib/stats.ts:80-83 | the current streak never exceeds the longest |
| Stats.ScanStep | lib/stats.ts:68-78 | one step of the scan keeps the scan invariant: the running run, the longest so far, and current either unset or the first run |
| Stats.ScanDay | lib/stats.ts:69-77 | a date's score moves the scan invariant one date on: scored extends the run and the longest, unscored settles current when unset and resets the run |
| Stats.ScanEnd | lib/stats.ts:80-81 | the final updates turn the invariant into the first run and the longest run |
| Stats.DayScored | lib/stats.ts:69-71 | the scan's test is true exactly when the day scored above 0% |
| Stats.ScanDays | lib/stats.ts:64-78 | the loop over the dates ends in the scan invariant over all of them |
| Stats.ComputeStreak | lib/stats.ts:53-84 | {0,0} for no dates; current is the first run of scored days latest first, longest the longest run, and current <= longest |
| Stats.StreakIgnoresInputOrder | lib/stats.ts:62 | two date lists with the same elements give the same scan, so the same streaks |
| CheckInLedger.Matching | lib/hooks/useCheckIn.ts:101-107 | exactly the check-ins of the user for that date and session |
| CheckInLedger.RowsFor | lib/hooks/useCheckIn.ts:136-141 | exactly the completion rows of that task in that check-in |
| CheckInLedger.SelectCheckIns | lib/hooks/useCheckIn.ts:14-19 | exactly the user's check-ins whose date is within the bounds given; an empty bound is no bound |
| CheckInLedger.SelectCompletions | lib/hooks/useCheckIn.ts:25-30 | exactly the completions of the check-ins found |
| CheckInLedger.Fetch | lib/hooks/useCheckIn.ts:10-36 | nothing without a user or when the check-in query fails; otherwise the user's check-ins in range and, unless none or the completion query fails, all and only their completions |
| CheckInLedger.AtMostOneMatch | lib/hooks/useCheckIn.ts:58-60 | under the uniqueness constraint a session has at most one check-in |
| CheckInLedger.Submit | lib/hooks/useCheckIn.ts:38-85 | submitCheckIn adds at most the one check-in of its session and only appends completions; success always adds that check-in |
| CheckInLedger.SubmitValid | lib/hooks/useCheckIn.ts:38-85 | submitCheckIn keeps the tables valid: unique sessions, fresh ids, every completion linked to a check-in |
| CheckInLedger.SubmitWithoutUser | lib/hooks/useCheckIn.ts:44 | without a user nothing is written and the error is "Not authenticated" |
| CheckInLedger.SubmitTwiceRefused | lib/hooks/useCheckIn.ts:58-60 | a second submission for the same session is refused and writes nothing |
| CheckInLedger.SubmitSuccess | lib/hooks/useCheckIn.ts:48-79 | success exactly when there is a user, no request fails and the session is free; it adds one check-in and one row per mark carrying the mark |
| CheckInLedger.SubmitFailures | lib/hooks/useCheckIn.ts:58-77 | a failed or refused check-in insert changes nothing; a failed completion insert reports failure and leaves the check-in |
| CheckInLedger.Quick | lib/hooks/useCheckIn.ts:89-162 | quickComplete adds at most the one check-in of its session, and deletes or moves no completion: a stored row can only change its flag |
| CheckInLedger.QuickWithoutUser | lib/hooks/useCheckIn.ts:97 | without a user the answer is false and nothing is written |
| CheckInLedger.QuickFails | lib/hooks/useCheckIn.ts:97-132 | false exactly when there is no user, or no single check-in was found and creating one failed or was refused; a false answer writes nothing |
| CheckInLedger.QuickIgnoresWriteFailure | lib/hooks/useCheckIn.ts:143-156 | on an existing check-in, a failed update or insert of the row writes nothing and still answers true |
| CheckInLedger.QuickIgnoresBlankRowsFailure | lib/hooks/useCheckIn.ts:131-132 | a failed insert of the blank rows leaves the new check-in without rows and still answers true |
| CheckInLedger.QuickValid | lib/hooks/useCheckIn.ts:89-162 | quickComplete keeps the tables valid |
| CheckInLedger.QuickReusesCheckIn | lib/hooks/useCheckIn.ts:101-112 | an existing check-in is reused: the check-in table is unchanged and the session keeps one check-in |
| CheckInLedger.QuickCreates | lib/hooks/useCheckIn.ts:114-132 | with no check-in, one is created with one row per task id in order, only `taskId`'s carrying `completed`; no row of an unlisted task |
| CheckInLedger.QuickOnExisting | lib/hooks/useCheckIn.ts:135-156 | on an existing check-in the task's single row gets the flag in place, otherwise exactly one row is inserted |
| CheckInLedger.QuickIdempotent | lib/hooks/useCheckIn.ts:89-162 | repeating the same call changes nothing when the task ends up with a single row in the check-in |
| CheckInLedger.QuickAgainAfterCreate | lib/hooks/useCheckIn.ts:114-132 | after the creating call, a repeat finds the check-in and the task's row already carrying the flag, and changes nothing |
| CheckInLedger.QuickAgainAfterUpdate | lib/hooks/useCheckIn.ts:143-148 | after an update, a repeat changes nothing |
| CheckInLedger.QuickAgainAfterInsert | lib/hooks/useCheckIn.ts:149-154 | after an insert, a repeat finds that row and changes nothing |
| CheckInLedger.QuickRepeatInsertsWhenTaskNotListed | lib/hooks/useCheckIn.ts:125-131 | a task missing from `allTaskIds` gets no row on creation, so a repeated call inserts one |
| CheckInLedger.SetCompletedTwice | lib/hooks/useCheckIn.ts:145-148 | updating a row's flag twice is updating it once |
| CheckInLedger.RowsForSetCompleted | lib/hooks/useCheckIn.ts:145-148 | updating a flag moves no row in or out of any check-in's selection for a task |
| CheckInLedger.Ledger.constructor | lib/hooks/useCheckIn.ts:7 | the tables start empty and valid |
| CheckInLedger.Ledger.FetchCheckIns | lib/hooks/useCheckIn.ts:10-36 | answers what `Fetch` gives for the current tables |
| CheckInLedger.Ledger.SubmitCheckIn | lib/hooks/useCheckIn.ts:38-85 | the new tables and the outcome are those of `Submit`; the tables stay valid |
| CheckInLedger.Ledger.QuickComplete | lib/hooks/useCheckIn.ts:89-162 | the new tables and the result are those of `Quick`; the tables stay valid |
| CheckInLedger.Ledger.MarkTask | lib/hooks/useCheckIn.ts:135-156 | the task's single row is updated, or one row inserted, unless the write fails |
| CheckInLedger.Ledger.CreateCheckIn | lib/hooks/useCheckIn.ts:114-131 | the check-in is inserted, then the blank rows unless that insert fails |
| TaskList.OfUser | lib/hooks/useTasks.ts:15-23 | exactly the user's rows, and only those without `removed_at` unless removed ones are asked for |
| TaskList.SortByOrderCorrect | lib/hooks/useTasks.ts:19 | the ordered copy is in ascending `sort_order` and a permutation of its input |
| TaskList.FetchedOrdered | lib/hooks/useTasks.ts:15-26 | the fetched list is ascending by `sort_order`, holds each kept row as often as the table does, and exactly the user's live rows (or all of them) |
| TaskList.FetchedExcludesRemoved | lib/hooks/useTasks.ts:21-23 | a removed task is listed only when removed tasks are asked for |
| TaskList.NextSortOrder | lib/hooks/useTasks.ts:39 | above every `sort_order` of the list; 0 for an empty list, and otherwise one past one of them |
| TaskList.NextSortOrderLeast | lib/hooks/useTasks.ts:39 | it is the least value above every `sort_order` (and not below 0 for an empty list) |
| TaskList.MaxSortOrder | lib/hooks/useTasks.ts:39 | the loop computing the maximum gives one less than the next `sort_order` |
| TaskList.AddedIsFetched | lib/hooks/useTasks.ts:41-50 | a task just inserted is listed by the following fetch |
| TaskList.MarkRemoved | lib/hooks/useTasks.ts:68-71 | no row is deleted: every row with the id gets `removed_at`, all others stay as they were |
| TaskList.RemovedNotFetched | lib/hooks/useTasks.ts:68-71 | after the update, a fetch of live tasks lists no task with that id |
| TaskList.Without | lib/hooks/useTasks.ts:74 | exactly the tasks of the list whose id differs |
| TaskList.WithoutAppend | lib/hooks/useTasks.ts:74 | the filter distributes over concatenation, so the remaining tasks keep their order |
| TaskList.WithoutAbsent | lib/hooks/useTasks.ts:74 | a list without that id is left unchanged |
| TaskList.DropsExactlyOne | lib/hooks/useTasks.ts:73-75 | when the id occurs once, the list loses exactly that entry and keeps the rest in order |
| TaskList.SetSortOrder | lib/hooks/useTasks.ts:88 | rows with the id get the new `sort_order`; all others stay |
| TaskList.Reorder | lib/hooks/useTasks.ts:87-91 | the updates change only `sort_order` and delete no row |
| TaskList.ReorderSets | lib/hooks/useTasks.ts:87-88 | with distinct ids, the rows of the i-th task get `sort_order` i when its update goes through |
| TaskList.ReorderKeeps | lib/hooks/useTasks.ts:87-88 | rows of tasks outside the new order, or whose update fails, are unchanged |
| TaskList.TaskStore.constructor | lib/hooks/useTasks.ts:8 | the table and the list start empty |
| TaskList.TaskStore.FetchTasks | lib/hooks/useTasks.ts:11-31 | without a user, [] and the list unchanged; otherwise the list becomes the ordered query answer, or [] when the query fails |
| TaskList.TaskStore.AddTask | lib/hooks/useTasks.ts:33-62 | None and no change without a user or on error; otherwise a new row with a fresh id and the next `sort_order`, appended to the table and to the end of the list |
| TaskList.TaskStore.RemoveTask | lib/hooks/useTasks.ts:64-81 | on success the row is stamped and the task dropped from the list; on error nothing changes |
| TaskList.TaskStore.ReorderTasks | lib/hooks/useTasks.ts:83-94 | the list becomes the given sequence and the table gets the index-order updates |
| PinEntry.Press | components/PinPad.tsx:16-21 | a PIN of at most 8 stays at most 8; the result extends the PIN by at most one character |
| PinEntry.Delete | components/PinPad.tsx:24 | the PIN minus its last character; empty stays empty |
| PinEntry.Submit | components/PinPad.tsx:27-31 | the PIN is passed on exactly when its length is at least `minLength` |
| PinEntry.TypeBounded | components/PinPad.tsx:17 | no sequence of keys takes the PIN past 8 characters |
| PinEntry.TypeDigits | components/PinPad.tsx:16-21 | typing digits appends them, cut off once the PIN has 8 |
| PinEntry.PressThenDelete | components/PinPad.tsx:16-24 | delete undoes an accepted digit |
| PinEntry.PressWhenFull | components/PinPad.tsx:17 | a full PIN ignores further digits |
| PinEntry.SubmitDefault | components/PinPad.tsx:13 | with the default `minLength`, exactly PINs of 4 or more characters are submitted |
| PinEntry.PinPad.constructor | components/PinPad.tsx:13-14 | the PIN starts empty; `minLength` is 4 unless one is given |
| PinEntry.PinPad.HandlePress | components/PinPad.tsx:16-21 | the PIN becomes `Press` of the old one and stays within 8 |
| PinEntry.PinPad.HandleDelete | components/PinPad.tsx:23-25 | the PIN becomes `Delete` of the old one |
| PinEntry.PinPad.HandleSubmit | components/PinPad.tsx:27-31 | answers `Submit` of the PIN and leaves the PIN as it is |

## Left out

- **Time zones and date-fns.** `getUserNow`, `getUserToday` and
  `getCurrentTimeHHMM` are replaced by parameters. So are `parseISO` and
  `format` when they turn a timestamp into a local day (`dayOf` in the
  statistics). The week, month and day-range helpers are not modelled: they
  are calendar-library calls.
- **Rounding.** `Math.round(c / p * 100)` is modelled as exact rounding with
  halves up. Floating point can differ at a half, for example 29/200.
- **Network.** The hosted database and its network are in-memory sequences.
  Every failed request is a flag standing for an error answer. Thrown
  exceptions are not modelled. In `quickComplete` an exception raised after
  the check-in insert reaches the `catch` at lib/hooks/useCheckIn.ts:157-159
  and gives `success: false`. The model has no such path: its
  `blankRowsFail`, `rowLookupFails` and `writeFails` flags stand for error
  answers, which the code ignores, and so they still answer true.
- **Concurrency.** All requests are modelled sequentially. A concurrent
  check-in creation that `quickComplete` loses simply fails; the code has no
  retry. `reorderTasks` issues its updates at once; they are applied in index
  order, so with a task listed twice the last index wins.
- **Row order.** The database returns rows in a store-defined order; this
  model uses insertion order. Rows with equal `sort_order` come back in table
  order, where the database leaves their order unspecified.
- **Dates in the database.** The database compares `date` columns as dates.
  This model compares them as strings, which is the same for well-formed
  "yyyy-MM-dd" values (`Dates.DateOrder`).
- **Bulk inserts.** A multi-row insert either succeeds or fails as one.
- **Strings.** Characters are Dafny `char`s rather than UTF-16 code units.
- **Not modelled:**
  - the `loading` flags and the React state plumbing;
  - rendering;
  - the `sessions: []` field of the day statistics;
  - the session status (upcoming, available, missed, completed) and any
    choice of target session: only the enum type exists in the code.
- **Ids.** Database-generated ids (uuids) are natural numbers from one counter.
  A new task's `frequency` is a store-wide column default.
- **Task frequency.** `lib/types.ts` declares no `frequency` field on a task,
  but `lib/stats.ts:15` reads one. The model's task record carries it.
- Dates.FormatTime12h: defined only for "HH:MM" input. Other inputs are not
  modelled. Depending on the input the source then renders a time (as for
  "7:30" or "07:30:00"), throws (as for "" or "0730", where `minutes` is
  undefined) or shows `NaN` (for non-numeric parts).
- Dates.IsDateInRange, Dates.DaysUntilSummer, Dates.DaysSinceStart: only
  "yyyy-MM-dd" strings are treated as dates. `parseISO` also accepts other
  ISO 8601 forms, such as "2025-01", "20250115" or "2025-01-15T10:00". The
  model treats those as invalid, so it answers false or None where the source
  gives a result.
- Dates.CurrentSessionNumber, Dates.NextSessionTime: take the current "HH:MM"
  as an argument instead of reading the clock in the user's time zone.
- Dates.DaysUntilSummer, Dates.DaysSinceStart: take today as an argument, and
  count days by calendar day numbers rather than date-fns millisecond
  arithmetic.
