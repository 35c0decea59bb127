# Planimbly scheduling core, modelled in Dafny

Planimbly builds a month's shift schedule for the employees of a set of
workplaces. This project models the part of it that prepares the data for the
constraint solver and reconciles the solver's answer. It proves properties of
that model.

- **Calendar helpers** (`Helpers`, on top of `Dates`). These cover
  `get_month_by_weeks`: the days of a month as `(day, weekday)` pairs, split
  into calendar weeks. Then comes the partition of the same days into billing
  weeks: seven-day blocks counted from day 1. Last are `flatten` and
  `get_letter_for_weekday`.
- **Shift and employee descriptors** (`ShiftTypes`, `Employees`).
  - A shift type's duration in minutes and hours.
  - Its closing days.
  - An employee's job time, worked out from the job-time code and corrected
    for absences.
  - An employee's term and indefinite assignments.
  - An employee's absent days.
- **Scheduling context** (`SchedulingContext`). This is everything
  `Context.__init__` derives:
  - the weekly cover demands and the weeks of the month;
  - the preference requests and the fixed absence assignments;
  - the illegal shift transitions and the overnight-shift rules;
  - the total work time and every employee's maximum work time;
  - the job-time and overtime multipliers.
- **Sequence constraint** (`SequenceConstraint`). These are
  `negated_bounded_span` and `add_soft_sequence_constraint`, which turn
  bounds on the length of runs of worked days into clauses of the solver's
  model.
- **Reconciler** (`Reconciler`). After solving, `update_working_hours`
  tallies each employee's hours. `delete_excess_shifts` then takes away the
  shifts assigned beyond demand. Each removed slot becomes the free shift,
  and the employee's tally is lowered by the shift's hours.

Python's built-ins are modelled where the code depends on them:

- `sorted` is a stable insertion sort over sort keys that are integer lists
  compared lexicographically (`Sorting`).
- A dictionary keeps each key once, in the order first inserted.
- `list.remove` drops the first equal element.
- `pop(0)` on an empty list raises `IndexError`.
- `next` over an empty generator raises `StopIteration`.
- `pref.active_days[i]` accepts negative indices.
- Dates follow the proleptic Gregorian calendar. `date.weekday()` is computed
  from the ordinal day number.

Errors the code raises are results (`Result`, `Option`). The exceptions are the
preconditions listed under "## Left out".
Some behaviours of the code, as the model keeps them:

- The total work time (scripts/context.py:470-493) multiplies each weekday's
  count by the durations of the shift types after the free one. Demand and
  closing days do not enter it.
- A billing week with two or more absent days loses eight hours for every
  absent day (scripts/context.py:510-512). A week with at most one absent day
  and more than three days loses eight hours (lines 513-514). The result is
  clipped at zero (line 515).
- The excesses with candidates of lower job times are ordered by their count
  vectors, largest first (scripts/run_algorithm.py:504).
- An excess that still has shifts left to delete reaches the `ValueError` at
  scripts/run_algorithm.py:558-559. Building its message reads `.name` from a
  `ShiftTypeInfo`, which has no such attribute, so the code raises
  `AttributeError` instead. Deleting too many raises `ValueError` at line 557.

## Model

| member | source | states |
|---|---|---|
| Dates.DaysInMonth | scripts/helpers.py:11-12 | a month has 28 to 31 days; it has 29 exactly for February of a leap year |
| Dates.Weekday | scripts/helpers.py:12 | the weekday of a valid date lies in 0..6 |
| Dates.NextDay | scripts/context.py:84 | the day after a valid date is a valid date |
| Dates.NextDayOrdinal | scripts/context.py:84 | the day after a date has the next ordinal number |
| Dates.DatesFrom | scripts/context.py:83-84 | start + timedelta(days=i) for i in range(k) yields k dates |
| Dates.DatesFromOrdinal | scripts/context.py:83-84 | the i-th of those dates is valid and lies i days after the start |
| Dates.RangeLength | scripts/context.py:83 | `(end - start).days + 1` clipped at zero; zero exactly when the end lies before the start |
| Dates.DateRangeSpan | scripts/context.py:82-85 | every date of a range is valid and lies between start and end, in order |
| Dates.DaysOfRange | scripts/context.py:83-85 | the loop over a date range yields the range's dates, as many as its length |
| Dates.DaysInMonthOf | scripts/context.py:216-218 | the day numbers kept are exactly those of the dates that fall in the given month and year; every date is kept exactly when every date falls in it |
| Dates.RangesDaysLength | scripts/context.py:82-85 | the days of several ranges number the sum of the ranges' lengths |
| Dates.RangesDaysWithin | scripts/context.py:82-85 | every day produced is valid and lies within one of the ranges |
| Helpers.FlattenAppend | scripts/helpers.py:17-18 | flattening distributes over concatenation |
| Helpers.FlattenLength | scripts/helpers.py:17-18 | the flattened list is as long as the sublists together |
| Helpers.FlattenAt | scripts/helpers.py:17-18 | element j of sublist k sits in the flattened list after all earlier sublists |
| Helpers.FlattenChunk | scripts/tests/test_helper.py:20-25 | cutting days into seven-day blocks and flattening them gives the days back |
| Helpers.ChunkCount | scripts/tests/test_helper.py:20-25 | the blocks are empty exactly when the days are; their number is the ceiling of length / 7 |
| Helpers.ChunkAt | scripts/tests/test_helper.py:20-25 | block i holds the days from 7i up to 7i + 7, or to the end |
| Helpers.GetLetterForWeekday | scripts/helpers.py:20-33 | a letter exactly for 0..6 and None otherwise; the letter is the initial of the weekday's English name |
| Helpers.PaddedMonth | scripts/helpers.py:11-12 | the padded calendar grid covers the days and leading padding and is a whole number of weeks, less than one week longer than needed |
| Helpers.FirstWeekday | scripts/helpers.py:11-12 | the weekday of day 1 lies in 0..6 |
| Helpers.DropPaddedSlice | scripts/helpers.py:13 | removing the zero-day padding from a slice of the grid leaves the matching slice of the month's days |
| Helpers.WeekAt | scripts/helpers.py:12-13 | week k, padding removed, is the slice of the month's days falling in grid row k |
| Helpers.FlattenWeeksFrom | scripts/helpers.py:11-13 | flattening the weeks from k on gives the days from grid row k on |
| Helpers.MonthByWeeksFlatten | scripts/helpers.py:3-14 | the weeks of a month, flattened, are its days in order, with day 1 on the month's first weekday |
| Helpers.MonthDaysInOrder | scripts/helpers.py:3-14 | the flattened weeks are days 1..N of the month in order, each with a weekday in 0..6 |
| Helpers.MonthDaysFacts | scripts/helpers.py:8-9 | day i + 1 is at index i, day 1 has the first weekday, and each next day has the next weekday mod 7 |
| Helpers.WeeksShape | scripts/helpers.py:6 | each week has one to seven days; every week but the first starts on Monday and every week but the last ends on Sunday |
| Helpers.WeekShape | scripts/helpers.py:6 | the same, for the weeks of a given month |
| Helpers.BillingWeeksShape | scripts/tests/test_helper.py:20-25 | the billing weeks re-join into the month's days; every block but the last has seven days, the last one to seven, and block i starts at day 7i + 1 |
| Helpers.February2024Weeks | scripts/tests/test_helper.py:5-11 | the weeks of February 2024 are exactly the expected list |
| Helpers.February2024BillingWeeks | scripts/tests/test_helper.py:20-25 | the billing weeks of February 2024 are exactly the expected list |
| Sorting.LexLessIrreflexive | scripts/run_algorithm.py:504 | no list compares below itself |
| Sorting.LexLessTransitive | scripts/run_algorithm.py:504 | list comparison is transitive |
| Sorting.LexLessTotal | scripts/run_algorithm.py:504 | any two lists are equal or one compares below the other |
| Sorting.Insert | scripts/run_algorithm.py:512 | inserting adds exactly the one element |
| Sorting.Sort | scripts/context.py:374 | `sorted` returns a permutation of its input |
| Sorting.InsertSorted | scripts/run_algorithm.py:512 | inserting into a sorted list keeps it sorted |
| Sorting.SortSorted | scripts/run_algorithm.py:504 | the result of `sorted` is ordered by its key |
| Sorting.SortStable | scripts/run_algorithm.py:512 | elements with equal keys keep their relative order |
| Sorting.SortThenBy | scripts/run_algorithm.py:512 | sorting a list already sorted by an inner key, by an outer key, orders it by the outer key and then by the inner key |
| Sorting.SortTwice | scripts/run_algorithm.py:512 | `sorted(sorted(xs, key=inner), key=outer)` is ordered by outer, ties by inner |
| ShiftTypes.DurationMinutes | scripts/context.py:51 | whole minutes from start to end, wrapping past midnight: below 1440, with the seconds of the gap mod one day within that minute |
| ShiftTypes.NewShiftTypeInfo | scripts/context.py:48-51 | the info keeps the shift type and index and holds its duration in minutes |
| ShiftTypes.DurationHours | scripts/context.py:63-69 | the hours are the minutes divided by 60, rounded down |
| ShiftTypes.DurationWholeMinutes | scripts/context.py:51 | for times on whole minutes, the duration is the difference of minutes of the day mod 1440 |
| ShiftTypes.DurationOfEqualTimes | scripts/context.py:51 | a shift ending when it starts lasts 0 minutes |
| ShiftTypes.EightHourShifts | apps/schedules/tests.py:54-59 | a 6:00 to 14:00 shift (and the other fixture shifts) lasts 480 minutes, that is 8 hours |
| ShiftTypes.ClosingRanges | scripts/context.py:82-83 | one valid date range per closing |
| ShiftTypes.PrepareClosingDays | scripts/context.py:71-90 | the closing days are every day of every closing, in order; each lies within one of the closings |
| Employees.JobTimeIsFraction | scripts/context.py:166-178 | the job time is the full job time times the code's fraction (1, 1/2, 1/4 or 3/4; any other code counts as 1), rounded down; for a non-negative full job time the codes are ordered 1/4 ≤ 1/2 ≤ 3/4 ≤ 1 |
| Employees.HalfTimeOf168 | apps/schedules/tests.py:67-69 | the code '1/2' gives 84 of 168 hours and the code '1' does not |
| Employees.TermDays | scripts/context.py:186-190 | a term assignment gives one entry per day of its range, with its shift type and flag and a valid date between start and end |
| Employees.AssignmentsPartition | scripts/context.py:180-201 | every indefinite assignment lands in exactly one of the negative and positive lists; the term list has one entry per day of each term |
| Employees.TermAssignmentsFrom | scripts/context.py:185-192 | every term entry comes from a term assignment with the same shift type and flag, and its date is a valid date between that assignment's start and end, both included |
| Employees.PrepareAssignments | scripts/context.py:180-201 | the loop builds the term, negative and positive lists in order |
| Employees.AbsenceRanges | scripts/context.py:207-211 | one valid date range per absence |
| Employees.PrepareAbsentDays | scripts/context.py:203-214 | the absent days are every day of every absence, in order, and the absent time is the sum of the absences' hours |
| Employees.AbsenceDaysFacts | scripts/context.py:203-214 | every absent day is valid and lies within one of the absences |
| Employees.EmployeeInfo.constructor | scripts/context.py:142-164 | the new info holds the prepared assignments and absent days, and a job time from the code less the absent hours |
| SchedulingContext.ShiftTypeInfos | scripts/context.py:350 | one info per shift type, in order, with the shift type's own id |
| SchedulingContext.WeeklyCoverDemands | scripts/context.py:351 | seven rows; each holds the demands of the shift types after the free one, in order |
| SchedulingContext.TransitionGapInMinutes | scripts/context.py:410-417 | the rest between shift a ending and shift b starting the next day is 1440 minus a's start, minus a's duration, plus b's start, all in minutes |
| SchedulingContext.TransitionsFromMember | scripts/context.py:412-421 | row i holds a transition to j exactly for the j after the free shift, other than i, with a gap under 11 hours |
| SchedulingContext.TransitionsUpToMember | scripts/context.py:409-421 | the rows before k hold exactly the illegal pairs whose first shift comes before k |
| SchedulingContext.TransitionsMember | scripts/context.py:394-425 | the transitions are exactly the illegal pairs of distinct non-free shifts, each with penalty 0 |
| SchedulingContext.FindIllegalTransitions | scripts/context.py:394-425 | the double loop returns exactly the illegal pairs, row by row |
| SchedulingContext.IllegalFrom | scripts/context.py:412-421 | the inner loop returns row i |
| SchedulingContext.FreeShiftNotInTransitions | scripts/context.py:409-421 | the free shift never takes part in an illegal transition |
| SchedulingContext.OvernightRunsPastMidnight | scripts/context.py:444-447 | a shift whose end hour comes before its start hour runs past midnight |
| SchedulingContext.OvernightIdsMember | scripts/context.py:443-453 | the overnight ids are exactly the ids of shifts whose end hour comes before their start hour |
| SchedulingContext.FindOvernightShifts | scripts/context.py:427-457 | one sequence rule (1, 2, 20, 3, 4, 5) and one weekly rule (0, 1, 2, 3, 4, 0) per overnight shift, in order |
| SchedulingContext.CountWeekdaysAll | scripts/context.py:482-483 | when all weekdays lie in 0..6, the seven weekday counts add up to the number of days |
| SchedulingContext.WeekdayMinutes | scripts/context.py:486-489 | one weekday contributes its count times the durations of the shifts after the free one |
| SchedulingContext.CalculateTotalWorkTime | scripts/context.py:470-493 | the total work time is the day count times the summed durations, divided by 60 and rounded down |
| SchedulingContext.TotalWorkTimeOfMonth | scripts/context.py:470-493 | over a month's billing weeks that day count is the number of days in the month |
| SchedulingContext.WeekAbsences | scripts/context.py:509 | the number of absent days in a week is at most the week's length |
| SchedulingContext.WeekAllowanceCases | scripts/context.py:508-515 | a week allows 8 h per day: less 8 h per absent day when two or more days are absent, else less one rest day when it has more than three days; never below 0 |
| SchedulingContext.WeekAllowanceAtMost | scripts/context.py:510-515 | absences never raise a week's allowance |
| SchedulingContext.AllowanceAtMost | scripts/context.py:508-515 | absences never raise the month's allowance |
| SchedulingContext.AllowanceOfFullWeeks | scripts/context.py:508-515 | without absences, each full week allows 48 hours |
| SchedulingContext.AllowanceOfBlocks | scripts/context.py:508-515 | without absences, billing blocks of 28 to 31 days allow 8 h × (days − 4) |
| SchedulingContext.MonthAllowanceWithoutAbsences | scripts/context.py:508-515 | without absences, a month allows 8 h × (days in month − 4) |
| SchedulingContext.TallyStep | scripts/context.py:507-517 | one more employee adds one allowance to each of its occurrences and its new value to the running total |
| SchedulingContext.AddWeeklyAllowances | scripts/context.py:508-515 | an employee's maximum work time grows by the allowance of the billing weeks |
| SchedulingContext.CalculateMaxWorkTime | scripts/context.py:496-521 | each employee gains its allowance once per time it is listed; the result is the running total of the updated values |
| SchedulingContext.AddAllowances | scripts/context.py:507-517 | the loop over the employees keeps the same two facts for the employees seen so far |
| SchedulingContext.DistinctTotals | scripts/context.py:507-521 | with distinct employees starting at 0, each is listed once and the total is the sum of their allowances |
| SchedulingContext.CharAt | scripts/context.py:538 | a character exactly for indices −len..len−1 (IndexError otherwise), and the i-th one for i ≥ 0 |
| SchedulingContext.ShiftIdOf | scripts/context.py:539 | an id exactly when some shift type matches (StopIteration otherwise), and it is the preference's shift type's id |
| SchedulingContext.PrepareRequests | scripts/context.py:523-546 | the nested loops return the requests of every employee, preference and day, or the first exception |
| SchedulingContext.EmployeeRequestsLoop | scripts/context.py:535-539 | the loop over one employee's preferences |
| SchedulingContext.PreferenceRequestsLoop | scripts/context.py:536-539 | the loop over the days for one preference |
| SchedulingContext.RequestsSuccess | scripts/context.py:534-539 | no exception is raised exactly when, for every employee, preference and day, the weekday indexes the active-days string and, where it reads '1', the preferred shift type is listed |
| SchedulingContext.RequestsMember | scripts/context.py:534-539 | a request (pk, shift, day, −1) is made exactly for a preference of that employee whose mask has '1' at the day's weekday |
| SchedulingContext.AbsenceFixes | scripts/context.py:560-561 | one free-shift fix per absent day of the month |
| SchedulingContext.PrepareFixedAssignments | scripts/context.py:548-565 | the loop returns the fixes of every employee, in order |
| SchedulingContext.FixedAssignmentsMember | scripts/context.py:559-561 | a fix (pk, 0, day) is made exactly for a listed employee absent on that day of the month |
| SchedulingContext.FixedAssignmentsLength | scripts/context.py:559-561 | there are no more fixes than absent dates, and exactly as many when every absent date falls in the month |
| SchedulingContext.FullTimeEmployees | scripts/context.py:567-575 | every employee kept has the full job time, and every listed employee with it is kept |
| SchedulingContext.FullTimeEmployeesCount | scripts/context.py:575 | each full-time employee is kept as often as it is listed, nobody else at all |
| SchedulingContext.FullTimeEmployeesAppend | scripts/context.py:575 | the selection from two joined lists is the selection from each, joined: list order is kept |
| SchedulingContext.FullTimeEmployeesSingle | scripts/context.py:575 | a single employee is kept exactly when its job time is the full job time |
| SchedulingContext.FullTimeEmployeesAllOrNone | scripts/context.py:378-381 | the selection is empty exactly when nobody is full-time, and as long as the list exactly when everybody is |
| SchedulingContext.FullTimeJobTime | scripts/context.py:383-384 | the full-timers' job times add up to their number times the full job time |
| SchedulingContext.ShiftInfoById | scripts/context.py:459-468 | the first info with the id, and none exactly when no info has it |
| SchedulingContext.Multipliers | scripts/context.py:376-384 | ZeroDivisionError exactly when a divisor is 0; otherwise total work / total job time, and an overtime multiplier that is unset, 1, or the ratio left after the full-timers |
| SchedulingContext.PrepareContext | scripts/context.py:349-370 | fails exactly when preparing the requests does; otherwise each derived part is what its own operation computes |
| SchedulingContext.NewContext | scripts/context.py:338-392 | the whole construction: the prepared parts, the maximum work times, the sorted employees, the multipliers and the overtime flag and amount, or the error raised |
| SequenceConstraint.NegatedBoundedSpan | scripts/run_algorithm.py:35-61 | the span's literals negated, bordered by the neighbouring literals where they exist |
| SequenceConstraint.SpanFalse | scripts/run_algorithm.py:47-50 | the clause is false exactly when the span is a run of trues bounded by falses or by the ends |
| SequenceConstraint.Starts | scripts/run_algorithm.py:98 | a length has n − length + 1 start positions, or none when it exceeds n |
| SequenceConstraint.PairsMember | scripts/run_algorithm.py:97-98 | the loops visit exactly the (length, start) pairs with lo ≤ length < hi that fit |
| SequenceConstraint.SpanClauses | scripts/run_algorithm.py:99 | one clause per pair |
| SequenceConstraint.PenaltyClauses | scripts/run_algorithm.py:105-109 | one clause per pair |
| SequenceConstraint.LongClauses | scripts/run_algorithm.py:129-131 | len(works) − hard_max windows, or none |
| SequenceConstraint.CpModel.constructor | scripts/run_algorithm.py:64 | a model with no clauses and the given number of variables |
| SequenceConstraint.CpModel.AddBoolOr | scripts/run_algorithm.py:99 | appends the clause |
| SequenceConstraint.CpModel.NewBoolVar | scripts/run_algorithm.py:107 | returns a fresh variable |
| SequenceConstraint.ForbidShortRuns | scripts/run_algorithm.py:96-99 | adds one span clause per (length, start) with length below hard_min |
| SequenceConstraint.PenalizeLength | scripts/run_algorithm.py:104-113 | adds, for each start, a span clause with a fresh literal and its coefficient |
| SequenceConstraint.PenalizeRuns | scripts/run_algorithm.py:103-113 | the same, for every length in lo..hi − 1 |
| SequenceConstraint.ForbidLongRuns | scripts/run_algorithm.py:128-131 | adds one all-negated window of hard_max + 1 literals per start |
| SequenceConstraint.PenalizeIfCostly | scripts/run_algorithm.py:101-126 | adds penalties only when the cost is positive |
| SequenceConstraint.AddSoftSequenceConstraint | scripts/run_algorithm.py:64-132 | the clauses added, one fresh literal per penalised span, none of them a work variable, and one coefficient per literal |
| SequenceConstraint.ShortClausesIff | scripts/run_algorithm.py:96-99 | the short-run clauses hold exactly when no maximal run is shorter than hard_min |
| SequenceConstraint.WindowSatisfied | scripts/run_algorithm.py:130-131 | a window clause holds exactly when some day in it is not worked |
| SequenceConstraint.LongClausesIff | scripts/run_algorithm.py:128-131 | the long-run clauses hold exactly when no maximal run is longer than hard_max |
| SequenceConstraint.HardClausesIff | scripts/run_algorithm.py:68-69 | the hard clauses hold exactly when every maximal run is between hard_min and hard_max long |
| SequenceConstraint.PenaltyClauseIff | scripts/run_algorithm.py:105-109 | a penalty clause holds exactly when its literal is set or its span is not an isolated run |
| SequenceConstraint.PenaltyClausesIff | scripts/run_algorithm.py:101-126 | the penalty clauses hold exactly when every isolated run of a penalised length sets its literal |
| SequenceConstraint.PenalizedClausesIff | scripts/run_algorithm.py:101-126 | the same for a cost-guarded penalty loop; with a cost of zero or less nothing is required |
| SequenceConstraint.SequenceClausesIff | scripts/run_algorithm.py:64-132 | everything the constraint adds holds exactly when every maximal run is between hard_min and hard_max long and every isolated run of a penalised length, under or over, sets its own literal |
| SequenceConstraint.CostsOfPairs | scripts/run_algorithm.py:113 | every penalised span's coefficient is positive |
| SequenceConstraint.CoefficientsValues | scripts/run_algorithm.py:101-126 | one coefficient per literal: min_cost·(soft_min − length), then max_cost·(length − soft_max), each positive |
| Reconciler.FilterMember | scripts/run_algorithm.py:520 | an element is kept by the filter exactly when it is in the list and passes the test |
| Reconciler.FilterFacts | scripts/run_algorithm.py:520 | the same, for every element |
| Reconciler.RejectFacts | scripts/run_algorithm.py:502 | an element survives the negated filter exactly when it is in the list and fails the test |
| Reconciler.FilterPartition | scripts/run_algorithm.py:501-502 | a filter and its negation share out the list |
| Reconciler.RemoveFromFilter | scripts/run_algorithm.py:522-525 | removing one filtered element equals filtering with it left out |
| Reconciler.CreditCount | scripts/run_algorithm.py:484-488 | crediting h for each listed occurrence adds count × h |
| Reconciler.Solution.constructor | scripts/run_algorithm.py:478-479 | the solution holds the solver's assignment and the hours tally |
| Reconciler.Solution.UpdateWorkingHours | scripts/run_algorithm.py:481-488 | the solution is unchanged and each tally grows by the hours of the employee's non-free shifts over the month, once per listing |
| Reconciler.Solution.AddDay | scripts/run_algorithm.py:483-488 | the same for one day |
| Reconciler.Solution.AddShift | scripts/run_algorithm.py:484-488 | the same for one shift on one day |
| Reconciler.DistinctJobTimesFacts | scripts/run_algorithm.py:495 | the set of job times holds exactly the employees' job times, each once |
| Reconciler.JobTimesFacts | scripts/run_algorithm.py:495 | the sorted job times are exactly the employees' job times, strictly decreasing |
| Reconciler.JobTimesEmpty | scripts/run_algorithm.py:495 | there are job times exactly when there are employees |
| Reconciler.Profile | scripts/run_algorithm.py:499 | one count per job time |
| Reconciler.NegateLexLess | scripts/run_algorithm.py:504 | sorting by the negated vector is sorting in reverse |
| Reconciler.KeysFacts | scripts/run_algorithm.py:497-499 | the dictionary keys are exactly the reported excesses, each once |
| Reconciler.CandidatesFromWorkers | scripts/run_algorithm.py:498 | the candidates are exactly the employees the solver put on the shift |
| Reconciler.FullTimersOnlyIff | scripts/run_algorithm.py:501 | `sum(v) == v[0]` exactly when nobody holds a job time other than the first |
| Reconciler.FullTimerIff | scripts/run_algorithm.py:501-502 | `sum(v) == v[0]` exactly when every candidate holds the highest job time |
| Reconciler.EntryFullTimerIff | scripts/run_algorithm.py:501 | the same, for the candidates of one excess |
| Reconciler.OrderFacts | scripts/run_algorithm.py:493-506 | IndexError exactly when there are excesses but no employees; otherwise every excess once |
| Reconciler.ArrangePermutes | scripts/run_algorithm.py:506 | merging the two dictionaries only reorders the keys |
| Reconciler.FrontFacts | scripts/run_algorithm.py:501 | the excesses taken first are exactly those whose candidates all hold the highest job time |
| Reconciler.BackFacts | scripts/run_algorithm.py:502-504 | the others come after, in descending order of count vector |
| Reconciler.RestPair | scripts/run_algorithm.py:504 | of two sorted excesses, the earlier's count vector is not the smaller |
| Reconciler.ProcessStops | scripts/run_algorithm.py:510-559 | once an excess raises, no later excess is taken |
| Reconciler.RankedFacts | scripts/run_algorithm.py:511-512 | the ranked candidates are employees, each once |
| Reconciler.RankedOrder | scripts/run_algorithm.py:512 | the ranking orders candidates by surplus, ties by larger job time |
| Reconciler.KeysRankBefore | scripts/run_algorithm.py:512 | two candidates in sort-key order rank in that order |
| Reconciler.DropFullTimers | scripts/run_algorithm.py:522-525 | removing every full timer leaves the candidates within their job time, in order |
| Reconciler.PendingAll | scripts/run_algorithm.py:522-525 | before any removal, every candidate is still present |
| Reconciler.DropOne | scripts/run_algorithm.py:524-525 | removing one full timer keeps the rest of the ranking in order |
| Reconciler.SplitRanked | scripts/run_algorithm.py:520-525 | steps 1 and 2 share out the candidates, and step 2 has some whenever there are candidates |
| Reconciler.StepOneFacts | scripts/run_algorithm.py:520-535 | step 1 deletes exactly the candidates above their job time, unless all of them are |
| Reconciler.SettleSucceeds | scripts/run_algorithm.py:540-559 | no exception exactly when the count is one less than the candidates; otherwise IndexError, ValueError or AttributeError as appropriate |
| Reconciler.UnassignAllWork | scripts/run_algorithm.py:532-533 | the deletions take the shift from exactly the listed employees and give each the free shift |
| Reconciler.UnassignAllOthers | scripts/run_algorithm.py:551-552 | every other slot keeps its value |
| Reconciler.UnassignAllTime | scripts/run_algorithm.py:535 | each deletion lowers the employee's tally by the shift's hours; no other tally changes |
| Reconciler.KeepOnlyHead | scripts/run_algorithm.py:543-554 | deleting all but the head of step 2's list leaves the shift with the head alone |
| Reconciler.SettleTables | scripts/run_algorithm.py:520-554 | a settled excess leaves the tables as step 1's and then step 2's deletions make them |
| Reconciler.RankedShare | scripts/run_algorithm.py:511-525 | the ranking holds exactly the employees on the shift, shared out between the two steps |
| Reconciler.SettleKeepsOne | scripts/run_algorithm.py:543-554 | a settled excess leaves exactly one employee on the shift: the head of step 2's list |
| Reconciler.KeeperFacts | scripts/run_algorithm.py:512-543 | the employee kept ranks first among those left and is within their job time whenever some candidate is |
| Reconciler.Solution.DeleteShifts | scripts/run_algorithm.py:547-554 | deletes the listed employees' shifts, or raises StopIteration for an unknown shift before changing anything |
| Reconciler.Solution.DeleteOverTargets | scripts/run_algorithm.py:518-535 | step 1 in place |
| Reconciler.Solution.KeepFirst | scripts/run_algorithm.py:540-559 | step 2 and the final check in place |
| Reconciler.Solution.SettleExcess | scripts/run_algorithm.py:510-559 | one excess settled in place, as specified |
| Reconciler.Solution.PrepareOrder | scripts/run_algorithm.py:494-506 | the order the excesses are taken in, or IndexError |
| Reconciler.Solution.ProcessOrder | scripts/run_algorithm.py:510-559 | the excesses settled in turn, stopping at the first exception |
| Reconciler.Solution.DeleteExcessShifts | scripts/run_algorithm.py:493-559 | the whole of `delete_excess_shifts`: tables and exception as the specification function gives them |

## Left out

- The constraint solver. The OR-Tools model is reduced to `CpModel`, a list
  of clauses plus a counter of fresh variables. The solver's answer is a
  given map `work` from (employee, shift, day) to a Boolean. `solve`,
  `BooleanValue` as a solver call, and the rest of `main_algorithm` are not
  part of this model.
- AddSoftSequenceConstraint: the `prefix` argument and the literal names
  built from it are left out, because names do not change the clauses.
- Floating point. `total_work_time / total_job_time` and the overtime ratio
  are exact fractions (`Ratio`), with `ZeroDivisionError` where Python would
  raise it. Float rounding is not modelled.
- Logging, `print` and the warnings the code only logs.
- Reconciler: the list of excesses is an input. The code that gathers it from
  the solver's objective terms is not part of this model.
- Building the `works` lists the run-length constraints are posted over
  (scripts/run_algorithm.py:344-352) is not part of this model. That
  includes `del works[ab]` for the absent days at lines 349-352, which
  removes literals from the local list during model building and does not
  touch the solution.
- Reconciler.Solution.DeleteExcessShifts: a `KeyError` from a slot missing
  from `work` or a tally missing from `work_time` is excluded by its
  preconditions, because the solver creates every slot and every tally
  starts at 0.
- Reconciler.Solution.DeleteExcessShifts: employees are identified by
  primary key, so no two listed employees may share one (`UniquePks`).
- SchedulingContext.CalculateTotalWorkTime: the check at context.py:487
  compares a `ShiftTypeInfo` with the string "-" and is never true, so it
  is left out. The free shift is skipped anyway, because the loop starts
  after it.
- Helpers.BillingWeeksShape: `get_month_by_billing_weeks` is imported but is
  not defined in scripts/helpers.py. It is modelled from its tests as the
  month's days cut into seven-day blocks from day 1.
- Dates: calendar arithmetic uses ordinal day numbers. Python's year limit of
  9999 is not enforced.
- Class-level default values of `ShiftTypeInfo`, `EmployeeInfo` and
  `Context`, and the `get_*` accessors that only return a field, are not
  modelled separately.
- EmployeeInfo equality: `EmployeeInfo` objects use Python's default
  equality, which is identity. The model's class references compare the
  same way.
- The Django models are flattened into the fields the core reads: a shift
  type's times, id and demand, and an employee's pk and job-time code (in
  `Employees`). The reconciler's `Worker` carries hours instead; see the
  `Reconciler.Worker` line.
- Reconciler.Worker: `jobTime` is the employee's job time in hours, the
  number run_algorithm.py treats as one (`== 160` at line 381, `%3i` at
  lines 389-390, `%d` at line 516).
  In the repository, `ei.get().job_time` at lines 495, 499, 512, 516 and
  520 reads `Employee.job_time`, a code string such as '1' or '3/4'. As
  written, line 512 (`work_time[pk] - job_time`) would then raise
  `TypeError` whenever an excess has a candidate, and line 495 would sort
  the codes as strings. The model uses the hours instead.
- Month and year: `NewContext`, `PrepareContext`, `GetMonthByWeeks` and
  the `Dates` functions require 1 <= month <= 12 and year >= 1. For a month
  outside 1..12 Python's calendar raises `IllegalMonthError`; that error path
  is not modelled. Python accepts a year below 1 by remapping it for the
  weekday computation; the model does not cover such years.
- Reconciler.Solution.UpdateWorkingHours: a `KeyError` from a slot missing
  from `work` or a tally missing from `work_time` is excluded by its
  preconditions, for the same reason as for `DeleteExcessShifts`.
- Idempotence of the reconciler is not modelled, because the list of
  excesses is an input rather than something recomputed from the schedule.
