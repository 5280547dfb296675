# Habit tracker core and 2-D liftover core, in Dafny

This project models two small cores.

**The habit tracker.** The model covers the computations behind the habit tracking app:
- the calendar-day helpers and the streak calculator in `src/utils/dateUtils.ts`;
- the service layer in `src/services/habitService.ts`, which derives streaks and counts, builds the 365-day contribution grid, computes statistics, and creates, toggles and updates habits;
- the record store in `src/services/storage.ts`, which holds two lists: the habits and the per-day completion toggle records.

**The liftover.** The coordinate liftover in `liftover_2d/chain_mapper.py` maps a genomic position through the best-scoring chain block that contains it. It also lifts pairs of positions and tables of pairs.

Modules:
- `Wrappers`: Option and Result.
- `Types`: the records of `src/types/index.ts`.
- `Calendar`:
  - the Gregorian calendar;
  - the `YYYY-MM-DD` text of a day;
  - the proof that comparing those strings compares the days.
- `DateUtils`: the day helpers, week numbers, and the single-habit contribution series.
- `Streak`: `calculateStreak`.
- `Storage`: the store, a class `RecordStore` with two sequence fields.
- `HabitService`: every service operation, as a method over a `RecordStore` with a pure function that specifies it.
- `ChainMapping`:
  - chain tables;
  - the mock table built by loops;
  - `lift_coordinate`, `lift_coordinate_pair` and `lift_dataframe`;
  - the class `ChainMapper`.

Conventions:
- A calendar date is its day number, counted from 1970-01-01 = day 0.
- The current day (`getToday()` / `new Date()`) is the parameter `today`. The generated habit id and the creation timestamp are parameters too.
- `Calendar.FormatDateOrder` proves that for years 0000 to 9999 the source's string sort is the chronological sort. Within those years, sorting day numbers gives the order the source's string sort gives.
- `Math.round` of a percentage is round-half-up of the exact ratio, `(200 * num + den) / (2 * den)`. It can differ from the source's double-precision result (see `HabitService.GetAppStats` under "## Left out").
- A window of the last n days (computed in the source as `new Date(d) >= now − n days`) holds exactly the days d with d > today − n.
  - Reason: `now − n days` lies after midnight of day today − n.
- The service's thrown `Error('Habit not found')` is `Err(HabitNotFound)`.

Behaviour of the code that the model keeps:
- `calculateStreak` does not remove duplicate days.
  - A day listed twice is a gap of 0, which ends the walk of the current streak (`Streak.DuplicateScenario`).
- `getDaysBetween` takes an absolute difference, so a latest completion dated tomorrow also keeps the streak active (`Streak.TomorrowScenario`).
  - The same absolute difference gives up to seven future days the "n days ago" label (`DateUtils.RelativeDateString`).
- `totalCompletions` is the number of completed records, not the number of distinct dates.
  - The two agree when the store keeps at most one record per (habit, day). `toggleHabitCompletion` preserves that invariant (`Storage.TogglePreservesUnique`, `HabitService.RefreshCountsDistinctDays`).
- `getHabitStats.longestStreak` is the freshly computed value. It is not combined with the stored longest streak.
- `toggleHabitCompletion` writes the completion record before it looks for the habit. An unknown id therefore leaves a new record behind and still fails with "Habit not found".
- `updateHabit` lets the update change `id`. The store then replaces the first habit carrying the new id, or nothing at all if there is none, while the call still returns the merged habit.
  - `HabitService.UpdateKeepingIdReplacesInPlace` states the ordinary case.

## Model

| member | source | states |
|---|---|---|
| Calendar.YearOf | src/utils/dateUtils.ts:122 | the year whose first day is at or before the day and whose successor's first day is after it |
| Calendar.YearOfUnique | src/utils/dateUtils.ts:122 | a day lies in exactly one year |
| Calendar.CivilOf | src/utils/dateUtils.ts:3-5 | every day number has a valid calendar date that maps back to it |
| Calendar.CivilOfDayNumber | src/utils/dateUtils.ts:3-5 | date → day number → date is the identity on valid dates |
| Calendar.DayNumberOrder | src/utils/dateUtils.ts:3-5 | calendar order (year, month, day) is the order of day numbers, both directions |
| Calendar.FormatDateOrder | src/utils/dateUtils.ts:42 | for years 0..9999, the JavaScript string comparison of two formatted dates holds exactly when the first day is earlier |
| Calendar.FormatDateInjective | src/utils/dateUtils.ts:50 | equal date strings mean the same day, so string equality with today is day equality |
| DateUtils.DaysBetween | src/utils/dateUtils.ts:15-20 | the unsigned difference: 0 iff the days are equal, and adding it to the earlier day gives the later one |
| DateUtils.DaysBetweenSymmetric | src/utils/dateUtils.ts:15-20 | the difference does not depend on the argument order |
| DateUtils.DaysAgo | src/utils/dateUtils.ts:22-26 | the day that is `days` before today, at distance `days` from it |
| DateUtils.YesterdayIsOneDayBefore | src/utils/dateUtils.ts:131-137 | isYesterday holds iff the date is the day before today, which is never today and at distance 1 |
| DateUtils.Last365Days | src/utils/dateUtils.ts:28-34 | 365 days from today − 364 to today, each one more than the previous, strictly increasing |
| DateUtils.GetLast365Days | src/utils/dateUtils.ts:28-34 | the countdown loop from 364 to 0 yields exactly Last365Days |
| DateUtils.RelativeDateString | src/utils/dateUtils.ts:139-150 | 'Today' iff today; 'Yesterday' iff the day before; "n days ago" iff the distance is 1..7 otherwise, including future days, with n the distance; the month-day label iff the distance exceeds 7 |
| DateUtils.WeekNumber | src/utils/dateUtils.ts:118-124 | the week number is between 1 and 53 |
| DateUtils.WeekNumberConstantOnWeek | src/utils/dateUtils.ts:118-124 | all days from a Monday through the next Sunday share a week number |
| DateUtils.WeekOfJanuaryFourth | src/utils/dateUtils.ts:118-124 | 4 January is always in week 1 |
| DateUtils.WeekNumberNextWeek | src/utils/dateUtils.ts:118-124 | within one ISO year the next week's number is one more |
| DateUtils.SingleHabitSeries | src/utils/dateUtils.ts:99-116 | 365 entries over Last365Days; an entry has count 1 and habits ['default'] iff its day is completed, else count 0 and no habits |
| DateUtils.GenerateContributionData | src/utils/dateUtils.ts:99-116 | the loop yields SingleHabitSeries whatever the start date |
| DateUtils.SingleHabitSeriesTotal | src/utils/dateUtils.ts:99-116 | the counts add up to the number of distinct completed days in the window |
| DateUtils.SingleHabitSeriesTotalCovered | src/utils/dateUtils.ts:99-116 | with distinct days all in the window, the counts add up to the number of completions |
| Streak.SortDescendingCorrect | src/utils/dateUtils.ts:42 | the sorted copy is descending and a permutation of the input |
| Streak.DescendingUnique | src/utils/dateUtils.ts:42 | two descending permutations of the same days are equal |
| Streak.CalculateStreak | src/utils/dateUtils.ts:36-97 | the method, with its early exit, current-streak walk and longest-run scan, returns StreakOf |
| Streak.StreakOfEmpty | src/utils/dateUtils.ts:37-39 | no dates give 0, 0 and no last date |
| Streak.StreakLastCompleted | src/utils/dateUtils.ts:95 | the last completed day is present iff the input is non-empty, and is the greatest day of the input |
| Streak.StreakActiveIffRecent | src/utils/dateUtils.ts:50-71 | the current streak is non-zero iff the latest day is within one day of today |
| Streak.CurrentStreakIsLeadingRun | src/utils/dateUtils.ts:50-71 | an active current streak is the longest run of one-day steps starting at the latest day |
| Streak.RunFromIsMaximal | src/utils/dateUtils.ts:52-59 | the walk from an index stops at the longest run of one-day steps from there |
| Streak.RunToIsMaximal | src/utils/dateUtils.ts:79-87 | the running counter is the longest run of one-day steps ending at an index |
| Streak.MaxRunIsLongest | src/utils/dateUtils.ts:73-90 | the maximum tracked over a prefix is attained by a run and bounds every run in it |
| Streak.LongestStreakIsLongestRun | src/utils/dateUtils.ts:73-90 | for non-empty input the longest streak is ≥ 1, attained by some run, and no run is longer |
| Streak.LongestAtLeastCurrent | src/utils/dateUtils.ts:36-97 | the current streak never exceeds the longest streak |
| Streak.StreakOrderIndependent | src/utils/dateUtils.ts:42 | inputs with the same days (with multiplicity) give the same result |
| Streak.FiveDayScenario | src/utils/dateUtils.ts:36-97 | completions on 2024-01-01 through 01-05, asked on 01-05, give current 5, longest 5, last 01-05 |
| Streak.GapScenario | src/utils/dateUtils.ts:36-97 | 2024-01-01, 01-02 and 01-05 asked on 01-06 give current 1, longest 2, last 01-05 |
| Streak.LongAgoScenario | src/utils/dateUtils.ts:60 | a single day long ago gives current 0, longest 1 |
| Streak.DuplicateScenario | src/utils/dateUtils.ts:52-58 | a duplicated latest day ends the current walk at 1 while the longest run is 2 |
| Streak.TomorrowScenario | src/utils/dateUtils.ts:60 | a completion dated tomorrow keeps the current streak at 1 |
| Storage.FindCompletion | src/services/storage.ts:90-92 | the index of the first record of the (habit, day) pair, or None when no record matches |
| Storage.CompletedDatesFilter | src/services/storage.ts:112-117 | the completion dates distribute over concatenation; one record contributes its date iff it is the habit's and completed |
| Storage.CompletedDatesMembership | src/services/storage.ts:112-117 | a day is among the habit's dates iff a completed record of the habit has that day |
| Storage.CompletedDatesUnknown | src/services/storage.ts:112-117 | a habit without records has no dates |
| Storage.ToggleExisting | src/services/storage.ts:94-96 | with an existing record, toggling flips it in place and keeps the length and every other record |
| Storage.ToggleAbsent | src/services/storage.ts:97-104 | with no record, toggling appends {habit, day, true} |
| Storage.TogglePreservesUnique | src/services/storage.ts:87-106 | toggling keeps at most one record per (habit, day) |
| Storage.ToggleTwice | src/services/storage.ts:87-106 | toggling the same pair twice leaves every habit's completion dates unchanged |
| Storage.ToggleTwiceAbsentKeepsRecord | src/services/storage.ts:94-104 | for a new pair, toggling twice leaves one extra record {habit, day, false} |
| Storage.ToggleFlipsMembership | src/services/storage.ts:87-117 | under the invariant, toggling adds the day to the habit's dates iff it was missing, and changes nothing else for any habit or day |
| Storage.UniqueRecordsDistinctDates | src/services/storage.ts:112-117 | under the invariant a habit's dates are distinct |
| Storage.FindHabit | src/services/storage.ts:48 | the index of the first habit with the id, or None when there is none |
| Storage.ReplaceHabitEffect | src/services/storage.ts:45-56 | updateHabit replaces exactly the first habit with the same id, or leaves the list as it was |
| Storage.RemoveHabitEffect | src/services/storage.ts:58-66 | deleteHabit keeps exactly the habits with another id, never lengthens the list, and is the identity when the id is absent |
| Storage.RemoveHabitAppend | src/services/storage.ts:61 | deletion distributes over concatenation, so the order is kept |
| Storage.RecordStore.constructor | src/services/storage.ts:9-25 | a fresh store has no habits and no records |
| Storage.RecordStore.GetHabits | src/services/storage.ts:9-25 | returns the stored habits |
| Storage.RecordStore.SaveHabits | src/services/storage.ts:27-33 | replaces the habits and keeps the records |
| Storage.RecordStore.AddHabit | src/services/storage.ts:35-43 | appends the habit and keeps the records |
| Storage.RecordStore.UpdateHabit | src/services/storage.ts:45-56 | the findIndex loop leaves the habits equal to ReplaceHabit of the old list |
| Storage.RecordStore.DeleteHabit | src/services/storage.ts:58-66 | the habits become RemoveHabit of the old list; the records stay |
| Storage.RecordStore.GetCompletions | src/services/storage.ts:69-77 | returns the stored records |
| Storage.RecordStore.SaveCompletions | src/services/storage.ts:79-85 | replaces the records and keeps the habits |
| Storage.RecordStore.ToggleHabitCompletion | src/services/storage.ts:87-110 | the findIndex loop and update leave the records equal to Toggle of the old ones, keeping the invariant |
| Storage.RecordStore.GetHabitCompletions | src/services/storage.ts:112-122 | returns the completed dates of the habit in stored order |
| Storage.RecordStore.ClearAllData | src/services/storage.ts:125-131 | afterwards both lists are empty |
| Storage.RecordStore.ExportData | src/services/storage.ts:133-142 | returns both lists unchanged |
| Storage.RecordStore.ImportData | src/services/storage.ts:144-151 | replaces both lists with the imported ones |
| HabitService.RefreshAll | src/services/habitService.ts:10-23 | one refreshed habit per stored habit, position by position |
| HabitService.RefreshFields | src/services/habitService.ts:15-21 | the definition is kept; the dates are the habit's completed days in stored order; the total is their number; the current streak comes from them; the longest streak never drops and stays ≥ the current one |
| HabitService.RefreshCountsDistinctDays | src/services/habitService.ts:19 | under the store invariant the total is the number of distinct completed days |
| HabitService.RefreshIdempotent | src/services/habitService.ts:6-29 | refreshing twice against the same records is refreshing once |
| HabitService.RefreshAllFind | src/services/habitService.ts:50-51 | refreshing keeps every id at its position |
| HabitService.GetAllHabits | src/services/habitService.ts:6-29 | the loop over the habits, calling getHabitCompletions and calculateStreak, returns and saves RefreshAll; the records are untouched |
| HabitService.NewHabit | src/services/habitService.ts:31-40 | the draft's fields, the given id and timestamp, no dates, and zero streaks and total |
| HabitService.NewHabitRefreshed | src/services/habitService.ts:31-40 | a new habit whose id has no records stays as created when refreshed |
| HabitService.CreateHabit | src/services/habitService.ts:31-44 | returns NewHabit and appends it to the store |
| HabitService.ToggleHabitCompletion | src/services/habitService.ts:46-58 | the records are toggled and every habit refreshed; the result is the refreshed habit with that id, or HabitNotFound when there is none; under the invariant the day's membership in its dates flips |
| HabitService.ToggleHabitCompletionToday | src/services/habitService.ts:46-58 | the call without a date toggles today's record, with the same result and refresh as ToggleHabitCompletion |
| HabitService.ApplyUpdatesOnlySupplied | src/services/habitService.ts:68 | each field takes the supplied value when one is supplied and is kept otherwise |
| HabitService.ApplyUpdatesIdentityIdempotent | src/services/habitService.ts:68 | an empty update changes nothing, and applying an update twice equals applying it once |
| HabitService.ApplyUpdatesCompose | src/services/habitService.ts:68 | two successive updates equal one merged update in which the later values win |
| HabitService.UpdateHabit | src/services/habitService.ts:60-72 | HabitNotFound and an unchanged store for an absent id; otherwise the merged habit, written over the first habit with its id |
| HabitService.UpdateKeepingIdReplacesInPlace | src/services/habitService.ts:60-72 | an update that keeps the id replaces exactly the found habit, in place |
| HabitService.DeleteHabit | src/services/habitService.ts:74-76 | the habit is removed and its records stay |
| HabitService.WithinLast | src/services/habitService.ts:91 | a day is kept iff it is in the list and after today − n; the list does not grow |
| HabitService.RoundPercentNearest | src/services/habitService.ts:92-98 | the rounded percentage r satisfies r − ½ ≤ 100·num/den < r + ½ |
| HabitService.RoundPercentBounds | src/services/habitService.ts:118-134 | 0 of anything is 0, all of it is 100, and at most all of it is at most 100 |
| HabitService.WithinLastBound | src/services/habitService.ts:91 | distinct days none after today give at most n days in the last n |
| HabitService.HabitRateNeverHalf | src/services/habitService.ts:92-98 | 100·num/30 is never a whole number plus one half, so rounding the rate meets no tie |
| HabitService.GetHabitStats | src/services/habitService.ts:78-101 | the method's values, from getHabitCompletions and calculateStreak, are HabitStatsOf of the records |
| HabitService.HabitStatsProperties | src/services/habitService.ts:78-101 | the stats agree with the refreshed habit on total and current streak, their longest is at most its longest, a habit without completions has all zeros, and under the invariant with no future day the rate is at most 100 |
| HabitService.ActiveCount | src/services/habitService.ts:108 | never more than the number of habits |
| HabitService.ActiveCountMeaning | src/services/habitService.ts:108 | 0 iff no habit has a streak, and all of them iff every habit has one |
| HabitService.ActiveCountAppend | src/services/habitService.ts:108 | the active count of a concatenation is the sum of the counts |
| HabitService.ActiveCountSingle | src/services/habitService.ts:108 | one habit counts 1 iff its current streak is positive, else 0 |
| HabitService.CompletionSumAppend | src/services/habitService.ts:109 | the completion total of a concatenation is the sum of the totals |
| HabitService.CompletionSumSingle | src/services/habitService.ts:109 | one habit contributes its totalCompletions |
| HabitService.CompletionSumRefreshed | src/services/habitService.ts:104-109 | over the refreshed habits, totalCompletions is the sum over the habits of their completed records in the store |
| HabitService.WindowSumBound | src/services/habitService.ts:114-126 | with at most cap days per habit in the window the sum is at most habits × cap, and exactly that when every habit has cap |
| HabitService.ProgressBounds | src/services/habitService.ts:118-127 | progress is 0 without habits, at most 100 when no habit exceeds n days in the window, and 100 when all have n |
| HabitService.AppStatsEmpty | src/services/habitService.ts:103-137 | no habits give all-zero statistics dated today |
| HabitService.AppStatsActive | src/services/habitService.ts:104-108 | active ≤ total; a refreshed habit counts as active iff its latest completion is within one day of today |
| HabitService.GetAppStats | src/services/habitService.ts:103-137 | the statistics of the refreshed habits, which are also saved |
| HabitService.Rep | src/services/habitService.ts:149 | n copies of the id |
| HabitService.ContributionSeries | src/services/habitService.ts:153-170 | 365 entries, entry k for day k of Last365Days |
| HabitService.ContributionSeriesShape | src/services/habitService.ts:153-170 | the days run from today − 364 to today, one apart, oldest first; each count is the number of its habit ids |
| HabitService.IdsOnOccurrences | src/services/habitService.ts:144-151 | a day lists an id as many times as that day occurs among the dates of the habits with that id |
| HabitService.IdsOnMembership | src/services/habitService.ts:144-151 | an id is listed for a day iff a habit with that id has that day among its dates |
| HabitService.UniqueIdOccurrences | src/services/habitService.ts:144-151 | with distinct ids, a habit's id occurs as often as the day occurs in its dates |
| HabitService.PushHabit | src/services/habitService.ts:145-150 | the inner loop adds, under each day, the habit's id once per occurrence of that day |
| HabitService.CollectCompletions | src/services/habitService.ts:141-151 | the nested loops leave, under every day, exactly the ids the spec lists |
| HabitService.BuildContributionData | src/services/habitService.ts:139-171 | the map-building and the 365-day countdown yield ContributionSeries |
| HabitService.GetContributionData | src/services/habitService.ts:139-171 | the grid of the refreshed habits, which are also saved |
| HabitService.SortByStreakCorrect | src/services/habitService.ts:176 | the sort is non-increasing in current streak and a permutation |
| HabitService.SliceEnd | src/services/habitService.ts:177 | `slice(0, limit)` ends within the list and, for a non-negative limit, at most at the limit |
| HabitService.TopHabitsCorrect | src/services/habitService.ts:173-178 | min(limit, n) habits for a non-negative limit, non-increasing in streak, drawn from the habits without repetition, and none left out has a higher streak than one kept |
| HabitService.PrefixDominates | src/services/habitService.ts:176-177 | a prefix of a streak-sorted list dominates the rest |
| HabitService.GetTopHabits | src/services/habitService.ts:173-178 | TopHabits of the refreshed habits |
| HabitService.GetTopHabitsDefault | src/services/habitService.ts:173-178 | the call without a limit returns TopHabits with limit 5, that is min(5, n) habits |
| HabitService.HabitsByCategoryCorrect | src/services/habitService.ts:182 | exactly the habits of the category are kept, never more than given |
| HabitService.HabitsByCategoryAppend | src/services/habitService.ts:182 | the filter distributes over concatenation, so the order is kept |
| HabitService.GetHabitsByCategory | src/services/habitService.ts:180-183 | the category filter of the refreshed habits |
| ChainMapping.MockBlocks | liftover_2d/chain_mapper.py:49-56 | 1000 blocks; block k covers [k·100 kb, (k+1)·100 kb) and lands at its start plus the offset |
| ChainMapping.AddMockBlocks | liftover_2d/chain_mapper.py:49-67 | the `range(0, 100000000, 100000)` loop builds MockBlocks |
| ChainMapping.CreateMockChainTrees | liftover_2d/chain_mapper.py:37-69 | builds chr1 at +10 kb with score 1000 and chr2 at −5 kb with score 800 |
| ChainMapping.ParseChainFile | liftover_2d/chain_mapper.py:71-83 | falls back to the mock table |
| ChainMapping.LoadChainFile | liftover_2d/chain_mapper.py:23-35 | with or without a chain file, the mock table |
| ChainMapping.ChainMapper.constructor | liftover_2d/chain_mapper.py:14-21 | keeps the file name and loads the mock table |
| ChainMapping.BestByScore | liftover_2d/chain_mapper.py:104 | an overlapping block of maximum score |
| ChainMapping.OverlappingMembership | liftover_2d/chain_mapper.py:99 | the overlap query keeps exactly the blocks with begin ≤ position < end |
| ChainMapping.LiftCoordinateCorrect | liftover_2d/chain_mapper.py:85-110 | None iff the chromosome is absent or no block contains the position; otherwise target_start + position − begin through a containing block of maximum score |
| ChainMapping.OverlappingSingle | liftover_2d/chain_mapper.py:99 | when one block alone contains the position, the overlap is that block |
| ChainMapping.MockTiling | liftover_2d/chain_mapper.py:46-67 | in [0, 100 Mb) a position lies in block position / 100 kb and no other |
| ChainMapping.MockOutside | liftover_2d/chain_mapper.py:49 | outside [0, 100 Mb) no mock block contains the position |
| ChainMapping.MockLift | liftover_2d/chain_mapper.py:52-66 | under the mock table chr1 maps p to p + 10000 and chr2 maps p to p − 5000, each to itself |
| ChainMapping.MockUnmappable | liftover_2d/chain_mapper.py:95-101 | under the mock table other chromosomes and positions outside [0, 100 Mb) are unmappable |
| ChainMapping.MockScenarios | liftover_2d/tests/test_chain_mapper.py:29-48 | chr1:12345678 ↦ chr1:12355678, chr1:50000 ↦ chr1:60000 (also with a chain file), chr99 and chr1:999999999 unmappable |
| ChainMapping.LiftCoordinatePairCorrect | liftover_2d/chain_mapper.py:112-131 | a pair lifts iff both ends lift, and then to both lifted ends |
| ChainMapping.LiftAll | liftover_2d/chain_mapper.py:157-171 | one output row per input row, each lifted |
| ChainMapping.LiftDataframe | liftover_2d/chain_mapper.py:133-180 | the copy, the per-row loop and the optional filter yield LiftRows |
| ChainMapping.LiftRowsKeep | liftover_2d/chain_mapper.py:147-171 | without dropping, every row stays in place; is_mappable holds iff its pair lifts; the targets are the lifted pair, or None |
| ChainMapping.MappableRowsCorrect | liftover_2d/chain_mapper.py:178 | the filter keeps exactly the mappable rows, never more |
| ChainMapping.LiftRowsDrop | liftover_2d/chain_mapper.py:176-180 | with dropping, the result is the kept result's mappable rows in order; it distributes over concatenation |

## Left out

- The clock, time zones and daylight saving. The model counts in whole days with `today` given, so the millisecond difference and `Math.ceil` in `getDaysBetween` become a plain day difference, and local midnight versus UTC midnight in `toISOString` plays no part.
- Locale formatting: `getMonthName`, and the month-day text of `getRelativeDateString`, which is only carried as the date.
- `getToday`, `getDateFromString` and `formatDate` on `Date` objects. Dates are day numbers, and `Calendar` relates them to the `YYYY-MM-DD` text.
- AsyncStorage, JSON (de)serialisation, `async`/`await` and the `try`/`catch` blocks that log an error and return an empty value. The store is in memory and never fails.
- `generateId`, `Date.now()` and `Math.random()`. The id and the creation timestamp are parameters.
- `createdAt` is an opaque integer rather than a `Date`.
- HabitService.UpdateHabit: a field set explicitly to `undefined` in a Partial is modelled only for the optional description and category (Some(None)). For required fields such an update is not representable.
- HabitService.TopHabitsCorrect: does not state that habits with equal streaks keep their relative order. The model's sort is stable, as the JavaScript sort is, but only ordering, permutation and the cut at the limit are proved.
- HabitService.GetTopHabits: a non-integer or NaN limit is not modelled; the limit is an integer.
- HabitService.GetAppStats: `weeklyProgress` and `monthlyProgress` are rounded from the exact ratio, while the source rounds the double-precision product `(count / (habits * n)) * 100`. The two differ wherever that product falls just below a half though the exact value is a half. For example, 4 habits with 69 completions in the last 30 days give 57.49999999999999, which `Math.round` turns into 57, while the model gives 58. IEEE-754 double arithmetic is not modelled.
- HabitService.GetHabitStats: the completion rate is also rounded from the exact ratio, over a denominator of 30. `HabitService.HabitRateNeverHalf` shows the exact value is never a whole number plus one half, so it always lies at least 1/6 from a tie.
- Streak.CalculateStreak: it corresponds to the source's string sort only for dates in the years 0000 to 9999 (`Calendar.FormatDateOrder`). `toISOString` writes later years as `+010000-01-01`, and since `+` sorts before `9`, the source puts 9999-12-31 ahead of 10000-01-01 and returns it as `lastCompletedDate`. The model sorts by day number.
- ChainMapping.LiftCoordinateCorrect: states only that some maximum-score containing block is used. Which one wins a tie depends on the iteration order of the interval set, and the model's choice (the first in table order) is not promised.
- ChainMapping.LiftRowsKeep: the frame's other columns, its index labels and configurable column names are not modelled. A row carries only the four coordinate columns.
- The progress output of `lift_dataframe` and the note printed by `_parse_chain_file` are not modelled.
- Real chain-file parsing is not part of this model. The source does not implement it either and falls back to the mock table.
- IntervalTree's rejection of empty intervals and its internal structure are not modelled. A chromosome's blocks are a sequence.
- Python's unbounded integers match Dafny's. Negative target positions for chr2 near 0 are returned as computed, as in the source.
- `liftover_2d/cli.py`, `setup.py` and `liftover_2d/__init__.py` are not part of this model: they are argument parsing, file I/O and packaging.
- The user interface (screens, components, navigation) is not part of this model.
