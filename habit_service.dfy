/**
 * The habit service (src/services/habitService.ts): derived fields, creation,
 * toggling and updating, statistics, the all-habit contribution grid, the
 * top habits and the category filter, over a RecordStore.
 */
module HabitService {
  import opened Wrappers
  import opened Types
  import opened DateUtils
  import opened Streak
  import opened Storage

  /** The error thrown as "Habit not found". */
  datatype ServiceError = HabitNotFound

  // ----- getAllHabits: the derived fields -----

  /** One habit of getAllHabits, its derived fields recomputed from the records. */
  function Refresh(h: Habit, records: seq<HabitCompletion>, today: Day): Habit
  {
    var completions := CompletedDates(records, h.id);
    var streakData := StreakOf(completions, today);
    h.(currentStreak := streakData.currentStreak,
       longestStreak := Max(h.longestStreak, streakData.longestStreak),
       totalCompletions := |completions|,
       completedDates := completions)
  }

  /** The list getAllHabits returns and saves. */
  function RefreshAll(hs: seq<Habit>, records: seq<HabitCompletion>, today: Day): (r: seq<Habit>)
    ensures |r| == |hs|
    ensures forall i :: 0 <= i < |hs| ==> r[i] == Refresh(hs[i], records, today)
  {
    seq(|hs|, i requires 0 <= i < |hs| => Refresh(hs[i], records, today))
  }

  /** The part of a habit that the user defines, with the derived fields blanked. */
  function Definition(h: Habit): Habit
  {
    h.(completedDates := [], currentStreak := 0, longestStreak := 0, totalCompletions := 0)
  }

  /**
   * Refreshing keeps the definition, lists the habit's completed days in
   * stored order, counts them, takes the current streak from them and never
   * lowers the longest streak, which stays at least the current one.
   */
  lemma RefreshFields(h: Habit, records: seq<HabitCompletion>, today: Day)
    ensures var r := Refresh(h, records, today);
      var streakData := StreakOf(CompletedDates(records, h.id), today);
      Definition(r) == Definition(h) &&
      r.completedDates == CompletedDates(records, h.id) &&
      r.totalCompletions == |r.completedDates| &&
      r.currentStreak == streakData.currentStreak &&
      r.longestStreak >= h.longestStreak &&
      r.longestStreak >= streakData.longestStreak &&
      (r.longestStreak == h.longestStreak || r.longestStreak == streakData.longestStreak) &&
      r.currentStreak <= r.longestStreak
  {
    LongestAtLeastCurrent(CompletedDates(records, h.id), today);
  }

  /** Under the store invariant, totalCompletions is the number of distinct completed days. */
  lemma RefreshCountsDistinctDays(h: Habit, records: seq<HabitCompletion>, today: Day)
    requires UniqueRecords(records)
    ensures var r := Refresh(h, records, today);
      r.totalCompletions == |set d | d in r.completedDates|
  {
    UniqueRecordsDistinctDates(records, h.id);
    DistinctCardinality(CompletedDates(records, h.id));
  }

  /** A second refresh against the same records changes nothing. */
  lemma RefreshIdempotent(h: Habit, records: seq<HabitCompletion>, today: Day)
    ensures Refresh(Refresh(h, records, today), records, today) == Refresh(h, records, today)
  {
  }

  /** Refreshing keeps the ids in place, so finding a habit by id finds the same position. */
  lemma {:induction false} RefreshAllFind(hs: seq<Habit>, records: seq<HabitCompletion>, today: Day, habitId: HabitId)
    ensures FindHabit(RefreshAll(hs, records, today), habitId) == FindHabit(hs, habitId)
  {
    if |hs| > 0 {
      RefreshAllFind(hs[1..], records, today, habitId);
      assert RefreshAll(hs, records, today)[1..] == RefreshAll(hs[1..], records, today);
    }
  }

  /** getAllHabits: recompute every habit from the store's records, save the list and return it. */
  method GetAllHabits(store: RecordStore, today: Day) returns (updatedHabits: seq<Habit>)
    modifies store
    ensures updatedHabits == RefreshAll(old(store.habits), old(store.completions), today)
    ensures store.habits == updatedHabits && store.completions == old(store.completions)
  {
    var habits := store.GetHabits();
    updatedHabits := [];
    var i := 0;
    while i < |habits|
      invariant 0 <= i <= |habits|
      invariant store.habits == habits && store.completions == old(store.completions)
      invariant |updatedHabits| == i
      invariant forall k :: 0 <= k < i ==> updatedHabits[k] == Refresh(habits[k], store.completions, today)
    {
      var habit := habits[i];
      var completions := store.GetHabitCompletions(habit.id);
      var streakData := CalculateStreak(completions, today);
      updatedHabits := updatedHabits + [habit.(
        currentStreak := streakData.currentStreak,
        longestStreak := Max(habit.longestStreak, streakData.longestStreak),
        totalCompletions := |completions|,
        completedDates := completions)];
      i := i + 1;
    }
    store.SaveHabits(updatedHabits);
  }

  // ----- createHabit -----

  /** The fields a caller supplies to createHabit. */
  datatype HabitDraft = HabitDraft(
    name: string,
    description: Option<string>,
    category: Option<string>,
    color: string,
    frequency: Frequency)

  /** The new habit: the draft, a fresh id and timestamp, and empty derived fields. */
  function NewHabit(draft: HabitDraft, id: HabitId, createdAt: int): (h: Habit)
    ensures h.id == id && h.createdAt == createdAt
    ensures h.name == draft.name && h.description == draft.description && h.category == draft.category &&
      h.color == draft.color && h.frequency == draft.frequency
    ensures h.completedDates == [] && h.currentStreak == 0 && h.longestStreak == 0 && h.totalCompletions == 0
  {
    Habit(id, draft.name, draft.description, draft.category, draft.color, draft.frequency, createdAt, [], 0, 0, 0)
  }

  /** A new habit whose id has no records stays empty when refreshed. */
  lemma NewHabitRefreshed(draft: HabitDraft, id: HabitId, createdAt: int, records: seq<HabitCompletion>, today: Day)
    requires forall k :: 0 <= k < |records| ==> records[k].habitId != id
    ensures Refresh(NewHabit(draft, id, createdAt), records, today) == NewHabit(draft, id, createdAt)
  {
    CompletedDatesUnknown(records, id);
  }

  /** createHabit, with the generated id and the timestamp passed in. */
  method CreateHabit(store: RecordStore, draft: HabitDraft, id: HabitId, createdAt: int) returns (newHabit: Habit)
    modifies store
    ensures newHabit == NewHabit(draft, id, createdAt)
    ensures store.habits == old(store.habits) + [newHabit] && store.completions == old(store.completions)
  {
    newHabit := Habit(id, draft.name, draft.description, draft.category, draft.color, draft.frequency, createdAt, [], 0, 0, 0);
    store.AddHabit(newHabit);
  }

  // ----- toggleHabitCompletion -----

  /**
   * toggleHabitCompletion: toggle the record (even for an unknown habit),
   * refresh every habit, and return the refreshed habit or HabitNotFound.
   */
  method ToggleHabitCompletion(store: RecordStore, habitId: HabitId, date: Day, today: Day)
    returns (r: Result<Habit, ServiceError>)
    modifies store
    ensures store.completions == Toggle(old(store.completions), habitId, date)
    ensures store.habits == RefreshAll(old(store.habits), store.completions, today)
    ensures FindHabit(old(store.habits), habitId).None? ==> r == Err(HabitNotFound)
    ensures FindHabit(old(store.habits), habitId).Some? ==>
      r == Ok(store.habits[FindHabit(old(store.habits), habitId).value])
    ensures r.Ok? ==> r.value.id == habitId
    ensures r.Ok? && UniqueRecords(old(store.completions)) ==>
      (date in r.value.completedDates <==> date !in CompletedDates(old(store.completions), habitId))
  {
    ghost var before := store.completions;
    store.ToggleHabitCompletion(habitId, date);
    var habits := GetAllHabits(store, today);
    RefreshAllFind(old(store.habits), store.completions, today, habitId);
    match FindHabit(habits, habitId)
    case None =>
      r := Err(HabitNotFound);
    case Some(i) =>
      r := Ok(habits[i]);
      if UniqueRecords(before) {
        ToggleFlipsMembership(before, habitId, date, habitId, date);
      }
  }

  /** toggleHabitCompletion(habitId) with the default date, getToday(). */
  method ToggleHabitCompletionToday(store: RecordStore, habitId: HabitId, today: Day)
    returns (r: Result<Habit, ServiceError>)
    modifies store
    ensures store.completions == Toggle(old(store.completions), habitId, today)
    ensures store.habits == RefreshAll(old(store.habits), store.completions, today)
    ensures FindHabit(old(store.habits), habitId).None? ==> r == Err(HabitNotFound)
    ensures FindHabit(old(store.habits), habitId).Some? ==>
      r == Ok(store.habits[FindHabit(old(store.habits), habitId).value])
    ensures r.Ok? && UniqueRecords(old(store.completions)) ==>
      (today in r.value.completedDates <==> today !in CompletedDates(old(store.completions), habitId))
  {
    r := ToggleHabitCompletion(store, habitId, today, today);
  }

  // ----- updateHabit -----

  /** A Partial<Habit>: None leaves a field alone; Some(None) clears an optional field. */
  datatype HabitUpdate = HabitUpdate(
    id: Option<HabitId>,
    name: Option<string>,
    description: Option<Option<string>>,
    category: Option<Option<string>>,
    color: Option<string>,
    frequency: Option<Frequency>,
    createdAt: Option<int>,
    completedDates: Option<seq<Day>>,
    currentStreak: Option<nat>,
    longestStreak: Option<nat>,
    totalCompletions: Option<nat>)

  function NoUpdates(): HabitUpdate
  {
    HabitUpdate(None, None, None, None, None, None, None, None, None, None, None)
  }

  function Pick<T>(update: Option<T>, current: T): T
  {
    if update.Some? then update.value else current
  }

  /** `{ ...habit, ...updates }` */
  function ApplyUpdates(h: Habit, u: HabitUpdate): Habit
  {
    Habit(Pick(u.id, h.id), Pick(u.name, h.name), Pick(u.description, h.description),
      Pick(u.category, h.category), Pick(u.color, h.color), Pick(u.frequency, h.frequency),
      Pick(u.createdAt, h.createdAt), Pick(u.completedDates, h.completedDates),
      Pick(u.currentStreak, h.currentStreak), Pick(u.longestStreak, h.longestStreak),
      Pick(u.totalCompletions, h.totalCompletions))
  }

  /** `{ ...first, ...second }` of two partial habits: the later value wins. */
  function MergeUpdates(first: HabitUpdate, second: HabitUpdate): HabitUpdate
  {
    HabitUpdate(
      if second.id.Some? then second.id else first.id,
      if second.name.Some? then second.name else first.name,
      if second.description.Some? then second.description else first.description,
      if second.category.Some? then second.category else first.category,
      if second.color.Some? then second.color else first.color,
      if second.frequency.Some? then second.frequency else first.frequency,
      if second.createdAt.Some? then second.createdAt else first.createdAt,
      if second.completedDates.Some? then second.completedDates else first.completedDates,
      if second.currentStreak.Some? then second.currentStreak else first.currentStreak,
      if second.longestStreak.Some? then second.longestStreak else first.longestStreak,
      if second.totalCompletions.Some? then second.totalCompletions else first.totalCompletions)
  }

  /** Only supplied fields change, and each takes the supplied value. */
  lemma ApplyUpdatesOnlySupplied(h: Habit, u: HabitUpdate)
    ensures var r := ApplyUpdates(h, u);
      (u.id.None? ==> r.id == h.id) && (u.id.Some? ==> r.id == u.id.value) &&
      (u.name.None? ==> r.name == h.name) && (u.name.Some? ==> r.name == u.name.value) &&
      (u.description.None? ==> r.description == h.description) &&
      (u.description.Some? ==> r.description == u.description.value) &&
      (u.category.None? ==> r.category == h.category) && (u.category.Some? ==> r.category == u.category.value) &&
      (u.color.None? ==> r.color == h.color) && (u.color.Some? ==> r.color == u.color.value) &&
      (u.frequency.None? ==> r.frequency == h.frequency) && (u.frequency.Some? ==> r.frequency == u.frequency.value) &&
      (u.createdAt.None? ==> r.createdAt == h.createdAt) && (u.createdAt.Some? ==> r.createdAt == u.createdAt.value) &&
      (u.completedDates.None? ==> r.completedDates == h.completedDates) &&
      (u.completedDates.Some? ==> r.completedDates == u.completedDates.value) &&
      (u.currentStreak.None? ==> r.currentStreak == h.currentStreak) &&
      (u.currentStreak.Some? ==> r.currentStreak == u.currentStreak.value) &&
      (u.longestStreak.None? ==> r.longestStreak == h.longestStreak) &&
      (u.longestStreak.Some? ==> r.longestStreak == u.longestStreak.value) &&
      (u.totalCompletions.None? ==> r.totalCompletions == h.totalCompletions) &&
      (u.totalCompletions.Some? ==> r.totalCompletions == u.totalCompletions.value)
  {
  }

  /** An empty update is the identity, and applying the same update twice is applying it once. */
  lemma ApplyUpdatesIdentityIdempotent(h: Habit, u: HabitUpdate)
    ensures ApplyUpdates(h, NoUpdates()) == h
    ensures ApplyUpdates(ApplyUpdates(h, u), u) == ApplyUpdates(h, u)
  {
  }

  /** Two successive updates amount to one merged update. */
  lemma ApplyUpdatesCompose(h: Habit, first: HabitUpdate, second: HabitUpdate)
    ensures ApplyUpdates(ApplyUpdates(h, first), second) == ApplyUpdates(h, MergeUpdates(first, second))
  {
  }

  /**
   * updateHabit: HabitNotFound if no habit has the id; otherwise the merged
   * habit, which the store then writes over the first habit with the merged id.
   */
  method UpdateHabit(store: RecordStore, habitId: HabitId, updates: HabitUpdate) returns (r: Result<Habit, ServiceError>)
    modifies store
    ensures FindHabit(old(store.habits), habitId).None? ==>
      r == Err(HabitNotFound) && store.habits == old(store.habits)
    ensures FindHabit(old(store.habits), habitId).Some? ==>
      r == Ok(ApplyUpdates(old(store.habits)[FindHabit(old(store.habits), habitId).value], updates)) &&
      store.habits == ReplaceHabit(old(store.habits), r.value)
    ensures store.completions == old(store.completions)
  {
    var habits := store.GetHabits();
    var habitIndex := 0;
    while habitIndex < |habits| && habits[habitIndex].id != habitId
      invariant 0 <= habitIndex <= |habits|
      invariant forall k :: 0 <= k < habitIndex ==> habits[k].id != habitId
    {
      habitIndex := habitIndex + 1;
    }
    if habitIndex == |habits| {
      return Err(HabitNotFound);
    }
    var updatedHabit := ApplyUpdates(habits[habitIndex], updates);
    store.UpdateHabit(updatedHabit);
    r := Ok(updatedHabit);
  }

  /** An update that keeps the id changes only the habit it names, in place. */
  lemma UpdateKeepingIdReplacesInPlace(hs: seq<Habit>, habitId: HabitId, updates: HabitUpdate, i: nat)
    requires i < |hs| && hs[i].id == habitId && forall k :: 0 <= k < i ==> hs[k].id != habitId
    requires updates.id.None? || updates.id == Some(habitId)
    ensures ReplaceHabit(hs, ApplyUpdates(hs[i], updates)) == hs[i := ApplyUpdates(hs[i], updates)]
  {
    ReplaceHabitEffect(hs, ApplyUpdates(hs[i], updates));
  }

  /** deleteHabit: the habit goes; its completion records stay in the store. */
  method DeleteHabit(store: RecordStore, habitId: HabitId)
    modifies store
    ensures store.habits == RemoveHabit(old(store.habits), habitId)
    ensures store.completions == old(store.completions)
  {
    store.DeleteHabit(habitId);
  }

  // ----- windows and Math.round percentages -----

  /**
   * The days `d` with `new Date(d) >= n days ago`: the comparison is against
   * the current time minus n days, later than midnight, so a day counts
   * exactly when it is after today - n.
   */
  function WithinLast(dates: seq<Day>, today: Day, n: nat): (r: seq<Day>)
    ensures |r| <= |dates|
    ensures forall d :: d in r <==> d in dates && d > today - n
  {
    if |dates| == 0 then [] else
      var last := dates[|dates| - 1];
      WithinLast(dates[..|dates| - 1], today, n) + (if last > today - n then [last] else [])
  }

  /** Math.round(100 * num / den) for den > 0, rounding halves up. */
  function RoundPercent(num: nat, den: nat): (r: nat)
    requires den > 0
  {
    (200 * num + den) / (2 * den)
  }

  /** RoundPercent is the nearest integer to 100 * num / den, halves rounded up. */
  lemma RoundPercentNearest(num: nat, den: nat)
    requires den > 0
    ensures var r := RoundPercent(num, den);
      den * (2 * r - 1) <= 200 * num < den * (2 * r + 1)
  {
    var a := 200 * num + den;
    var b := 2 * den;
    var q := a / b;
    assert a == b * q + a % b && 0 <= a % b < b;
    assert den * (2 * q - 1) == b * q - den;
    assert den * (2 * q + 1) == b * q + den;
  }

  /** The percentage is 0 for nothing, 100 for everything and at most 100 for at most everything. */
  lemma RoundPercentBounds(num: nat, den: nat)
    requires den > 0
    ensures RoundPercent(0, den) == 0
    ensures RoundPercent(den, den) == 100
    ensures num <= den ==> RoundPercent(num, den) <= 100
  {
    DivBelow(den, 2 * den, 1);
    assert 2 * den * 100 <= 200 * den + den < 2 * den * 101;
    DivAtLeast(200 * den + den, 2 * den, 100);
    DivBelow(200 * den + den, 2 * den, 101);
    if num <= den {
      assert 200 * num + den < 2 * den * 101;
      DivBelow(200 * num + den, 2 * den, 101);
    }
  }

  /**
   * getHabitStats divides by 30: the exact percentage 100 * num / 30 is never
   * a whole number plus one half, so rounding it never meets a tie.
   */
  lemma HabitRateNeverHalf(num: nat)
    ensures (200 * num) % 60 != 30
  {
    var q := (200 * num) / 60;
    assert 200 * num == 60 * q + (200 * num) % 60;
  }

  lemma DivBelow(a: nat, b: nat, k: int)
    requires b > 0 && a < b * k
    ensures a / b < k
  {
    var q := a / b;
    assert b * q <= a;
    MulCancel(b, q, k);
  }

  lemma DivAtLeast(a: nat, b: nat, k: int)
    requires b > 0 && b * k <= a
    ensures k <= a / b
  {
    var q := a / b;
    assert a < b * q + b;
    assert b * q + b == b * (q + 1);
    MulCancel(b, k, q + 1);
  }

  lemma MulCancel(c: nat, a: int, b: int)
    requires c > 0 && c * a < c * b
    ensures a < b
  {
    assert c * b - c * a == c * (b - a);
  }

  /** The n consecutive days from lo. */
  function DayRange(lo: Day, n: nat): (r: seq<Day>)
    ensures |r| == n
    ensures forall k :: 0 <= k < n ==> r[k] == lo + k
  {
    seq(n, k requires 0 <= k < n => lo + k)
  }

  /** Distinct days, none after today, give at most n days in the window of the last n days. */
  lemma WithinLastBound(dates: seq<Day>, today: Day, n: nat)
    requires NoDuplicates(dates)
    requires forall d :: d in dates ==> d <= today
    ensures |WithinLast(dates, today, n)| <= n
  {
    var w := WithinLast(dates, today, n);
    var range := DayRange(today - n + 1, n);
    WithinLastDistinct(dates, today, n);
    assert NoDuplicates(range);
    DistinctCardinality(range);
    forall d | d in w
      ensures d in range
    {
      assert range[d - (today - n + 1)] == d;
    }
    DistinctWithin(w, set d | d in range);
  }

  /** A list of distinct days drawn from a set is no longer than the set is large. */
  lemma {:induction false} DistinctWithin(w: seq<Day>, bound: set<Day>)
    requires NoDuplicates(w)
    requires forall d :: d in w ==> d in bound
    ensures |w| <= |bound|
  {
    if |w| > 0 {
      var x := w[|w| - 1];
      var init := w[..|w| - 1];
      assert NoDuplicates(init);
      assert (bound - {x}) + {x} == bound;
      DistinctWithin(init, bound - {x});
    }
  }

  lemma {:induction false} WithinLastDistinct(dates: seq<Day>, today: Day, n: nat)
    requires NoDuplicates(dates)
    ensures NoDuplicates(WithinLast(dates, today, n))
  {
    if |dates| > 0 {
      var init := dates[..|dates| - 1];
      var last := dates[|dates| - 1];
      assert NoDuplicates(init);
      WithinLastDistinct(init, today, n);
      var w0 := WithinLast(init, today, n);
      var w := WithinLast(dates, today, n);
      if last > today - n {
        assert w == w0 + [last];
        assert last !in init;
        forall i, j | 0 <= i < j < |w| ensures w[i] != w[j] {
          if j == |w| - 1 {
            assert w[i] == w0[i] && w0[i] in w0;
          } else {
            assert w[i] == w0[i] && w[j] == w0[j];
          }
        }
      }
    }
  }

  // ----- getHabitStats -----

  datatype HabitStats = HabitStats(
    totalCompletions: nat,
    currentStreak: nat,
    longestStreak: nat,
    completionRate: nat,
    lastCompletedDate: Option<Day>)

  /** getHabitStats: the habit's records, whether or not the habit exists. */
  function HabitStatsOf(records: seq<HabitCompletion>, habitId: HabitId, today: Day): HabitStats
  {
    var completions := CompletedDates(records, habitId);
    var streakData := StreakOf(completions, today);
    HabitStats(|completions|, streakData.currentStreak, streakData.longestStreak,
      RoundPercent(|WithinLast(completions, today, 30)|, 30), streakData.lastCompletedDate)
  }

  method GetHabitStats(store: RecordStore, habitId: HabitId, today: Day) returns (stats: HabitStats)
    ensures stats == HabitStatsOf(store.completions, habitId, today)
  {
    var completions := store.GetHabitCompletions(habitId);
    var streakData := CalculateStreak(completions, today);
    var recentCompletions := WithinLast(completions, today, 30);
    stats := HabitStats(|completions|, streakData.currentStreak, streakData.longestStreak,
      RoundPercent(|recentCompletions|, 30), streakData.lastCompletedDate);
  }

  /**
   * The statistics agree with the refreshed habit (except that the stored
   * longest streak is not consulted); a habit with no completed records has
   * all zeros; and under the store invariant, with no day after today, the
   * rate is at most 100.
   */
  lemma HabitStatsProperties(records: seq<HabitCompletion>, h: Habit, today: Day)
    ensures var stats := HabitStatsOf(records, h.id, today);
      var r := Refresh(h, records, today);
      stats.totalCompletions == r.totalCompletions &&
      stats.currentStreak == r.currentStreak &&
      stats.longestStreak <= r.longestStreak &&
      stats.currentStreak <= stats.longestStreak &&
      (r.completedDates == [] ==> stats == HabitStats(0, 0, 0, 0, None))
    ensures UniqueRecords(records) && (forall k :: 0 <= k < |records| ==> records[k].date <= today) ==>
      HabitStatsOf(records, h.id, today).completionRate <= 100
  {
    var completions := CompletedDates(records, h.id);
    LongestAtLeastCurrent(completions, today);
    RoundPercentBounds(0, 30);
    if UniqueRecords(records) && (forall k :: 0 <= k < |records| ==> records[k].date <= today) {
      UniqueRecordsDistinctDates(records, h.id);
      forall d | d in completions ensures d <= today {
        CompletedDatesMembership(records, h.id, d);
      }
      WithinLastBound(completions, today, 30);
      RoundPercentBounds(|WithinLast(completions, today, 30)|, 30);
    }
  }

  // ----- getAppStats -----

  /** `habits.filter(habit => habit.currentStreak > 0).length` */
  function ActiveCount(hs: seq<Habit>): (r: nat)
    ensures r <= |hs|
  {
    if |hs| == 0 then 0 else ActiveCount(hs[..|hs| - 1]) + (if hs[|hs| - 1].currentStreak > 0 then 1 else 0)
  }

  /** `habits.reduce((sum, habit) => sum + habit.totalCompletions, 0)` */
  function CompletionSum(hs: seq<Habit>): nat
  {
    if |hs| == 0 then 0 else CompletionSum(hs[..|hs| - 1]) + hs[|hs| - 1].totalCompletions
  }

  /** The number of completed days within the last n days, over all habits. */
  function WindowSum(hs: seq<Habit>, today: Day, n: nat): nat
  {
    if |hs| == 0 then 0 else WindowSum(hs[..|hs| - 1], today, n) + |WithinLast(hs[|hs| - 1].completedDates, today, n)|
  }

  /** weeklyProgress (n = 7) and monthlyProgress (n = 30). */
  function Progress(hs: seq<Habit>, today: Day, n: nat): nat
    requires n > 0
  {
    if |hs| > 0 then RoundPercent(WindowSum(hs, today, n), |hs| * n) else 0
  }

  function AppStatsOf(hs: seq<Habit>, today: Day): AppStats
  {
    AppStats(|hs|, ActiveCount(hs), CompletionSum(hs), today, Progress(hs, today, 7), Progress(hs, today, 30))
  }

  /** No active habit means a count of 0; all habits active means a count of all of them. */
  lemma {:induction false} ActiveCountMeaning(hs: seq<Habit>)
    ensures ActiveCount(hs) == 0 <==> forall k :: 0 <= k < |hs| ==> hs[k].currentStreak == 0
    ensures ActiveCount(hs) == |hs| <==> forall k :: 0 <= k < |hs| ==> hs[k].currentStreak > 0
  {
    if |hs| > 0 {
      var init := hs[..|hs| - 1];
      ActiveCountMeaning(init);
      assert forall k :: 0 <= k < |init| ==> init[k] == hs[k];
    }
  }

  /** The active count adds up over concatenation ... */
  lemma {:induction false} ActiveCountAppend(a: seq<Habit>, b: seq<Habit>)
    ensures ActiveCount(a + b) == ActiveCount(a) + ActiveCount(b)
    decreases |b|
  {
    if |b| == 0 {
      assert a + b == a;
    } else {
      ActiveCountAppend(a, b[..|b| - 1]);
      assert (a + b)[..|a + b| - 1] == a + b[..|b| - 1];
    }
  }

  /** ... and one habit counts 1 exactly when its current streak is positive. */
  lemma ActiveCountSingle(h: Habit)
    ensures ActiveCount([h]) == if h.currentStreak > 0 then 1 else 0
  {
    assert [h][..0] == [];
  }

  /** The completion total adds up over concatenation ... */
  lemma {:induction false} CompletionSumAppend(a: seq<Habit>, b: seq<Habit>)
    ensures CompletionSum(a + b) == CompletionSum(a) + CompletionSum(b)
    decreases |b|
  {
    if |b| == 0 {
      assert a + b == a;
    } else {
      CompletionSumAppend(a, b[..|b| - 1]);
      assert (a + b)[..|a + b| - 1] == a + b[..|b| - 1];
    }
  }

  /** ... and one habit contributes its totalCompletions. */
  lemma CompletionSumSingle(h: Habit)
    ensures CompletionSum([h]) == h.totalCompletions
  {
    assert [h][..0] == [];
  }

  /** The number of completed records each habit has in the store, summed over the habits. */
  function RecordTotal(hs: seq<Habit>, records: seq<HabitCompletion>): nat
  {
    if |hs| == 0 then 0 else |CompletedDates(records, hs[0].id)| + RecordTotal(hs[1..], records)
  }

  /** Over refreshed habits, totalCompletions is the habits' completed records counted in the store. */
  lemma {:induction false} CompletionSumRefreshed(hs: seq<Habit>, records: seq<HabitCompletion>, today: Day)
    ensures CompletionSum(RefreshAll(hs, records, today)) == RecordTotal(hs, records)
  {
    if |hs| > 0 {
      var r := RefreshAll(hs, records, today);
      assert r == [r[0]] + RefreshAll(hs[1..], records, today);
      CompletionSumRefreshed(hs[1..], records, today);
      CompletionSumAppend([r[0]], RefreshAll(hs[1..], records, today));
      CompletionSumSingle(r[0]);
    }
  }

  lemma {:induction false} WindowSumBound(hs: seq<Habit>, today: Day, n: nat, cap: nat)
    requires forall k :: 0 <= k < |hs| ==> |WithinLast(hs[k].completedDates, today, n)| <= cap
    ensures WindowSum(hs, today, n) <= |hs| * cap
    ensures (forall k :: 0 <= k < |hs| ==> |WithinLast(hs[k].completedDates, today, n)| == cap) ==>
      WindowSum(hs, today, n) == |hs| * cap
  {
    if |hs| > 0 {
      var init := hs[..|hs| - 1];
      assert forall k :: 0 <= k < |init| ==> init[k] == hs[k];
      WindowSumBound(init, today, n, cap);
      MulSucc(|init|, cap);
    }
  }

  lemma MulSucc(a: nat, c: nat)
    ensures (a + 1) * c == a * c + c
  {
  }

  /**
   * Progress is 0 without habits; it is 100 when every habit has a
   * completion on each of the last n days' worth (n entries in the window),
   * and at most 100 when no habit has more than n.
   */
  lemma ProgressBounds(hs: seq<Habit>, today: Day, n: nat)
    requires n > 0
    ensures |hs| == 0 ==> Progress(hs, today, n) == 0
    ensures (forall k :: 0 <= k < |hs| ==> |WithinLast(hs[k].completedDates, today, n)| <= n) ==>
      Progress(hs, today, n) <= 100
    ensures |hs| > 0 && (forall k :: 0 <= k < |hs| ==> |WithinLast(hs[k].completedDates, today, n)| == n) ==>
      Progress(hs, today, n) == 100
  {
    if |hs| > 0 && forall k :: 0 <= k < |hs| ==> |WithinLast(hs[k].completedDates, today, n)| <= n {
      WindowSumBound(hs, today, n, n);
      RoundPercentBounds(WindowSum(hs, today, n), |hs| * n);
    }
  }

  /** With no habits every statistic is zero. */
  lemma AppStatsEmpty(today: Day)
    ensures AppStatsOf([], today) == AppStats(0, 0, 0, today, 0, 0)
  {
  }

  /**
   * Over refreshed habits the counts mean: activeHabits <= totalHabits, and a
   * habit is active exactly when its latest completed day is within one day
   * of today.
   */
  lemma AppStatsActive(hs: seq<Habit>, records: seq<HabitCompletion>, today: Day, i: nat)
    requires i < |hs|
    ensures var r := RefreshAll(hs, records, today);
      var dates := CompletedDates(records, hs[i].id);
      AppStatsOf(r, today).activeHabits <= AppStatsOf(r, today).totalHabits &&
      (r[i].currentStreak > 0 <==> |dates| > 0 && IsActive(StreakOf(dates, today).lastCompletedDate.value, today))
  {
    StreakActiveIffRecent(CompletedDates(records, hs[i].id), today);
  }

  /** getAppStats: refresh every habit, then compute the statistics from the refreshed list. */
  method GetAppStats(store: RecordStore, today: Day) returns (stats: AppStats)
    modifies store
    ensures stats == AppStatsOf(RefreshAll(old(store.habits), old(store.completions), today), today)
    ensures store.habits == RefreshAll(old(store.habits), old(store.completions), today)
    ensures store.completions == old(store.completions)
  {
    var habits := GetAllHabits(store, today);
    stats := AppStatsOf(habits, today);
  }

  // ----- getContributionData -----

  /** n copies of a habit id. */
  function Rep(id: HabitId, n: nat): (r: seq<HabitId>)
    ensures |r| == n
    ensures forall k :: 0 <= k < n ==> r[k] == id
  {
    if n == 0 then [] else Rep(id, n - 1) + [id]
  }

  /**
   * The ids the map holds for day d once every habit has been walked: each
   * habit in turn, its id once per occurrence of d in its completed days.
   */
  function IdsOn(hs: seq<Habit>, d: Day): seq<HabitId>
  {
    if |hs| == 0 then []
    else IdsOn(hs[..|hs| - 1], d) + Rep(hs[|hs| - 1].id, multiset(hs[|hs| - 1].completedDates)[d])
  }

  /** `allCompletions.get(date) || []` */
  function Lookup(m: map<Day, seq<HabitId>>, d: Day): seq<HabitId>
  {
    if d in m then m[d] else []
  }

  /** One day of the grid. */
  function ContributionEntry(hs: seq<Habit>, d: Day): ContributionData
  {
    ContributionData(d, |IdsOn(hs, d)|, IdsOn(hs, d))
  }

  /** The value of getContributionData: the last 365 days, oldest first, each with its habit ids. */
  function ContributionSeries(hs: seq<Habit>, today: Day): (r: seq<ContributionData>)
    ensures |r| == 365
    ensures forall k :: 0 <= k < 365 ==> r[k] == ContributionEntry(hs, Last365Days(today)[k])
  {
    var days := Last365Days(today);
    seq(365, k requires 0 <= k < 365 => ContributionEntry(hs, days[k]))
  }

  /** The series covers the 365 days ending today, oldest first, each count the number of ids. */
  lemma ContributionSeriesShape(hs: seq<Habit>, today: Day)
    ensures var r := ContributionSeries(hs, today);
      r[0].date == today - 364 && r[364].date == today &&
      (forall k :: 0 <= k < 364 ==> r[k + 1].date == r[k].date + 1) &&
      forall k :: 0 <= k < 365 ==> r[k].count == |r[k].habits| && r[k].habits == IdsOn(hs, r[k].date)
  {
  }

  /** The number of times d occurs in the completed days of the habits with the given id. */
  function OccurrencesFor(hs: seq<Habit>, id: HabitId, d: Day): nat
  {
    if |hs| == 0 then 0 else
      var last := hs[|hs| - 1];
      OccurrencesFor(hs[..|hs| - 1], id, d) + (if last.id == id then multiset(last.completedDates)[d] else 0)
  }

  lemma {:induction false} RepOccurrences(id: HabitId, n: nat, x: HabitId)
    ensures multiset(Rep(id, n))[x] == if x == id then n else 0
  {
    if n > 0 {
      RepOccurrences(id, n - 1, x);
    }
  }

  /** A day's entry lists a habit id once per time that day is among that id's completed days. */
  lemma {:induction false} IdsOnOccurrences(hs: seq<Habit>, d: Day, x: HabitId)
    ensures multiset(IdsOn(hs, d))[x] == OccurrencesFor(hs, x, d)
  {
    if |hs| > 0 {
      var last := hs[|hs| - 1];
      IdsOnOccurrences(hs[..|hs| - 1], d, x);
      RepOccurrences(last.id, multiset(last.completedDates)[d], x);
    }
  }

  /** An id is in a day's entry exactly when a habit with that id was completed that day. */
  lemma {:induction false} IdsOnMembership(hs: seq<Habit>, d: Day, x: HabitId)
    ensures x in IdsOn(hs, d) <==> exists k :: 0 <= k < |hs| && hs[k].id == x && d in hs[k].completedDates
  {
    if |hs| > 0 {
      var init := hs[..|hs| - 1];
      var last := hs[|hs| - 1];
      IdsOnMembership(init, d, x);
      RepOccurrences(last.id, multiset(last.completedDates)[d], x);
      assert x in Rep(last.id, multiset(last.completedDates)[d]) <==> x == last.id && d in last.completedDates;
      if exists k :: 0 <= k < |init| && init[k].id == x && d in init[k].completedDates {
        var k :| 0 <= k < |init| && init[k].id == x && d in init[k].completedDates;
        assert hs[k] == init[k];
      }
      if exists k :: 0 <= k < |hs| && hs[k].id == x && d in hs[k].completedDates {
        var k :| 0 <= k < |hs| && hs[k].id == x && d in hs[k].completedDates;
        if k < |init| {
          assert init[k] == hs[k];
        }
      }
    }
  }

  /** With distinct ids, a habit's id occurs in a day's entry as often as the day occurs among its dates. */
  lemma UniqueIdOccurrences(hs: seq<Habit>, i: nat, d: Day)
    requires i < |hs|
    requires forall a, b :: 0 <= a < b < |hs| ==> hs[a].id != hs[b].id
    ensures multiset(IdsOn(hs, d))[hs[i].id] == multiset(hs[i].completedDates)[d]
  {
    IdsOnOccurrences(hs, d, hs[i].id);
    OccurrencesForSingle(hs, i, d);
  }

  lemma {:induction false} OccurrencesForSingle(hs: seq<Habit>, i: nat, d: Day)
    requires i < |hs|
    requires forall a, b :: 0 <= a < b < |hs| ==> hs[a].id != hs[b].id
    ensures OccurrencesFor(hs, hs[i].id, d) == multiset(hs[i].completedDates)[d]
  {
    var init := hs[..|hs| - 1];
    if i < |hs| - 1 {
      assert init[i] == hs[i];
      OccurrencesForSingle(init, i, d);
    } else {
      OccurrencesForNone(init, hs[i].id, d);
    }
  }

  lemma {:induction false} OccurrencesForNone(hs: seq<Habit>, id: HabitId, d: Day)
    requires forall k :: 0 <= k < |hs| ==> hs[k].id != id
    ensures OccurrencesFor(hs, id, d) == 0
  {
    if |hs| > 0 {
      OccurrencesForNone(hs[..|hs| - 1], id, d);
    }
  }

  /** Pushing the id under the j-th day adds one occurrence of the id under that day only. */
  lemma PushStep(start: map<Day, seq<HabitId>>, m: map<Day, seq<HabitId>>, mid: map<Day, seq<HabitId>>,
                 m': map<Day, seq<HabitId>>, id: HabitId, dates: seq<Day>, j: nat)
    requires j < |dates|
    requires forall d :: Lookup(m, d) == Lookup(start, d) + Rep(id, multiset(dates[..j])[d])
    requires (dates[j] in m && mid == m) || (dates[j] !in m && mid == m[dates[j] := []])
    requires m' == mid[dates[j] := mid[dates[j]] + [id]]
    ensures forall d :: Lookup(m', d) == Lookup(start, d) + Rep(id, multiset(dates[..j + 1])[d])
  {
    var before := multiset(dates[..j]);
    var after := multiset(dates[..j + 1]);
    MultisetSnoc(dates, j);
    forall d
      ensures Lookup(m', d) == Lookup(start, d) + Rep(id, after[d])
    {
      PushOne(start, m, mid, m', id, dates[j], d, before[d], after[d]);
    }
  }

  lemma MultisetSnoc(dates: seq<Day>, j: nat)
    requires j < |dates|
    ensures multiset(dates[..j + 1]) == multiset(dates[..j]) + multiset{dates[j]}
  {
    assert dates[..j + 1] == dates[..j] + [dates[j]];
  }

  /** The push at one day, for the entry of any day d. */
  lemma PushOne(start: map<Day, seq<HabitId>>, m: map<Day, seq<HabitId>>, mid: map<Day, seq<HabitId>>,
                m': map<Day, seq<HabitId>>, id: HabitId, date: Day, d: Day, c: nat, c': nat)
    requires Lookup(m, d) == Lookup(start, d) + Rep(id, c)
    requires (date in m && mid == m) || (date !in m && mid == m[date := []])
    requires m' == mid[date := mid[date] + [id]]
    requires c' == if d == date then c + 1 else c
    ensures Lookup(m', d) == Lookup(start, d) + Rep(id, c')
  {
    if d == date {
      assert Rep(id, c + 1) == Rep(id, c) + [id];
      assert Lookup(start, d) + Rep(id, c) + [id] == Lookup(start, d) + (Rep(id, c) + [id]);
    }
  }

  /** Walking all days of habits[i] completes the walk of habits[..i + 1]. */
  lemma PushedAll(start: map<Day, seq<HabitId>>, m: map<Day, seq<HabitId>>, habits: seq<Habit>, i: nat)
    requires i < |habits|
    requires forall d :: Lookup(start, d) == IdsOn(habits[..i], d)
    requires forall d :: Lookup(m, d) == Lookup(start, d) + Rep(habits[i].id, multiset(habits[i].completedDates)[d])
    ensures forall d :: Lookup(m, d) == IdsOn(habits[..i + 1], d)
  {
    assert habits[..i + 1][..i] == habits[..i];
  }

  /**
   * The map of getContributionData: for each habit in turn, for each of its
   * completed days, push the habit's id under that day.
   */
  method CollectCompletions(habits: seq<Habit>) returns (allCompletions: map<Day, seq<HabitId>>)
    ensures forall d :: Lookup(allCompletions, d) == IdsOn(habits, d)
  {
    allCompletions := map[];
    for i := 0 to |habits|
      invariant forall d :: Lookup(allCompletions, d) == IdsOn(habits[..i], d)
    {
      ghost var start := allCompletions;
      allCompletions := PushHabit(allCompletions, habits[i]);
      PushedAll(start, allCompletions, habits, i);
    }
    assert habits[..|habits|] == habits;
  }

  /** The inner walk: push the habit's id under each of its completed days. */
  method PushHabit(start: map<Day, seq<HabitId>>, habit: Habit) returns (allCompletions: map<Day, seq<HabitId>>)
    ensures forall d :: Lookup(allCompletions, d) == Lookup(start, d) + Rep(habit.id, multiset(habit.completedDates)[d])
  {
    allCompletions := start;
    for j := 0 to |habit.completedDates|
      invariant forall d :: Lookup(allCompletions, d) == Lookup(start, d) + Rep(habit.id, multiset(habit.completedDates[..j])[d])
    {
      var date := habit.completedDates[j];
      ghost var before := allCompletions;
      if date !in allCompletions {
        allCompletions := allCompletions[date := []];
      }
      ghost var mid := allCompletions;
      allCompletions := allCompletions[date := allCompletions[date] + [habit.id]];
      PushStep(start, before, mid, allCompletions, habit.id, habit.completedDates, j);
    }
    assert habit.completedDates[..|habit.completedDates|] == habit.completedDates;
  }

  /** The 365-day walk of getContributionData over the collected map. */
  method BuildContributionData(habits: seq<Habit>, today: Day) returns (contributionData: seq<ContributionData>)
    ensures contributionData == ContributionSeries(habits, today)
  {
    var allCompletions := CollectCompletions(habits);
    contributionData := [];
    var i := 364;
    while i >= 0
      invariant -1 <= i <= 364
      invariant |contributionData| == 364 - i
      invariant forall k :: 0 <= k < 364 - i ==> contributionData[k] == ContributionEntry(habits, today - 364 + k)
    {
      var dateString := today - i;
      var habitIds := Lookup(allCompletions, dateString);
      assert habitIds == IdsOn(habits, dateString);
      contributionData := contributionData + [ContributionData(dateString, |habitIds|, habitIds)];
      i := i - 1;
    }
    SeriesFromEntries(habits, today, contributionData);
  }

  lemma SeriesFromEntries(hs: seq<Habit>, today: Day, s: seq<ContributionData>)
    requires |s| == 365
    requires forall k :: 0 <= k < 365 ==> s[k] == ContributionEntry(hs, today - 364 + k)
    ensures s == ContributionSeries(hs, today)
  {
  }

  /** getContributionData: refresh every habit, then build the grid from the refreshed habits. */
  method GetContributionData(store: RecordStore, today: Day) returns (contributionData: seq<ContributionData>)
    modifies store
    ensures contributionData == ContributionSeries(RefreshAll(old(store.habits), old(store.completions), today), today)
    ensures store.habits == RefreshAll(old(store.habits), old(store.completions), today)
    ensures store.completions == old(store.completions)
  {
    var habits := GetAllHabits(store, today);
    contributionData := BuildContributionData(habits, today);
  }

  // ----- getTopHabits -----

  predicate StreakDescending(s: seq<Habit>)
  {
    forall i, j :: 0 <= i < j < |s| ==> s[i].currentStreak >= s[j].currentStreak
  }

  /** Place h before the first habit with a lower streak (after none of its equals: the sort is stable). */
  function InsertByStreak(h: Habit, s: seq<Habit>): seq<Habit>
  {
    if s == [] || h.currentStreak >= s[0].currentStreak then [h] + s else [s[0]] + InsertByStreak(h, s[1..])
  }

  /** `habits.sort((a, b) => b.currentStreak - a.currentStreak)` */
  function SortByStreak(s: seq<Habit>): seq<Habit>
  {
    if s == [] then [] else InsertByStreak(s[0], SortByStreak(s[1..]))
  }

  lemma {:induction false} InsertByStreakPermutes(h: Habit, s: seq<Habit>)
    ensures multiset(InsertByStreak(h, s)) == multiset(s) + multiset{h}
  {
    if s != [] && h.currentStreak < s[0].currentStreak {
      InsertByStreakPermutes(h, s[1..]);
      assert s == [s[0]] + s[1..];
    }
  }

  /** Inserting a habit into habits whose streaks are at most m keeps every streak at most m. */
  lemma {:induction false} InsertByStreakBounded(h: Habit, s: seq<Habit>, m: int)
    requires h.currentStreak <= m
    requires forall k :: 0 <= k < |s| ==> s[k].currentStreak <= m
    ensures forall k :: 0 <= k < |InsertByStreak(h, s)| ==> InsertByStreak(h, s)[k].currentStreak <= m
  {
    if s != [] && h.currentStreak < s[0].currentStreak {
      InsertByStreakBounded(h, s[1..], m);
    }
  }

  lemma {:induction false} InsertByStreakSorted(h: Habit, s: seq<Habit>)
    requires StreakDescending(s)
    ensures StreakDescending(InsertByStreak(h, s))
  {
    if s != [] && h.currentStreak < s[0].currentStreak {
      var rest := InsertByStreak(h, s[1..]);
      InsertByStreakSorted(h, s[1..]);
      InsertByStreakBounded(h, s[1..], s[0].currentStreak);
      assert InsertByStreak(h, s) == [s[0]] + rest;
    }
  }

  lemma {:induction false} SortByStreakCorrect(s: seq<Habit>)
    ensures multiset(SortByStreak(s)) == multiset(s)
    ensures |SortByStreak(s)| == |s|
    ensures StreakDescending(SortByStreak(s))
  {
    if s != [] {
      SortByStreakCorrect(s[1..]);
      InsertByStreakPermutes(s[0], SortByStreak(s[1..]));
      InsertByStreakSorted(s[0], SortByStreak(s[1..]));
      assert s == [s[0]] + s[1..];
    }
  }

  /** The end index of `slice(0, limit)`: a negative limit counts back from the end. */
  function SliceEnd(n: nat, limit: int): (e: nat)
    ensures e <= n
    ensures limit >= 0 ==> e <= limit
  {
    if limit >= 0 then (if limit <= n then limit else n)
    else if n + limit >= 0 then n + limit else 0
  }

  function TopHabits(hs: seq<Habit>, limit: int): seq<Habit>
  {
    var sorted := SortByStreak(hs);
    SortByStreakCorrect(hs);
    sorted[..SliceEnd(|hs|, limit)]
  }

  /**
   * getTopHabits returns min(limit, n) habits (for a non-negative limit), in
   * non-increasing streak order, drawn from the habits without repetition,
   * and no habit left out has a higher streak than one returned.
   */
  lemma TopHabitsCorrect(hs: seq<Habit>, limit: int)
    ensures var r := TopHabits(hs, limit);
      |r| == SliceEnd(|hs|, limit) &&
      (limit >= 0 ==> |r| == if limit <= |hs| then limit else |hs|) &&
      StreakDescending(r) &&
      multiset(r) <= multiset(hs) &&
      forall x, y :: x in r && y in multiset(hs) - multiset(r) ==> x.currentStreak >= y.currentStreak
  {
    SortByStreakCorrect(hs);
    PrefixDominates(SortByStreak(hs), SliceEnd(|hs|, limit));
  }

  /** In a streak-descending list, every habit of a prefix has at least the streak of any habit after it. */
  lemma PrefixDominates(sorted: seq<Habit>, e: nat)
    requires StreakDescending(sorted) && e <= |sorted|
    ensures StreakDescending(sorted[..e])
    ensures multiset(sorted[..e]) <= multiset(sorted)
    ensures forall x, y :: x in sorted[..e] && y in multiset(sorted) - multiset(sorted[..e]) ==>
      x.currentStreak >= y.currentStreak
  {
    var r := sorted[..e];
    var rest := sorted[e..];
    assert sorted == r + rest;
    assert multiset(sorted) == multiset(r) + multiset(rest);
    PrefixBeforeRest(sorted, e);
    forall x, y | x in r && y in multiset(sorted) - multiset(r)
      ensures x.currentStreak >= y.currentStreak
    {
      assert y in multiset(rest);
    }
  }

  lemma PrefixBeforeRest(sorted: seq<Habit>, e: nat)
    requires StreakDescending(sorted) && e <= |sorted|
    ensures forall x, y :: x in sorted[..e] && y in sorted[e..] ==> x.currentStreak >= y.currentStreak
  {
    forall x, y | x in sorted[..e] && y in sorted[e..]
      ensures x.currentStreak >= y.currentStreak
    {
      var i :| 0 <= i < e && sorted[..e][i] == x;
      var j :| 0 <= j < |sorted| - e && sorted[e..][j] == y;
      assert sorted[i] == x && sorted[e + j] == y;
    }
  }

  /** getTopHabits: the refreshed habits, sorted by current streak, cut at the limit. */
  method GetTopHabits(store: RecordStore, limit: int, today: Day) returns (topHabits: seq<Habit>)
    modifies store
    ensures topHabits == TopHabits(RefreshAll(old(store.habits), old(store.completions), today), limit)
    ensures store.habits == RefreshAll(old(store.habits), old(store.completions), today)
    ensures store.completions == old(store.completions)
  {
    var habits := GetAllHabits(store, today);
    topHabits := TopHabits(habits, limit);
  }

  /** getTopHabits() with the default limit of 5. */
  method GetTopHabitsDefault(store: RecordStore, today: Day) returns (topHabits: seq<Habit>)
    modifies store
    ensures topHabits == TopHabits(RefreshAll(old(store.habits), old(store.completions), today), 5)
    ensures |topHabits| == if |store.habits| <= 5 then |store.habits| else 5
    ensures store.habits == RefreshAll(old(store.habits), old(store.completions), today)
    ensures store.completions == old(store.completions)
  {
    topHabits := GetTopHabits(store, 5, today);
    TopHabitsCorrect(store.habits, 5);
  }

  // ----- getHabitsByCategory -----

  /** `habits.filter(habit => habit.category === category)`: a habit without a category never matches. */
  function HabitsByCategory(hs: seq<Habit>, category: string): seq<Habit>
  {
    if |hs| == 0 then []
    else (if hs[0].category == Some(category) then [hs[0]] else []) + HabitsByCategory(hs[1..], category)
  }

  /** The filter keeps exactly the habits of the category, in their order. */
  lemma {:induction false} HabitsByCategoryCorrect(hs: seq<Habit>, category: string)
    ensures var r := HabitsByCategory(hs, category);
      (forall h :: h in r <==> h in hs && h.category == Some(category)) &&
      |r| <= |hs| &&
      forall k :: 0 <= k < |r| ==> r[k].category == Some(category)
  {
    if |hs| > 0 {
      HabitsByCategoryCorrect(hs[1..], category);
      assert hs == [hs[0]] + hs[1..];
    }
  }

  lemma {:induction false} HabitsByCategoryAppend(a: seq<Habit>, b: seq<Habit>, category: string)
    ensures HabitsByCategory(a + b, category) == HabitsByCategory(a, category) + HabitsByCategory(b, category)
  {
    if |a| > 0 {
      assert (a + b)[1..] == a[1..] + b;
      HabitsByCategoryAppend(a[1..], b, category);
    } else {
      assert a + b == b;
    }
  }

  method GetHabitsByCategory(store: RecordStore, category: string, today: Day) returns (habits: seq<Habit>)
    modifies store
    ensures habits == HabitsByCategory(RefreshAll(old(store.habits), old(store.completions), today), category)
    ensures store.habits == RefreshAll(old(store.habits), old(store.completions), today)
    ensures store.completions == old(store.completions)
  {
    var all := GetAllHabits(store, today);
    habits := HabitsByCategory(all, category);
  }
}
