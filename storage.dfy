/**
 * The habit record store (src/services/storage.ts): the habits list and the
 * completion-toggle records, held in memory.
 */
module Storage {
  import opened Wrappers
  import opened Types
  import opened DateUtils

  // ----- completion records -----

  predicate Matches(c: HabitCompletion, habitId: HabitId, date: Day)
  {
    c.habitId == habitId && c.date == date
  }

  function FindCompletionFrom(cs: seq<HabitCompletion>, habitId: HabitId, date: Day, i: nat): (r: Option<nat>)
    requires i <= |cs|
    ensures r.Some? ==> (i <= r.value < |cs| && Matches(cs[r.value], habitId, date) &&
      forall k :: i <= k < r.value ==> !Matches(cs[k], habitId, date))
    ensures r.None? ==> forall k :: i <= k < |cs| ==> !Matches(cs[k], habitId, date)
    decreases |cs| - i
  {
    if i == |cs| then None
    else if Matches(cs[i], habitId, date) then Some(i)
    else FindCompletionFrom(cs, habitId, date, i + 1)
  }

  /** findIndex: the first record of the pair (habitId, date), if any. */
  function FindCompletion(cs: seq<HabitCompletion>, habitId: HabitId, date: Day): (r: Option<nat>)
    ensures r.Some? ==> (r.value < |cs| && Matches(cs[r.value], habitId, date) &&
      forall k :: 0 <= k < r.value ==> !Matches(cs[k], habitId, date))
    ensures r.None? ==> forall k :: 0 <= k < |cs| ==> !Matches(cs[k], habitId, date)
  {
    FindCompletionFrom(cs, habitId, date, 0)
  }

  /** The records after toggleHabitCompletion: flip the pair's record, or append a completed one. */
  function Toggle(cs: seq<HabitCompletion>, habitId: HabitId, date: Day): seq<HabitCompletion>
  {
    match FindCompletion(cs, habitId, date)
    case Some(i) => cs[i := cs[i].(completed := !cs[i].completed)]
    case None => cs + [HabitCompletion(habitId, date, true)]
  }

  /** getHabitCompletions: the dates of the habit's completed records, in stored order. */
  function CompletedDates(cs: seq<HabitCompletion>, habitId: HabitId): seq<Day>
  {
    if |cs| == 0 then []
    else
      var last := cs[|cs| - 1];
      CompletedDates(cs[..|cs| - 1], habitId) + (if last.habitId == habitId && last.completed then [last.date] else [])
  }

  /** The store invariant: at most one record per (habit, date) pair. */
  predicate UniqueRecords(cs: seq<HabitCompletion>)
  {
    forall i, j :: 0 <= i < j < |cs| ==> !Matches(cs[j], cs[i].habitId, cs[i].date)
  }

  lemma {:induction false} CompletedDatesAppend(a: seq<HabitCompletion>, b: seq<HabitCompletion>, habitId: HabitId)
    ensures CompletedDates(a + b, habitId) == CompletedDates(a, habitId) + CompletedDates(b, habitId)
    decreases |b|
  {
    if |b| == 0 {
      assert a + b == a;
    } else {
      var b' := b[..|b| - 1];
      assert (a + b)[..|a + b| - 1] == a + b';
      CompletedDatesAppend(a, b', habitId);
    }
  }

  /**
   * getHabitCompletions selects, in order, the dates of the records that
   * belong to the habit and are marked completed: it distributes over
   * concatenation, and a single record contributes its date exactly when it
   * is such a record.
   */
  lemma CompletedDatesFilter(a: seq<HabitCompletion>, b: seq<HabitCompletion>, c: HabitCompletion, habitId: HabitId)
    ensures CompletedDates(a + b, habitId) == CompletedDates(a, habitId) + CompletedDates(b, habitId)
    ensures CompletedDates([c], habitId) == if c.habitId == habitId && c.completed then [c.date] else []
  {
    CompletedDatesAppend(a, b, habitId);
    assert [c][..0] == [];
  }

  lemma {:induction false} CompletedDatesMembership(cs: seq<HabitCompletion>, habitId: HabitId, d: Day)
    ensures d in CompletedDates(cs, habitId) <==>
      exists k :: 0 <= k < |cs| && cs[k] == HabitCompletion(habitId, d, true)
  {
    if |cs| > 0 {
      var init := cs[..|cs| - 1];
      CompletedDatesMembership(init, habitId, d);
      if exists k :: 0 <= k < |init| && init[k] == HabitCompletion(habitId, d, true) {
        var k :| 0 <= k < |init| && init[k] == HabitCompletion(habitId, d, true);
        assert cs[k] == init[k];
      }
    }
  }

  /** Toggling a pair that has a record flips that record in place; nothing else changes. */
  lemma ToggleExisting(cs: seq<HabitCompletion>, habitId: HabitId, date: Day, i: nat)
    requires i < |cs| && Matches(cs[i], habitId, date)
    requires forall k :: 0 <= k < i ==> !Matches(cs[k], habitId, date)
    ensures var r := Toggle(cs, habitId, date);
      |r| == |cs| &&
      r[i] == HabitCompletion(habitId, date, !cs[i].completed) &&
      forall k :: 0 <= k < |cs| && k != i ==> r[k] == cs[k]
  {
    var f := FindCompletion(cs, habitId, date);
    assert f == Some(i);
  }

  /** Toggling a pair with no record appends one completed record at the end. */
  lemma ToggleAbsent(cs: seq<HabitCompletion>, habitId: HabitId, date: Day)
    requires forall k :: 0 <= k < |cs| ==> !Matches(cs[k], habitId, date)
    ensures Toggle(cs, habitId, date) == cs + [HabitCompletion(habitId, date, true)]
  {
    var f := FindCompletion(cs, habitId, date);
    assert f == None;
  }

  /** Toggle keeps at most one record per (habit, date) pair. */
  lemma TogglePreservesUnique(cs: seq<HabitCompletion>, habitId: HabitId, date: Day)
    requires UniqueRecords(cs)
    ensures UniqueRecords(Toggle(cs, habitId, date))
  {
    var r := Toggle(cs, habitId, date);
    match FindCompletion(cs, habitId, date)
    case Some(i) =>
      forall a, b | 0 <= a < b < |r|
        ensures !Matches(r[b], r[a].habitId, r[a].date)
      {
        assert Matches(r[b], r[a].habitId, r[a].date) <==> Matches(cs[b], cs[a].habitId, cs[a].date);
      }
    case None =>
      forall a, b | 0 <= a < b < |r|
        ensures !Matches(r[b], r[a].habitId, r[a].date)
      {
        if b == |cs| {
          assert !Matches(cs[a], habitId, date);
        }
      }
  }

  /** Toggling the same pair twice leaves every habit's completion dates as they were. */
  lemma ToggleTwice(cs: seq<HabitCompletion>, habitId: HabitId, date: Day, anyHabit: HabitId)
    ensures CompletedDates(Toggle(Toggle(cs, habitId, date), habitId, date), anyHabit) == CompletedDates(cs, anyHabit)
  {
    var once := Toggle(cs, habitId, date);
    match FindCompletion(cs, habitId, date)
    case Some(i) =>
      ToggleExisting(cs, habitId, date, i);
      ToggleExisting(once, habitId, date, i);
      assert Toggle(once, habitId, date) == cs;
    case None =>
      ToggleAbsent(cs, habitId, date);
      ToggleExisting(once, habitId, date, |cs|);
      var twice := Toggle(once, habitId, date);
      assert twice == cs + [HabitCompletion(habitId, date, false)];
      CompletedDatesFilter(cs, [HabitCompletion(habitId, date, false)], HabitCompletion(habitId, date, false), anyHabit);
  }

  /** A habit with no records has no completed days. */
  lemma {:induction false} CompletedDatesUnknown(cs: seq<HabitCompletion>, habitId: HabitId)
    requires forall k :: 0 <= k < |cs| ==> cs[k].habitId != habitId
    ensures CompletedDates(cs, habitId) == []
  {
    if |cs| > 0 {
      CompletedDatesUnknown(cs[..|cs| - 1], habitId);
    }
  }

  /** Toggling a pair when no record exists grows the record list by one, even after a second toggle. */
  lemma ToggleTwiceAbsentKeepsRecord(cs: seq<HabitCompletion>, habitId: HabitId, date: Day)
    requires forall k :: 0 <= k < |cs| ==> !Matches(cs[k], habitId, date)
    ensures Toggle(Toggle(cs, habitId, date), habitId, date) == cs + [HabitCompletion(habitId, date, false)]
  {
    ToggleAbsent(cs, habitId, date);
    ToggleExisting(Toggle(cs, habitId, date), habitId, date, |cs|);
  }

  /**
   * Under the store invariant, toggling (habitId, date) adds the date to the
   * habit's completion dates if it was missing and removes it otherwise; the
   * habit's other dates and every other habit's dates are unaffected.
   */
  lemma ToggleFlipsMembership(cs: seq<HabitCompletion>, habitId: HabitId, date: Day, h: HabitId, d: Day)
    requires UniqueRecords(cs)
    ensures d in CompletedDates(Toggle(cs, habitId, date), h) <==>
      if h == habitId && d == date then d !in CompletedDates(cs, h) else d in CompletedDates(cs, h)
  {
    var r := Toggle(cs, habitId, date);
    CompletedDatesMembership(cs, h, d);
    CompletedDatesMembership(r, h, d);
    match FindCompletion(cs, habitId, date)
    case Some(i) =>
      ToggleExisting(cs, habitId, date, i);
      if h == habitId && d == date {
        forall k | 0 <= k < |cs| && k != i
          ensures !Matches(cs[k], h, d)
        {
          if k < i {
          } else {
            assert !Matches(cs[k], cs[i].habitId, cs[i].date);
          }
        }
      } else {
        if exists k :: 0 <= k < |cs| && cs[k] == HabitCompletion(h, d, true) {
          var k :| 0 <= k < |cs| && cs[k] == HabitCompletion(h, d, true);
          assert r[k] == cs[k];
        }
        if exists k :: 0 <= k < |r| && r[k] == HabitCompletion(h, d, true) {
          var k :| 0 <= k < |r| && r[k] == HabitCompletion(h, d, true);
          assert r[k] == cs[k];
        }
      }
    case None =>
      ToggleAbsent(cs, habitId, date);
      if exists k :: 0 <= k < |cs| && cs[k] == HabitCompletion(h, d, true) {
        var k :| 0 <= k < |cs| && cs[k] == HabitCompletion(h, d, true);
        assert r[k] == cs[k];
      }
  }

  /** Under the store invariant a habit's completion dates are distinct. */
  lemma {:induction false} UniqueRecordsDistinctDates(cs: seq<HabitCompletion>, habitId: HabitId)
    requires UniqueRecords(cs)
    ensures NoDuplicates(CompletedDates(cs, habitId))
  {
    if |cs| > 0 {
      var init := cs[..|cs| - 1];
      var last := cs[|cs| - 1];
      assert UniqueRecords(init);
      UniqueRecordsDistinctDates(init, habitId);
      var ds0 := CompletedDates(init, habitId);
      assert cs[..|cs| - 1] == init;
      if last.habitId == habitId && last.completed {
        CompletedDatesMembership(init, habitId, last.date);
        var ds := CompletedDates(cs, habitId);
        assert ds == ds0 + [last.date];
        forall i, j | 0 <= i < j < |ds| ensures ds[i] != ds[j] {
          if j == |ds| - 1 {
            assert ds[i] == ds0[i];
            assert ds0[i] in ds0;
          } else {
            assert ds[i] == ds0[i] && ds[j] == ds0[j];
          }
        }
      }
    }
  }

  // ----- habits -----

  /** findIndex on the habit id. */
  function FindHabit(hs: seq<Habit>, habitId: HabitId): (r: Option<nat>)
    ensures r.Some? ==> (r.value < |hs| && hs[r.value].id == habitId &&
      forall k :: 0 <= k < r.value ==> hs[k].id != habitId)
    ensures r.None? ==> forall k :: 0 <= k < |hs| ==> hs[k].id != habitId
  {
    if |hs| == 0 then None
    else if hs[0].id == habitId then Some(0)
    else match FindHabit(hs[1..], habitId)
      case Some(i) => Some(i + 1)
      case None => None
  }

  /** The habits after updateHabit: the first habit with the same id is replaced. */
  function ReplaceHabit(hs: seq<Habit>, updatedHabit: Habit): seq<Habit>
  {
    match FindHabit(hs, updatedHabit.id)
    case Some(i) => hs[i := updatedHabit]
    case None => hs
  }

  /** The habits after deleteHabit: those with a different id, in order. */
  function RemoveHabit(hs: seq<Habit>, habitId: HabitId): seq<Habit>
  {
    if |hs| == 0 then []
    else (if hs[0].id == habitId then [] else [hs[0]]) + RemoveHabit(hs[1..], habitId)
  }

  /** updateHabit replaces exactly the first habit with the same id, or changes nothing. */
  lemma ReplaceHabitEffect(hs: seq<Habit>, updatedHabit: Habit)
    ensures var r := ReplaceHabit(hs, updatedHabit);
      |r| == |hs| &&
      ((forall k :: 0 <= k < |hs| ==> hs[k].id != updatedHabit.id) ==> r == hs) &&
      forall i :: 0 <= i < |hs| && hs[i].id == updatedHabit.id && (forall k :: 0 <= k < i ==> hs[k].id != updatedHabit.id) ==>
        r == hs[i := updatedHabit]
  {
    var f := FindHabit(hs, updatedHabit.id);
    forall i | 0 <= i < |hs| && hs[i].id == updatedHabit.id && (forall k :: 0 <= k < i ==> hs[k].id != updatedHabit.id)
      ensures f == Some(i)
    {
    }
  }

  /** deleteHabit drops every habit with that id and keeps the others in order. */
  lemma {:induction false} RemoveHabitEffect(hs: seq<Habit>, habitId: HabitId)
    ensures var r := RemoveHabit(hs, habitId);
      (forall h :: h in r <==> h in hs && h.id != habitId) &&
      |r| <= |hs| &&
      ((forall k :: 0 <= k < |hs| ==> hs[k].id != habitId) ==> r == hs)
  {
    if |hs| > 0 {
      RemoveHabitEffect(hs[1..], habitId);
      assert hs == [hs[0]] + hs[1..];
    }
  }

  lemma {:induction false} RemoveHabitAppend(a: seq<Habit>, b: seq<Habit>, habitId: HabitId)
    ensures RemoveHabit(a + b, habitId) == RemoveHabit(a, habitId) + RemoveHabit(b, habitId)
  {
    if |a| > 0 {
      assert (a + b)[1..] == a[1..] + b;
      RemoveHabitAppend(a[1..], b, habitId);
    } else {
      assert a + b == b;
    }
  }

  /** The store: two lists, each written back whole by the operations that change it. */
  class RecordStore {
    var habits: seq<Habit>
    var completions: seq<HabitCompletion>

    /** A store with no data (nothing saved under either key yet). */
    constructor ()
      ensures habits == [] && completions == []
    {
      habits := [];
      completions := [];
    }

    method GetHabits() returns (r: seq<Habit>)
      ensures r == habits
    {
      r := habits;
    }

    method SaveHabits(newHabits: seq<Habit>)
      modifies this
      ensures habits == newHabits && completions == old(completions)
    {
      habits := newHabits;
    }

    /** addHabit: push at the end. */
    method AddHabit(habit: Habit)
      modifies this
      ensures habits == old(habits) + [habit] && completions == old(completions)
    {
      var hs := GetHabits();
      hs := hs + [habit];
      SaveHabits(hs);
    }

    /** updateHabit: replace the first habit with the same id; nothing is written if there is none. */
    method UpdateHabit(updatedHabit: Habit)
      modifies this
      ensures habits == ReplaceHabit(old(habits), updatedHabit) && completions == old(completions)
    {
      var hs := GetHabits();
      var index := 0;
      while index < |hs| && hs[index].id != updatedHabit.id
        invariant 0 <= index <= |hs|
        invariant forall k :: 0 <= k < index ==> hs[k].id != updatedHabit.id
      {
        index := index + 1;
      }
      ReplaceHabitEffect(hs, updatedHabit);
      if index < |hs| {
        hs := hs[index := updatedHabit];
        SaveHabits(hs);
      }
    }

    /** deleteHabit: keep the habits with another id; the completion records stay. */
    method DeleteHabit(habitId: HabitId)
      modifies this
      ensures habits == RemoveHabit(old(habits), habitId) && completions == old(completions)
    {
      var hs := GetHabits();
      SaveHabits(RemoveHabit(hs, habitId));
    }

    method GetCompletions() returns (r: seq<HabitCompletion>)
      ensures r == completions
    {
      r := completions;
    }

    method SaveCompletions(newCompletions: seq<HabitCompletion>)
      modifies this
      ensures completions == newCompletions && habits == old(habits)
    {
      completions := newCompletions;
    }

    /** toggleHabitCompletion: flip the pair's record in place, or push a completed one. */
    method ToggleHabitCompletion(habitId: HabitId, date: Day)
      modifies this
      ensures completions == Toggle(old(completions), habitId, date) && habits == old(habits)
      ensures UniqueRecords(old(completions)) ==> UniqueRecords(completions)
    {
      var cs := GetCompletions();
      ghost var original := cs;
      var existingIndex := 0;
      while existingIndex < |cs| && !(cs[existingIndex].habitId == habitId && cs[existingIndex].date == date)
        invariant 0 <= existingIndex <= |cs|
        invariant forall k :: 0 <= k < existingIndex ==> !Matches(cs[k], habitId, date)
      {
        existingIndex := existingIndex + 1;
      }
      if existingIndex < |cs| {
        ToggleExisting(cs, habitId, date, existingIndex);
        cs := cs[existingIndex := cs[existingIndex].(completed := !cs[existingIndex].completed)];
      } else {
        ToggleAbsent(cs, habitId, date);
        cs := cs + [HabitCompletion(habitId, date, true)];
      }
      SaveCompletions(cs);
      if UniqueRecords(original) {
        TogglePreservesUnique(original, habitId, date);
      }
    }

    /** getHabitCompletions */
    method GetHabitCompletions(habitId: HabitId) returns (dates: seq<Day>)
      ensures dates == CompletedDates(completions, habitId)
    {
      var cs := GetCompletions();
      dates := CompletedDates(cs, habitId);
    }

    /** clearAllData: remove both keys; afterwards both lists read as empty. */
    method ClearAllData()
      modifies this
      ensures habits == [] && completions == []
    {
      habits := [];
      completions := [];
    }

    method ExportData() returns (exportedHabits: seq<Habit>, exportedCompletions: seq<HabitCompletion>)
      ensures exportedHabits == habits && exportedCompletions == completions
    {
      exportedHabits := GetHabits();
      exportedCompletions := GetCompletions();
    }

    method ImportData(importedHabits: seq<Habit>, importedCompletions: seq<HabitCompletion>)
      modifies this
      ensures habits == importedHabits && completions == importedCompletions
    {
      SaveHabits(importedHabits);
      SaveCompletions(importedCompletions);
    }
  }
}
