/**
 * calculateStreak (src/utils/dateUtils.ts): the current streak, the longest
 * streak and the last completed day of one habit's completion days.
 *
 * The source sorts a copy of the date strings and reverses it; the strings
 * sort chronologically (Calendar.FormatDateOrder), so on day numbers this is
 * the descending sort.  Duplicate days are kept: a gap of 0 ends a run.
 */
module Streak {
  import opened Wrappers
  import opened Types
  import opened DateUtils

  // ----- the descending sort -----

  predicate Descending(s: seq<Day>)
  {
    forall i, j :: 0 <= i < j < |s| ==> s[i] >= s[j]
  }

  function Insert(x: Day, s: seq<Day>): seq<Day>
  {
    if s == [] || x >= s[0] then [x] + s else [s[0]] + Insert(x, s[1..])
  }

  /** `[...dates].sort().reverse()` on day numbers. */
  function SortDescending(s: seq<Day>): seq<Day>
  {
    if s == [] then [] else Insert(s[0], SortDescending(s[1..]))
  }

  lemma {:induction false} InsertPermutes(x: Day, s: seq<Day>)
    ensures multiset(Insert(x, s)) == multiset(s) + multiset{x}
  {
    if s != [] && x < s[0] {
      InsertPermutes(x, s[1..]);
      assert s == [s[0]] + s[1..];
    }
  }

  /** Inserting a day no later than m among days no later than m keeps every day at most m. */
  lemma {:induction false} InsertBounded(x: Day, s: seq<Day>, m: Day)
    requires x <= m
    requires forall k :: 0 <= k < |s| ==> s[k] <= m
    ensures forall k :: 0 <= k < |Insert(x, s)| ==> Insert(x, s)[k] <= m
  {
    if s != [] && x < s[0] {
      InsertBounded(x, s[1..], m);
    }
  }

  lemma {:induction false} InsertSorted(x: Day, s: seq<Day>)
    requires Descending(s)
    ensures Descending(Insert(x, s))
  {
    if s != [] && x < s[0] {
      var rest := Insert(x, s[1..]);
      InsertSorted(x, s[1..]);
      InsertBounded(x, s[1..], s[0]);
      assert Insert(x, s) == [s[0]] + rest;
    }
  }

  lemma {:induction false} SortDescendingCorrect(s: seq<Day>)
    ensures multiset(SortDescending(s)) == multiset(s)
    ensures |SortDescending(s)| == |s|
    ensures Descending(SortDescending(s))
  {
    if s != [] {
      SortDescendingCorrect(s[1..]);
      InsertPermutes(s[0], SortDescending(s[1..]));
      InsertSorted(s[0], SortDescending(s[1..]));
      assert s == [s[0]] + s[1..];
    }
    assert |multiset(SortDescending(s))| == |SortDescending(s)|;
  }

  lemma HeadIsGreatest(a: seq<Day>, x: Day)
    requires Descending(a) && x in multiset(a)
    ensures |a| > 0 && x <= a[0]
  {
    assert x in a;
    var k :| 0 <= k < |a| && a[k] == x;
    assert k == 0 || a[0] >= a[k];
  }

  /** Two descending sequences with the same elements are equal. */
  lemma {:induction false} DescendingUnique(a: seq<Day>, b: seq<Day>)
    requires Descending(a) && Descending(b)
    requires multiset(a) == multiset(b)
    ensures a == b
    decreases |a|
  {
    if |a| > 0 {
      assert a[0] in multiset(a);
      HeadIsGreatest(b, a[0]);
      HeadIsGreatest(a, b[0]);
      assert a[0] == b[0];
      var a', b' := a[1..], b[1..];
      assert a == [a[0]] + a' && b == [b[0]] + b';
      assert multiset(a) == multiset{a[0]} + multiset(a');
      assert multiset(b) == multiset{a[0]} + multiset(b');
      forall x
        ensures multiset(a')[x] == multiset(b')[x]
      {
        assert multiset(a)[x] == multiset{a[0]}[x] + multiset(a')[x];
        assert multiset(b)[x] == multiset{a[0]}[x] + multiset(b')[x];
      }
      assert multiset(a') == multiset(b');
      DescendingUnique(a', b');
    } else {
      assert |b| == |multiset(b)| == 0;
    }
  }

  // ----- runs of consecutive days in the descending list -----

  /** The number of entries from index i on that are each one day before the previous one. */
  function RunFrom(s: seq<Day>, i: nat): (n: nat)
    requires i < |s|
    decreases |s| - i
  {
    if i + 1 < |s| && DaysBetween(s[i + 1], s[i]) == 1 then 1 + RunFrom(s, i + 1) else 1
  }

  /** The number of entries up to index j that are each one day before the previous one. */
  function RunTo(s: seq<Day>, j: nat): (n: nat)
    requires j < |s|
  {
    if j > 0 && DaysBetween(s[j], s[j - 1]) == 1 then RunTo(s, j - 1) + 1 else 1
  }

  function Max(a: nat, b: nat): nat
  {
    if a >= b then a else b
  }

  /** The longest run that ends before index n. */
  function MaxRun(s: seq<Day>, n: nat): nat
    requires n <= |s|
  {
    if n == 0 then 0 else Max(MaxRun(s, n - 1), RunTo(s, n - 1))
  }

  /** Reference definition: s[i], ..., s[i + len - 1] are consecutive days, one day apart. */
  ghost predicate DayRun(s: seq<Day>, i: int, len: int)
  {
    0 <= i && 1 <= len && i + len <= |s| &&
    forall k :: i < k < i + len ==> DaysBetween(s[k], s[k - 1]) == 1
  }

  /** Whether the streak still counts: the latest day is today or one day away from it. */
  predicate IsActive(latest: Day, today: Day)
  {
    latest == today || DaysBetween(latest, today) == 1
  }

  /** The value calculateStreak returns. */
  function StreakOf(completedDates: seq<Day>, today: Day): StreakData
  {
    if |completedDates| == 0 then StreakData(0, 0, None)
    else
      var s := SortDescending(completedDates);
      SortDescendingCorrect(completedDates);
      StreakData(if IsActive(s[0], today) then RunFrom(s, 0) else 0, MaxRun(s, |s|), Some(s[0]))
  }

  /** calculateStreak, with `today` passed in. */
  method CalculateStreak(completedDates: seq<Day>, today: Day) returns (result: StreakData)
    ensures result == StreakOf(completedDates, today)
  {
    if |completedDates| == 0 {
      return StreakData(0, 0, None);
    }
    var sortedDates := SortDescending(completedDates);
    SortDescendingCorrect(completedDates);

    var currentStreak: nat := 0;
    var longestStreak: nat := 0;
    var tempStreak: nat := 0;
    var lastDate: Day := 0;

    // Current streak.  The source has one branch for "today" and one for a
    // one-day difference; both run this same walk.
    if sortedDates[0] == today || DaysBetween(sortedDates[0], today) == 1 {
      currentStreak := 1;
      var i := 1;
      while i < |sortedDates|
        invariant 1 <= i <= |sortedDates|
        invariant currentStreak == i
        invariant RunFrom(sortedDates, 0) == i - 1 + RunFrom(sortedDates, i - 1)
      {
        var daysDiff := DaysBetween(sortedDates[i], sortedDates[i - 1]);
        if daysDiff == 1 {
          currentStreak := currentStreak + 1;
        } else {
          break;
        }
        i := i + 1;
      }
    }

    // Longest streak.
    for i := 0 to |sortedDates|
      invariant i == 0 ==> tempStreak == 0 && longestStreak == 0
      invariant 0 < i ==> lastDate == sortedDates[i - 1] && tempStreak == RunTo(sortedDates, i - 1)
      invariant 0 < i ==> Max(longestStreak, tempStreak) == MaxRun(sortedDates, i)
    {
      if i == 0 {
        tempStreak := 1;
        lastDate := sortedDates[i];
      } else {
        var daysDiff := DaysBetween(sortedDates[i], lastDate);
        if daysDiff == 1 {
          tempStreak := tempStreak + 1;
          lastDate := sortedDates[i];
        } else {
          longestStreak := Max(longestStreak, tempStreak);
          tempStreak := 1;
          lastDate := sortedDates[i];
        }
      }
    }
    longestStreak := Max(longestStreak, tempStreak);

    result := StreakData(currentStreak, longestStreak, Some(sortedDates[0]));
  }

  // ----- properties -----

  lemma DayRunFirstStep(s: seq<Day>, i: nat)
    ensures forall len :: DayRun(s, i, len) && len > 1 ==> i + 1 < |s| && DaysBetween(s[i + 1], s[i]) == 1
  {
    forall len | DayRun(s, i, len) && len > 1
      ensures i + 1 < |s| && DaysBetween(s[i + 1], s[i]) == 1
    {
      assert i < i + 1 < i + len;
    }
  }

  lemma DayRunLastStep(s: seq<Day>, j: nat)
    ensures forall i, len :: DayRun(s, i, len) && i + len == j + 1 && len > 1 ==>
      0 < j < |s| && DaysBetween(s[j], s[j - 1]) == 1
  {
    forall i, len | DayRun(s, i, len) && i + len == j + 1 && len > 1
      ensures 0 < j < |s| && DaysBetween(s[j], s[j - 1]) == 1
    {
      assert i < j < i + len;
    }
  }

  lemma {:induction false} RunFromIsMaximal(s: seq<Day>, i: nat)
    requires i < |s|
    ensures DayRun(s, i, RunFrom(s, i))
    ensures forall len :: DayRun(s, i, len) ==> len <= RunFrom(s, i)
    decreases |s| - i
  {
    if i + 1 < |s| && DaysBetween(s[i + 1], s[i]) == 1 {
      RunFromIsMaximal(s, i + 1);
      forall len | DayRun(s, i, len)
        ensures len <= RunFrom(s, i)
      {
        if len > 1 {
          assert DayRun(s, i + 1, len - 1);
        }
      }
    } else {
      DayRunFirstStep(s, i);
    }
  }

  lemma {:induction false} RunToIsMaximal(s: seq<Day>, j: nat)
    requires j < |s|
    ensures DayRun(s, j - RunTo(s, j) + 1, RunTo(s, j))
    ensures forall i, len :: DayRun(s, i, len) && i + len == j + 1 ==> len <= RunTo(s, j)
  {
    if j > 0 && DaysBetween(s[j], s[j - 1]) == 1 {
      RunToIsMaximal(s, j - 1);
      forall i, len | DayRun(s, i, len) && i + len == j + 1
        ensures len <= RunTo(s, j)
      {
        if len > 1 {
          assert DayRun(s, i, len - 1);
        }
      }
    } else {
      DayRunLastStep(s, j);
    }
  }

  lemma {:induction false} MaxRunIsLongest(s: seq<Day>, n: nat)
    requires n <= |s|
    ensures n > 0 ==> exists i :: DayRun(s, i, MaxRun(s, n)) && i + MaxRun(s, n) <= n
    ensures forall i, len :: DayRun(s, i, len) && i + len <= n ==> len <= MaxRun(s, n)
  {
    if n > 0 {
      MaxRunIsLongest(s, n - 1);
      RunToIsMaximal(s, n - 1);
      var r := RunTo(s, n - 1);
      forall i, len | DayRun(s, i, len) && i + len <= n
        ensures len <= MaxRun(s, n)
      {
        if i + len < n {
          assert DayRun(s, i, len) && i + len <= n - 1;
        }
      }
      if MaxRun(s, n - 1) < r || n == 1 {
        assert DayRun(s, n - 1 - r + 1, r);
      }
    }
  }

  /** No completions: both streaks are 0 and there is no last completed day. */
  lemma StreakOfEmpty(today: Day)
    ensures StreakOf([], today) == StreakData(0, 0, None)
  {
  }

  /** lastCompletedDate is the greatest day of the input. */
  lemma StreakLastCompleted(completedDates: seq<Day>, today: Day)
    ensures StreakOf(completedDates, today).lastCompletedDate.None? <==> |completedDates| == 0
    ensures |completedDates| > 0 ==>
      var latest := StreakOf(completedDates, today).lastCompletedDate.value;
      latest in completedDates && forall d :: d in completedDates ==> d <= latest
  {
    if |completedDates| > 0 {
      var s := SortDescending(completedDates);
      SortDescendingCorrect(completedDates);
      assert s[0] in multiset(completedDates);
      forall d | d in completedDates
        ensures d <= s[0]
      {
        assert d in multiset(s);
      }
    }
  }

  /** The current streak is non-zero exactly when the latest day is within one day of today. */
  lemma StreakActiveIffRecent(completedDates: seq<Day>, today: Day)
    ensures var r := StreakOf(completedDates, today);
      r.currentStreak > 0 <==> r.lastCompletedDate.Some? && DaysBetween(r.lastCompletedDate.value, today) <= 1
  {
  }

  /**
   * An active current streak is the longest run of one-day steps that starts
   * at the latest day of the descending list.
   */
  lemma CurrentStreakIsLeadingRun(completedDates: seq<Day>, today: Day)
    requires |completedDates| > 0
    requires IsActive(StreakOf(completedDates, today).lastCompletedDate.value, today)
    ensures var s, c := SortDescending(completedDates), StreakOf(completedDates, today).currentStreak;
      DayRun(s, 0, c) && forall len :: DayRun(s, 0, len) ==> len <= c
  {
    SortDescendingCorrect(completedDates);
    RunFromIsMaximal(SortDescending(completedDates), 0);
  }

  /**
   * For a non-empty input the longest streak is at least 1 and is the length
   * of a longest run of one-day steps anywhere in the descending list.
   */
  lemma LongestStreakIsLongestRun(completedDates: seq<Day>, today: Day)
    requires |completedDates| > 0
    ensures var s, l := SortDescending(completedDates), StreakOf(completedDates, today).longestStreak;
      1 <= l &&
      (exists i :: DayRun(s, i, l)) &&
      forall i, len :: DayRun(s, i, len) ==> len <= l
  {
    var s := SortDescending(completedDates);
    SortDescendingCorrect(completedDates);
    MaxRunIsLongest(s, |s|);
    RunToIsMaximal(s, 0);
    assert DayRun(s, 0, 1);
  }

  /** The longest streak is never less than the current streak. */
  lemma LongestAtLeastCurrent(completedDates: seq<Day>, today: Day)
    ensures StreakOf(completedDates, today).currentStreak <= StreakOf(completedDates, today).longestStreak
  {
    if |completedDates| > 0 {
      var s := SortDescending(completedDates);
      SortDescendingCorrect(completedDates);
      RunFromIsMaximal(s, 0);
      MaxRunIsLongest(s, |s|);
    }
  }

  /** The input is copied before sorting: the result depends only on which days occur how often. */
  lemma StreakOrderIndependent(a: seq<Day>, b: seq<Day>, today: Day)
    requires multiset(a) == multiset(b)
    ensures StreakOf(a, today) == StreakOf(b, today)
  {
    SortDescendingCorrect(a);
    SortDescendingCorrect(b);
    DescendingUnique(SortDescending(a), SortDescending(b));
    assert |a| == |multiset(a)| == |multiset(b)| == |b|;
  }

  // ----- worked examples (day 19723 is 2024-01-01, see Calendar.NewYear2024) -----

  /** Completions on 2024-01-01 through 2024-01-05, asked on 2024-01-05. */
  lemma FiveDayScenario()
    ensures StreakOf([19723, 19724, 19725, 19726, 19727], 19727) == StreakData(5, 5, Some(19727))
  {
  }

  /** Completions on 2024-01-01, 01-02 and 01-05, asked on 2024-01-06. */
  lemma GapScenario()
    ensures StreakOf([19723, 19724, 19727], 19728) == StreakData(1, 2, Some(19727))
  {
    assert SortDescending([19727]) == [19727];
    assert SortDescending([19724, 19727]) == [19727, 19724];
    var s := [19727, 19724, 19723];
    assert SortDescending([19723, 19724, 19727]) == s;
    assert RunFrom(s, 0) == 1;
    assert RunTo(s, 0) == 1 && RunTo(s, 1) == 1 && RunTo(s, 2) == 2;
    assert MaxRun(s, 1) == 1 && MaxRun(s, 2) == 1 && MaxRun(s, 3) == 2;
  }

  /** A single completion on 2023-01-01, asked on 2024-06-01 (day 19875). */
  lemma LongAgoScenario()
    ensures StreakOf([19358], 19875) == StreakData(0, 1, Some(19358))
  {
  }

  /**
   * Duplicates are not removed: 2024-01-05 listed twice and 2024-01-04, asked
   * on 2024-01-05, give a current streak of 1 (the gap of 0 ends the walk)
   * while the longest streak is 2.
   */
  lemma DuplicateScenario()
    ensures StreakOf([19727, 19727, 19726], 19727) == StreakData(1, 2, Some(19727))
  {
    assert SortDescending([19726]) == [19726];
    assert SortDescending([19727, 19726]) == [19727, 19726];
    var s := [19727, 19727, 19726];
    assert SortDescending([19727, 19727, 19726]) == s;
    assert RunFrom(s, 0) == 1;
    assert RunTo(s, 0) == 1 && RunTo(s, 1) == 1 && RunTo(s, 2) == 2;
    assert MaxRun(s, 1) == 1 && MaxRun(s, 2) == 1 && MaxRun(s, 3) == 2;
  }

  /** The day difference is unsigned, so a completion dated tomorrow keeps the streak active. */
  lemma TomorrowScenario(today: Day)
    ensures StreakOf([today + 1], today).currentStreak == 1
  {
    assert SortDescending([today + 1]) == [today + 1];
  }
}
