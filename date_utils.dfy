/**
 * Calendar-day helpers of the habit tracker (src/utils/dateUtils.ts),
 * on day numbers with `today` passed in explicitly.
 */
module DateUtils {
  import opened Wrappers
  import opened Types
  import Calendar

  /** getDaysBetween: the whole number of days between two days, in either order. */
  function DaysBetween(startDate: Day, endDate: Day): (r: nat)
    ensures r == 0 <==> startDate == endDate
    ensures startDate <= endDate ==> startDate + r == endDate
    ensures endDate <= startDate ==> endDate + r == startDate
  {
    if startDate <= endDate then endDate - startDate else startDate - endDate
  }

  lemma DaysBetweenSymmetric(a: Day, b: Day)
    ensures DaysBetween(a, b) == DaysBetween(b, a)
  {
  }

  /** getDaysAgo: the day `days` days before today. */
  function DaysAgo(days: int, today: Day): (r: Day)
    ensures r + days == today
    ensures days >= 0 ==> DaysBetween(r, today) == days
  {
    today - days
  }

  /** isToday */
  predicate IsToday(date: Day, today: Day)
  {
    date == today
  }

  /** isYesterday: the date equals getDaysAgo(1). */
  predicate IsYesterday(date: Day, today: Day)
  {
    date == DaysAgo(1, today)
  }

  lemma YesterdayIsOneDayBefore(date: Day, today: Day)
    ensures IsYesterday(date, today) <==> date + 1 == today
    ensures IsYesterday(date, today) ==> !IsToday(date, today) && DaysBetween(date, today) == 1
  {
  }

  /** The 365 days ending today, oldest first (the value of getLast365Days). */
  function Last365Days(today: Day): (r: seq<Day>)
    ensures |r| == 365
    ensures r[0] == DaysAgo(364, today) && r[364] == today
    ensures forall k :: 0 < k < |r| ==> r[k] == r[k - 1] + 1
    ensures forall i, j :: 0 <= i < j < |r| ==> r[i] < r[j]
  {
    seq(365, k => today - 364 + k)
  }

  /** getLast365Days: pushes getDaysAgo(i) for i = 364 down to 0. */
  method GetLast365Days(today: Day) returns (dates: seq<Day>)
    ensures dates == Last365Days(today)
  {
    dates := [];
    var i := 364;
    while i >= 0
      invariant -1 <= i <= 364
      invariant |dates| == 364 - i
      invariant forall k :: 0 <= k < |dates| ==> dates[k] == today - 364 + k
    {
      dates := dates + [DaysAgo(i, today)];
      i := i - 1;
    }
  }

  /**
   * The label getRelativeDateString chooses.  The last branch formats the
   * date with the locale's month and day; here it only carries the date.
   */
  datatype RelativeDate = TodayLabel | YesterdayLabel | DaysAgoLabel(days: nat) | MonthDayLabel(date: Day)

  /**
   * getRelativeDateString.  Because the day difference is unsigned, a date
   * up to a week in the future also gets an "n days ago" label.
   */
  function RelativeDateString(date: Day, today: Day): (r: RelativeDate)
    ensures r == TodayLabel <==> date == today
    ensures r == YesterdayLabel <==> date + 1 == today
    ensures r.DaysAgoLabel? <==> today - 7 <= date <= today - 2 || today + 1 <= date <= today + 7
    ensures r.DaysAgoLabel? ==> r.days == DaysBetween(date, today) && 1 <= r.days <= 7
    ensures r.MonthDayLabel? <==> DaysBetween(date, today) > 7
    ensures r.MonthDayLabel? ==> r.date == date
  {
    if IsToday(date, today) then TodayLabel
    else if IsYesterday(date, today) then YesterdayLabel
    else
      var daysDiff := DaysBetween(date, today);
      if daysDiff <= 7 then DaysAgoLabel(daysDiff) else MonthDayLabel(date)
  }

  // ----- getWeekNumber -----

  /** getDay: 0 for Sunday through 6 for Saturday (1970-01-01 was a Thursday). */
  function WeekDay(date: Day): (r: int)
    ensures 0 <= r < 7
  {
    (date + 4) % 7
  }

  /** The Thursday of the Monday-to-Sunday week of `date` (`getDay() || 7` counts Sunday as 7). */
  function ThursdayOf(date: Day): Day
  {
    var isoDay := if WeekDay(date) == 0 then 7 else WeekDay(date);
    date + 4 - isoDay
  }

  /**
   * getWeekNumber: the ISO 8601 week number (ISO 8601:2004 section 4.1.4),
   * counted in the year of the week's Thursday.
   */
  function WeekNumber(date: Day): (w: int)
    ensures 1 <= w <= 53
  {
    var thursday := ThursdayOf(date);
    var year := Calendar.YearOf(thursday);
    Calendar.YearStartStep(year);
    var daysIntoYear := thursday - Calendar.YearStart(year);
    // Math.ceil((daysIntoYear + 1) / 7)
    (daysIntoYear + 1 + 6) / 7
  }

  /** Every day from a Monday to the following Sunday has the same week number. */
  lemma WeekNumberConstantOnWeek(monday: Day, k: int)
    requires WeekDay(monday) == 1 && 0 <= k < 7
    ensures WeekNumber(monday + k) == WeekNumber(monday)
  {
    assert ThursdayOf(monday + k) == monday + 3;
    assert ThursdayOf(monday) == monday + 3;
  }

  /** 4 January is always in week 1. */
  lemma WeekOfJanuaryFourth(y: int)
    ensures WeekNumber(Calendar.YearStart(y) + 3) == 1
  {
    var t := ThursdayOf(Calendar.YearStart(y) + 3);
    Calendar.YearStartStep(y);
    Calendar.YearOfUnique(y, t);
  }

  /** Within one ISO year, the next week's number is one more. */
  lemma WeekNumberNextWeek(date: Day)
    requires Calendar.YearOf(ThursdayOf(date + 7)) == Calendar.YearOf(ThursdayOf(date))
    ensures WeekNumber(date + 7) == WeekNumber(date) + 1
  {
    assert WeekDay(date + 7) == WeekDay(date);
    assert ThursdayOf(date + 7) == ThursdayOf(date) + 7;
  }

  // ----- generateContributionData (one habit) -----

  /** One day of the single-habit series: completed days count 1 under the id 'default'. */
  function DayEntry(date: Day, completedDates: seq<Day>): ContributionData
  {
    var isCompleted := date in completedDates;
    ContributionData(date, if isCompleted then 1 else 0, if isCompleted then ["default"] else [])
  }

  /** The value of generateContributionData: one entry per day of Last365Days. */
  function SingleHabitSeries(completedDates: seq<Day>, today: Day): (r: seq<ContributionData>)
    ensures |r| == 365
    ensures forall k :: 0 <= k < |r| ==> r[k].date == Last365Days(today)[k]
    ensures forall k :: 0 <= k < |r| ==>
      (r[k].count == 1 <==> r[k].date in completedDates) &&
      (r[k].count == 0 <==> r[k].date !in completedDates) &&
      r[k].habits == (if r[k].date in completedDates then ["default"] else [])
  {
    var days := Last365Days(today);
    seq(365, k requires 0 <= k < 365 => DayEntry(days[k], completedDates))
  }

  /**
   * generateContributionData: walks getLast365Days and pushes one entry per
   * day.  The optional start date is accepted and ignored.
   */
  method GenerateContributionData(completedDates: seq<Day>, startDate: Option<Day>, today: Day)
    returns (contributionData: seq<ContributionData>)
    ensures contributionData == SingleHabitSeries(completedDates, today)
  {
    var dates := GetLast365Days(today);
    contributionData := [];
    for i := 0 to |dates|
      invariant |contributionData| == i
      invariant forall k :: 0 <= k < i ==> contributionData[k] == DayEntry(dates[k], completedDates)
    {
      var date := dates[i];
      var isCompleted := date in completedDates;
      contributionData := contributionData + [ContributionData(
        date,
        if isCompleted then 1 else 0,
        if isCompleted then ["default"] else [])];
    }
  }

  /** The sum of the counts of a series. */
  function TotalCount(series: seq<ContributionData>): nat
  {
    if |series| == 0 then 0 else TotalCount(series[..|series| - 1]) + series[|series| - 1].count
  }

  /** The distinct completed days in [lo, lo + n). */
  function DaysInRange(completedDates: seq<Day>, lo: Day, n: nat): set<Day>
  {
    set d | d in completedDates && lo <= d < lo + n
  }

  lemma {:induction false} TotalCountPrefix(completedDates: seq<Day>, today: Day, n: nat)
    requires n <= 365
    ensures TotalCount(SingleHabitSeries(completedDates, today)[..n]) == |DaysInRange(completedDates, today - 364, n)|
  {
    var series := SingleHabitSeries(completedDates, today);
    if n > 0 {
      TotalCountPrefix(completedDates, today, n - 1);
      var lo := today - 364;
      var last := lo + n - 1;
      assert series[..n][..n - 1] == series[..n - 1];
      assert series[n - 1] == DayEntry(last, completedDates);
      assert TotalCount(series[..n]) == TotalCount(series[..n - 1]) + (if last in completedDates then 1 else 0);
      if last in completedDates {
        assert DaysInRange(completedDates, lo, n) == DaysInRange(completedDates, lo, n - 1) + {last};
      } else {
        assert DaysInRange(completedDates, lo, n) == DaysInRange(completedDates, lo, n - 1);
      }
    }
  }

  /**
   * The counts of the single-habit series add up to the number of distinct
   * completed days in the window (a day listed twice still counts once).
   */
  lemma SingleHabitSeriesTotal(completedDates: seq<Day>, today: Day)
    ensures TotalCount(SingleHabitSeries(completedDates, today))
         == |set d | d in completedDates && DaysAgo(364, today) <= d <= today|
  {
    var series := SingleHabitSeries(completedDates, today);
    TotalCountPrefix(completedDates, today, 365);
    assert series[..365] == series;
    assert DaysInRange(completedDates, today - 364, 365) == set d | d in completedDates && DaysAgo(364, today) <= d <= today;
  }

  /** No day is listed twice. */
  predicate NoDuplicates(s: seq<Day>)
  {
    forall i, j :: 0 <= i < j < |s| ==> s[i] != s[j]
  }

  lemma {:induction false} DistinctCardinality(s: seq<Day>)
    requires NoDuplicates(s)
    ensures |set d | d in s| == |s|
  {
    if |s| > 0 {
      var init := s[..|s| - 1];
      DistinctCardinality(init);
      assert (set d | d in s) == (set d | d in init) + {s[|s| - 1]};
      assert s[|s| - 1] !in init;
    }
  }

  /**
   * When a habit's days are distinct and all lie in the window, the series'
   * counts add up to the habit's number of completions.
   */
  lemma SingleHabitSeriesTotalCovered(completedDates: seq<Day>, today: Day)
    requires NoDuplicates(completedDates)
    requires forall d :: d in completedDates ==> DaysAgo(364, today) <= d <= today
    ensures TotalCount(SingleHabitSeries(completedDates, today)) == |completedDates|
  {
    SingleHabitSeriesTotal(completedDates, today);
    assert (set d | d in completedDates && DaysAgo(364, today) <= d <= today) == set d | d in completedDates;
    DistinctCardinality(completedDates);
  }
}
