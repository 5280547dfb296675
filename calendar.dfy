/**
 * The proleptic Gregorian calendar behind the `YYYY-MM-DD` strings of
 * src/utils/dateUtils.ts: day numbers counted from 1970-01-01, their
 * year/month/day form, and formatDate's text.  The sort in calculateStreak
 * compares these strings; FormatDateOrder shows that for four-digit years
 * the string order is the order of the days.
 */
module Calendar {
  import opened Types

  predicate IsLeapYear(y: int)
  {
    y % 4 == 0 && (y % 100 != 0 || y % 400 == 0)
  }

  function DaysInYear(y: int): nat
  {
    if IsLeapYear(y) then 366 else 365
  }

  /** The day number of 1 January of year y. */
  function YearStart(y: int): Day
    decreases if y < 1970 then 1970 - y else y - 1970
  {
    if y == 1970 then 0
    else if y > 1970 then YearStart(y - 1) + DaysInYear(y - 1)
    else YearStart(y + 1) - DaysInYear(y)
  }

  lemma YearStartStep(y: int)
    ensures YearStart(y + 1) == YearStart(y) + DaysInYear(y)
  {
  }

  lemma {:induction false} YearStartMonotone(a: int, b: int)
    requires a < b
    ensures YearStart(a) + DaysInYear(a) <= YearStart(b)
    decreases b - a
  {
    YearStartStep(a);
    if a + 1 < b {
      YearStartMonotone(a + 1, b);
    }
  }

  /** Closed form: days from 0001-01-01 to 1 January of year y. */
  function DaysBeforeYear(y: int): int
  {
    365 * (y - 1) + (y - 1) / 4 - (y - 1) / 100 + (y - 1) / 400
  }
  lemma Div4Step(y: int)
    ensures y / 4 - (y - 1) / 4 == if y % 4 == 0 then 1 else 0
  {
  }
  lemma Div100Step(y: int)
    ensures y / 100 - (y - 1) / 100 == if y % 100 == 0 then 1 else 0
  {
  }
  lemma Div400Step(y: int)
    ensures y / 400 - (y - 1) / 400 == if y % 400 == 0 then 1 else 0
  {
  }
  lemma DaysBeforeYearStep(y: int)
    ensures DaysBeforeYear(y + 1) == DaysBeforeYear(y) + DaysInYear(y)
  {
    Div4Step(y);
    Div100Step(y);
    Div400Step(y);
    if y % 100 == 0 {
      Mod100Mod4(y);
    }
    if y % 400 == 0 {
      Mod400Mod100(y);
    }
    assert DaysBeforeYear(y + 1) - DaysBeforeYear(y) ==
      365 + (y / 4 - (y - 1) / 4) - (y / 100 - (y - 1) / 100) + (y / 400 - (y - 1) / 400);
  }
  /** A multiple of 100 is a multiple of 4. */
  lemma Mod100Mod4(y: int)
    requires y % 100 == 0
    ensures y % 4 == 0
  {
    var k := y / 100;
    assert y == 100 * k;
    assert y == 4 * (25 * k);
  }
  /** A multiple of 400 is a multiple of 100. */
  lemma Mod400Mod100(y: int)
    requires y % 400 == 0
    ensures y % 100 == 0
  {
    var k := y / 400;
    assert y == 400 * k;
    assert y == 100 * (4 * k);
  }
  /** YearStart agrees with the closed-form count of days and leap days. */
  lemma {:induction false} YearStartClosedForm(y: int)
    ensures YearStart(y) == DaysBeforeYear(y) - DaysBeforeYear(1970)
    decreases if y < 1970 then 1970 - y else y - 1970
  {
    if y > 1970 {
      YearStartClosedForm(y - 1);
      DaysBeforeYearStep(y - 1);
    } else if y < 1970 {
      YearStartClosedForm(y + 1);
      DaysBeforeYearStep(y);
    }
  }
  /** 1 January 2024 is day 19723. */
  lemma NewYear2024()
    ensures DayNumber(CivilDate(2024, 1, 1)) == 19723
  {
    YearStartClosedForm(2024);
  }

  function YearUp(y: int, n: Day): (r: int)
    requires YearStart(y) <= n
    ensures YearStart(r) <= n < YearStart(r + 1)
    decreases n - YearStart(y)
  {
    YearStartStep(y);
    if n < YearStart(y + 1) then y else YearUp(y + 1, n)
  }

  function YearDown(y: int, n: Day): (r: int)
    requires n < YearStart(y + 1)
    ensures YearStart(r) <= n < YearStart(r + 1)
    decreases YearStart(y + 1) - n
  {
    YearStartStep(y);
    if YearStart(y) <= n then y else YearDown(y - 1, n)
  }

  /** The year that day n falls in. */
  function YearOf(n: Day): (y: int)
    ensures YearStart(y) <= n < YearStart(y + 1)
  {
    if n >= 0 then YearUp(1970, n) else YearDown(1969, n)
  }

  lemma YearOfUnique(y: int, n: Day)
    requires YearStart(y) <= n < YearStart(y + 1)
    ensures YearOf(n) == y
  {
    var z := YearOf(n);
    if z < y {
      YearStartMonotone(z, y);
      YearStartStep(z);
    } else if y < z {
      YearStartMonotone(y, z);
      YearStartStep(y);
    }
  }

  function DaysInMonth(y: int, m: int): nat
    requires 1 <= m <= 12
  {
    if m == 2 then (if IsLeapYear(y) then 29 else 28)
    else if m == 4 || m == 6 || m == 9 || m == 11 then 30
    else 31
  }

  /** Days of year y before the first of month m; month 13 stands for the year's end. */
  function DaysBeforeMonth(y: int, m: int): nat
    requires 1 <= m <= 13
  {
    var leap := if m > 2 && IsLeapYear(y) then 1 else 0;
    var common :=
      if m == 1 then 0 else if m == 2 then 31 else if m == 3 then 59
      else if m == 4 then 90 else if m == 5 then 120 else if m == 6 then 151
      else if m == 7 then 181 else if m == 8 then 212 else if m == 9 then 243
      else if m == 10 then 273 else if m == 11 then 304 else if m == 12 then 334
      else 365;
    common + leap
  }

  lemma DaysBeforeMonthStep(y: int, m: int)
    requires 1 <= m <= 12
    ensures DaysBeforeMonth(y, m + 1) == DaysBeforeMonth(y, m) + DaysInMonth(y, m)
    ensures DaysBeforeMonth(y, 13) == DaysInYear(y)
  {
  }

  lemma DaysBeforeMonthMonotone(y: int, a: int, b: int)
    requires 1 <= a < b <= 13
    ensures DaysBeforeMonth(y, a) < DaysBeforeMonth(y, b)
  {
  }

  /** A calendar date as written `YYYY-MM-DD`. */
  datatype CivilDate = CivilDate(year: int, month: int, day: int)

  predicate ValidDate(c: CivilDate)
  {
    1 <= c.month <= 12 && 1 <= c.day <= DaysInMonth(c.year, c.month)
  }

  /** The day number of a calendar date (getDateFromString, at day resolution). */
  function DayNumber(c: CivilDate): Day
    requires ValidDate(c)
  {
    YearStart(c.year) + DaysBeforeMonth(c.year, c.month) + c.day - 1
  }

  function MonthFrom(y: int, offset: int, m: int): (r: int)
    requires 1 <= m <= 12
    requires DaysBeforeMonth(y, m) <= offset < DaysInYear(y)
    ensures m <= r <= 12
    ensures DaysBeforeMonth(y, r) <= offset < DaysBeforeMonth(y, r + 1)
    decreases 12 - m
  {
    DaysBeforeMonthStep(y, m);
    if offset < DaysBeforeMonth(y, m + 1) then m else MonthFrom(y, offset, m + 1)
  }

  /** The month in which the day `offset` (counted from 0) of year y falls. */
  function MonthOf(y: int, offset: int): (m: int)
    requires 0 <= offset < DaysInYear(y)
    ensures 1 <= m <= 12
    ensures DaysBeforeMonth(y, m) <= offset < DaysBeforeMonth(y, m + 1)
  {
    MonthFrom(y, offset, 1)
  }

  lemma MonthOfUnique(y: int, offset: int, m: int)
    requires 1 <= m <= 12
    requires DaysBeforeMonth(y, m) <= offset < DaysBeforeMonth(y, m + 1)
    ensures 0 <= offset < DaysInYear(y)
    ensures MonthOf(y, offset) == m
  {
    DaysBeforeMonthStep(y, 12);
    if m < 12 {
      DaysBeforeMonthMonotone(y, m + 1, 13);
    }
    var r := MonthOf(y, offset);
    if r < m {
      DaysBeforeMonthMonotone(y, r, m);
      if r + 1 < m {
        DaysBeforeMonthMonotone(y, r + 1, m);
      }
    } else if m < r {
      if m + 1 < r {
        DaysBeforeMonthMonotone(y, m + 1, r);
      }
    }
  }

  /** The calendar date of a day number. */
  function CivilOf(n: Day): (c: CivilDate)
    ensures ValidDate(c) && DayNumber(c) == n
  {
    var y := YearOf(n);
    YearStartStep(y);
    var offset := n - YearStart(y);
    var m := MonthOf(y, offset);
    DaysBeforeMonthStep(y, m);
    CivilDate(y, m, offset - DaysBeforeMonth(y, m) + 1)
  }

  lemma CivilOfDayNumber(c: CivilDate)
    requires ValidDate(c)
    ensures CivilOf(DayNumber(c)) == c
  {
    var y, n := c.year, DayNumber(c);
    var offset := n - YearStart(y);
    DaysBeforeMonthStep(y, c.month);
    MonthOfUnique(y, offset, c.month);
    YearStartStep(y);
    YearOfUnique(y, n);
  }

  /** Chronological order of calendar dates is the order of their fields, year first. */
  predicate CivilBefore(a: CivilDate, b: CivilDate)
  {
    a.year < b.year || (a.year == b.year && (a.month < b.month || (a.month == b.month && a.day < b.day)))
  }

  lemma DayNumberOrder(a: CivilDate, b: CivilDate)
    requires ValidDate(a) && ValidDate(b)
    ensures CivilBefore(a, b) <==> DayNumber(a) < DayNumber(b)
  {
    DaysBeforeMonthStep(a.year, a.month);
    DaysBeforeMonthStep(b.year, b.month);
    if a.month < 12 {
      DaysBeforeMonthMonotone(a.year, a.month + 1, 13);
    }
    if b.month < 12 {
      DaysBeforeMonthMonotone(b.year, b.month + 1, 13);
    }
    if a.year < b.year {
      YearStartMonotone(a.year, b.year);
    } else if b.year < a.year {
      YearStartMonotone(b.year, a.year);
    } else if a.month < b.month {
      DaysBeforeMonthMonotone(a.year, a.month + 1, b.month + 1);
      DaysBeforeMonthStep(a.year, b.month);
      if a.month + 1 < b.month {
        DaysBeforeMonthMonotone(a.year, a.month + 1, b.month);
      }
    } else if b.month < a.month {
      if b.month + 1 < a.month {
        DaysBeforeMonthMonotone(a.year, b.month + 1, a.month);
      }
    }
  }

  // ----- formatDate: the `YYYY-MM-DD` text -----

  function Pow10(w: nat): (p: nat)
    ensures p >= 1
  {
    if w == 0 then 1 else 10 * Pow10(w - 1)
  }

  function Digit(d: int): char
    requires 0 <= d <= 9
  {
    ('0' as int + d) as char
  }

  /** n written in exactly w decimal digits, with leading zeros (the low w digits). */
  function Pad(n: nat, w: nat): (s: string)
    ensures |s| == w
  {
    if w == 0 then "" else Pad(n / 10, w - 1) + [Digit(n % 10)]
  }

  /** toISOString's year: four digits in 0..9999, otherwise a sign and six digits. */
  function YearText(y: int): string
  {
    if 0 <= y <= 9999 then Pad(y, 4)
    else (if y < 0 then "-" else "+") + Pad(if y < 0 then -y else y, 6)
  }

  /** The text of a calendar date: year, month and day joined by dashes. */
  function DateText(c: CivilDate): string
    requires ValidDate(c)
  {
    YearText(c.year) + "-" + Pad(c.month, 2) + "-" + Pad(c.day, 2)
  }

  /** formatDate: the date part of toISOString, at day resolution. */
  function FormatDate(n: Day): string
  {
    DateText(CivilOf(n))
  }

  /** JavaScript's default string comparison: lexicographic on characters. */
  predicate StringLess(s: string, t: string)
    decreases |s|
  {
    if |s| == 0 then |t| > 0
    else if |t| == 0 then false
    else if s[0] != t[0] then s[0] < t[0]
    else StringLess(s[1..], t[1..])
  }

  lemma {:induction false} StringLessConcat(x: string, y: string, x': string, y': string)
    requires |x| == |x'|
    ensures StringLess(x + y, x' + y') <==> StringLess(x, x') || (x == x' && StringLess(y, y'))
    decreases |x|
  {
    if |x| == 0 {
      assert x + y == y;
      assert x' + y' == y';
    } else {
      assert (x + y)[0] == x[0] && (x' + y')[0] == x'[0];
      assert (x + y)[1..] == x[1..] + y;
      assert (x' + y')[1..] == x'[1..] + y';
      StringLessConcat(x[1..], y, x'[1..], y');
      if x[0] == x'[0] && x[1..] == x'[1..] {
        assert x == [x[0]] + x[1..] && x' == [x'[0]] + x'[1..];
      }
    }
  }

  lemma {:induction false} PadInjective(a: nat, b: nat, w: nat)
    requires a < Pow10(w) && b < Pow10(w)
    ensures Pad(a, w) == Pad(b, w) <==> a == b
  {
    if w > 0 && a != b {
      var pa, pb := Pad(a / 10, w - 1), Pad(b / 10, w - 1);
      assert Pad(a, w) == pa + [Digit(a % 10)];
      assert Pad(b, w) == pb + [Digit(b % 10)];
      if a / 10 == b / 10 {
        assert a % 10 != b % 10;
        assert Pad(a, w)[w - 1] != Pad(b, w)[w - 1];
      } else {
        PadInjective(a / 10, b / 10, w - 1);
        assert Pad(a, w)[..w - 1] == pa && Pad(b, w)[..w - 1] == pb;
      }
    }
  }

  lemma {:induction false} PadOrder(a: nat, b: nat, w: nat)
    requires a < Pow10(w) && b < Pow10(w)
    ensures StringLess(Pad(a, w), Pad(b, w)) <==> a < b
  {
    if w == 0 {
    } else {
      var pa, pb := Pad(a / 10, w - 1), Pad(b / 10, w - 1);
      var da, db := [Digit(a % 10)], [Digit(b % 10)];
      StringLessConcat(pa, da, pb, db);
      PadOrder(a / 10, b / 10, w - 1);
      PadInjective(a / 10, b / 10, w - 1);
      assert StringLess(da, db) <==> a % 10 < b % 10 by {
        assert da[1..] == [] && db[1..] == [];
      }
    }
  }

  lemma MonthDayTextOrder(a: CivilDate, b: CivilDate)
    requires 0 <= a.month < 100 && 0 <= a.day < 100 && 0 <= b.month < 100 && 0 <= b.day < 100
    ensures StringLess("-" + Pad(a.month, 2) + "-" + Pad(a.day, 2), "-" + Pad(b.month, 2) + "-" + Pad(b.day, 2))
        <==> a.month < b.month || (a.month == b.month && a.day < b.day)
  {
    var ma, mb := Pad(a.month, 2), Pad(b.month, 2);
    var da, db := Pad(a.day, 2), Pad(b.day, 2);
    assert Pow10(2) == 100;
    assert "-" + ma + "-" + da == "-" + (ma + ("-" + da));
    assert "-" + mb + "-" + db == "-" + (mb + ("-" + db));
    StringLessConcat("-", ma + ("-" + da), "-", mb + ("-" + db));
    StringLessConcat(ma, "-" + da, mb, "-" + db);
    StringLessConcat("-", da, "-", db);
    StringLessIrreflexive("-");
    PadOrder(a.month, b.month, 2);
    PadInjective(a.month, b.month, 2);
    PadOrder(a.day, b.day, 2);
  }

  lemma DateTextOrder(a: CivilDate, b: CivilDate)
    requires ValidDate(a) && ValidDate(b)
    requires 0 <= a.year <= 9999 && 0 <= b.year <= 9999
    ensures StringLess(DateText(a), DateText(b)) <==> CivilBefore(a, b)
  {
    var ya, yb := Pad(a.year, 4), Pad(b.year, 4);
    var ta, tb := "-" + Pad(a.month, 2) + "-" + Pad(a.day, 2), "-" + Pad(b.month, 2) + "-" + Pad(b.day, 2);
    assert Pow10(4) == 10000;
    assert DateText(a) == ya + ta;
    assert DateText(b) == yb + tb;
    StringLessConcat(ya, ta, yb, tb);
    PadOrder(a.year, b.year, 4);
    PadInjective(a.year, b.year, 4);
    MonthDayTextOrder(a, b);
  }

  /**
   * For years 0 through 9999, comparing the formatted strings compares the
   * days: the string sort in calculateStreak is a chronological sort.
   */
  lemma FormatDateOrder(a: Day, b: Day)
    requires 0 <= CivilOf(a).year <= 9999 && 0 <= CivilOf(b).year <= 9999
    ensures StringLess(FormatDate(a), FormatDate(b)) <==> a < b
  {
    DateTextOrder(CivilOf(a), CivilOf(b));
    DayNumberOrder(CivilOf(a), CivilOf(b));
  }

  /** Two days have the same text only if they are the same day (for four-digit years). */
  lemma FormatDateInjective(a: Day, b: Day)
    requires 0 <= CivilOf(a).year <= 9999 && 0 <= CivilOf(b).year <= 9999
    requires FormatDate(a) == FormatDate(b)
    ensures a == b
  {
    FormatDateOrder(a, b);
    FormatDateOrder(b, a);
    StringLessIrreflexive(FormatDate(a));
  }

  lemma {:induction false} StringLessIrreflexive(s: string)
    ensures !StringLess(s, s)
    decreases |s|
  {
    if |s| > 0 {
      StringLessIrreflexive(s[1..]);
    }
  }
}
