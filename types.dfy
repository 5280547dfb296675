/**
 * The records of the habit tracker (src/types/index.ts).
 *
 * A calendar date `YYYY-MM-DD` is represented by its day number: the number
 * of days since 1970-01-01 (negative before it).  Module Calendar relates day
 * numbers to the `YYYY-MM-DD` strings.
 */
module Types {
  import opened Wrappers

  /** A calendar day, counted from 1970-01-01 (day 0). */
  type Day = int

  type HabitId = string

  datatype Frequency = Daily | Weekly | Custom

  /**
   * A habit definition together with the derived fields that the service
   * recomputes on every read.  `createdAt` is an opaque timestamp.
   */
  datatype Habit = Habit(
    id: HabitId,
    name: string,
    description: Option<string>,
    category: Option<string>,
    color: string,
    frequency: Frequency,
    createdAt: int,
    completedDates: seq<Day>,
    currentStreak: nat,
    longestStreak: nat,
    totalCompletions: nat)

  /** One toggle record: completion state of a (habit, day) pair. */
  datatype HabitCompletion = HabitCompletion(habitId: HabitId, date: Day, completed: bool)

  datatype StreakData = StreakData(currentStreak: nat, longestStreak: nat, lastCompletedDate: Option<Day>)

  /** One day of the activity grid: how many completions, by which habits. */
  datatype ContributionData = ContributionData(date: Day, count: nat, habits: seq<HabitId>)

  datatype AppStats = AppStats(
    totalHabits: nat,
    activeHabits: nat,
    totalCompletions: nat,
    currentDate: Day,
    weeklyProgress: nat,
    monthlyProgress: nat)
}
