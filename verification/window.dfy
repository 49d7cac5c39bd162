/** The UTC day window of one target date.

    A calendar date is represented by its day number (days since 1970-01-01,
    UTC) and a message date by its UTC timestamp in whole seconds. The window
    of a day is the half-open interval [midnight of the day, midnight of the
    next day).
 */
module Window {

  /** Length of one day in seconds (a `timedelta(days=1)`). */
  const SecondsPerDay: int := 86400

  /** Midnight UTC at the start of `day` (`datetime.combine(day, time.min, utc)`). */
  function WindowStart(day: int): (s: int)
    ensures s % SecondsPerDay == 0
    ensures s / SecondsPerDay == day
  {
    day * SecondsPerDay
  }

  /** Exclusive end of the window: one day after its start. */
  function WindowEnd(day: int): (e: int)
    ensures e - WindowStart(day) == SecondsPerDay
    ensures e == WindowStart(day + 1)
  {
    WindowStart(day) + SecondsPerDay
  }

  /** The UTC calendar day a timestamp falls on (floor division). */
  function DayOf(t: int): int
  {
    t / SecondsPerDay
  }

  /** `t` lies in the half-open window of `day`. */
  predicate InWindow(day: int, t: int)
  {
    WindowStart(day) <= t < WindowEnd(day)
  }

  /** The window holds exactly the instants whose UTC day is `day`. */
  lemma InWindowIffSameDay(day: int, t: int)
    ensures InWindow(day, t) <==> DayOf(t) == day
  {
    var q, r := t / SecondsPerDay, t % SecondsPerDay;
    assert t == q * SecondsPerDay + r && 0 <= r < SecondsPerDay;
    if InWindow(day, t) {
      assert day * SecondsPerDay <= q * SecondsPerDay + r < day * SecondsPerDay + SecondsPerDay;
      assert q == day;
    }
  }

  /** The upper bound is exclusive: midnight of the next day is not in the window. */
  lemma EndBelongsToNextDay(day: int)
    ensures !InWindow(day, WindowEnd(day))
    ensures InWindow(day + 1, WindowEnd(day))
    ensures InWindow(day, WindowEnd(day) - 1)
  {
  }
}
