/**
 * Instants as .NET ticks (100 ns units, `DateTime.Ticks`) and durations as `TimeSpan` ticks.
 * Tick 0 is midnight at the start of 1 January of year 1, a Monday.
 */
module Clock {

  const TicksPerMinute: int := 600_000_000
  const TicksPerHour: int := 60 * TicksPerMinute
  const TicksPerDay: int := 24 * TicksPerHour

  /** `DayOfWeek` numbering: Sunday is 0, Saturday is 6. */
  type Weekday = d: int | 0 <= d < 7

  const Sunday: Weekday := 0
  const Monday: Weekday := 1
  const Tuesday: Weekday := 2
  const Saturday: Weekday := 6

  function Minutes(m: int): int { m * TicksPerMinute }

  function Hours(h: int): int { h * TicksPerHour }

  function Days(d: int): int { d * TicksPerDay }

  /** `DateTime.TimeOfDay`: the ticks since the preceding midnight. */
  function TimeOfDay(t: int): (r: int)
    ensures 0 <= r < TicksPerDay
    ensures (t - r) % TicksPerDay == 0
  {
    t % TicksPerDay
  }

  /** `DateTime.Date`: the preceding midnight. */
  function DateOf(t: int): (r: int)
    ensures r % TicksPerDay == 0
    ensures r <= t < r + TicksPerDay
    ensures r + TimeOfDay(t) == t
  {
    t - t % TicksPerDay
  }

  /** `DateTime.DayOfWeek`. */
  function DayOfWeek(t: int): Weekday
  {
    (t / TicksPerDay + 1) % 7
  }

  /** Midnight `d` plus a time of day `x` keeps the date and the weekday of `d`. */
  lemma AtMidnightPlus(d: int, x: int)
    requires d % TicksPerDay == 0 && 0 <= x < TicksPerDay
    ensures DateOf(d + x) == d
    ensures TimeOfDay(d + x) == x
    ensures DayOfWeek(d + x) == DayOfWeek(d)
  {
    assert (d + x) / TicksPerDay == d / TicksPerDay;
  }

  /** Whole days after a midnight is a midnight. */
  lemma MidnightPlusDays(d: int, k: int)
    requires d % TicksPerDay == 0
    ensures (d + Days(k)) % TicksPerDay == 0
  {
    assert d + Days(k) == (d / TicksPerDay + k) * TicksPerDay;
  }

  /** One day later is the next weekday, Saturday wrapping to Sunday. */
  lemma NextDayWeekday(t: int)
    ensures DayOfWeek(t + TicksPerDay) == (DayOfWeek(t) + 1) % 7
    ensures DateOf(t + TicksPerDay) == DateOf(t) + TicksPerDay
  {
    assert (t + TicksPerDay) / TicksPerDay == t / TicksPerDay + 1;
  }

  /** Day 0 of the tick calendar is a Monday. */
  lemma EpochIsMonday()
    ensures DayOfWeek(0) == Monday
  {
  }
}
