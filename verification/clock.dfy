/** The .NET time values the schedule works with. Instants (DateTime) and durations
    (TimeSpan) are whole ticks of 100 ns; a time of day (TimeOnly) is the number of
    ticks since midnight. */
module Clock {

  const TicksPerHour: int := 36_000_000_000
  const TicksPerDay: int := 24 * TicksPerHour

  type TimeOfDay = t: int | 0 <= t < TicksPerDay

  /** TimeOnly.FromDateTime: the time of day of an instant. */
  function TimeOfDayOf(instant: int): (r: TimeOfDay)
    ensures (instant - r) % TicksPerDay == 0
  {
    instant % TicksPerDay
  }

  /** TimeOnly subtraction `to - from`: the time that elapses going forward around the
      clock from `from` until `to`, always below one day. */
  function ClockDistance(to: TimeOfDay, from: TimeOfDay): (r: int)
    ensures 0 <= r < TicksPerDay
    ensures (from + r) % TicksPerDay == to
    ensures r == 0 <==> to == from
  {
    var diff := to - from;
    if diff < 0 then diff + TicksPerDay else diff
  }

  /** TimeOnly.IsBetween: `start` inclusive, `end` exclusive, wrapping past midnight when
      `start` is after `end`, and empty when they are equal. Equivalently, `t` is reached
      from `start` before `end` is, going forward around the clock. */
  function IsBetween(t: TimeOfDay, start: TimeOfDay, end: TimeOfDay): (r: bool)
    ensures r <==> ClockDistance(t, start) < ClockDistance(end, start)
    ensures start == end ==> !r
  {
    if start <= end then start <= t && t < end else start <= t || t < end
  }

  /** TimeSpan.FromHours and DateTime.AddHours: whole ticks in `hours`, truncated toward
      zero. */
  function HoursToTicks(hours: real): (r: int)
    ensures hours >= 0.0 ==> r >= 0 && r as real <= hours * TicksPerHour as real < r as real + 1.0
    ensures hours < 0.0 ==> r <= 0 && r as real - 1.0 < hours * TicksPerHour as real <= r as real
  {
    var exact := hours * TicksPerHour as real;
    if exact >= 0.0 then exact.Floor else -((-exact).Floor)
  }
}
