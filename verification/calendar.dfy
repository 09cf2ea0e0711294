/** `java.time` in whole minutes. An instant (`LocalDateTime`) is the number of
    minutes since 1970-01-01T00:00, a date (`LocalDate`) is an epoch-day
    number, and a time of day (`LocalTime`) is the minute within its day. */
module Calendar {

  const MinutesPerDay: int := 1440
  const MinutesPerHour: int := 60

  type TimeOfDay = t: int | 0 <= t < 1440

  datatype DayOfWeek = Monday | Tuesday | Wednesday | Thursday | Friday | Saturday | Sunday

  /** `LocalDate.getDayOfWeek`: epoch day 0 (1970-01-01) was a Thursday. */
  function DayOfWeekOf(date: int): DayOfWeek {
    var k := (date + 3) % 7;
    if k == 0 then Monday
    else if k == 1 then Tuesday
    else if k == 2 then Wednesday
    else if k == 3 then Thursday
    else if k == 4 then Friday
    else if k == 5 then Saturday
    else Sunday
  }

  /** `LocalDateTime.toLocalDate` (floor division, also before 1970). */
  function DateOf(t: int): int {
    t / MinutesPerDay
  }

  /** `LocalDateTime.toLocalTime`. */
  function TimeOf(t: int): TimeOfDay {
    t % MinutesPerDay
  }

  /** `LocalDateTime.of(date, time)`. */
  function At(date: int, time: TimeOfDay): int {
    date * MinutesPerDay + time
  }

  /** `LocalDate.atStartOfDay`. */
  function StartOfDay(date: int): int {
    At(date, 0)
  }

  /** An instant is recovered from its date and time of day, and a date and
      time of day from the instant they make. */
  lemma AtRoundTrip(date: int, time: TimeOfDay, t: int)
    ensures DateOf(At(date, time)) == date && TimeOf(At(date, time)) == time
    ensures At(DateOf(t), TimeOf(t)) == t
  {
  }

  /** Instants on the same date compare as their times of day do. */
  lemma SameDateOrder(date: int, a: TimeOfDay, b: TimeOfDay)
    ensures At(date, a) <= At(date, b) <==> a <= b
    ensures At(date, a) < At(date, b) <==> a < b
  {
  }

  /** An instant between two times of day of one date lies on that date,
      between those times. */
  lemma WithinDay(date: int, a: TimeOfDay, b: TimeOfDay, t: int)
    requires At(date, a) <= t < At(date, b)
    ensures DateOf(t) == date && a <= TimeOf(t) < b
  {
    var x := t - date * MinutesPerDay;
    assert t == date * MinutesPerDay + x && 0 <= x < MinutesPerDay;
  }
}
