/** The single local calendar the app uses, reduced to integer arithmetic:
    instants are whole seconds since 1970-01-01 00:00, every day has 86400
    seconds, and weekdays are numbered as the platform calendar does
    (1 = Sunday, 2 = Monday, ..., 7 = Saturday). Day 0 was a Thursday. */
module Calendar {

  const SecondsPerDay: int := 86400
  const SecondsPerWeek: int := 7 * 86400

  /** Number of the calendar day holding instant t (floor division). */
  function DayNumber(t: int): int {
    t / SecondsPerDay
  }

  /** Midnight at the start of the day holding t. */
  function StartOfDay(t: int): (r: int)
    ensures r % SecondsPerDay == 0
    ensures r <= t < r + SecondsPerDay
  {
    DayNumber(t) * SecondsPerDay
  }

  /** Platform weekday of instant t: 1 = Sunday ... 7 = Saturday. */
  function Weekday(t: int): (w: int)
    ensures 1 <= w <= 7
  {
    (DayNumber(t) + 4) % 7 + 1
  }

  /** Monday-based day index: Mon = 0 ... Sat = 5, Sun = 6. */
  function DayIndex(weekday: int): (r: int)
    requires 1 <= weekday <= 7
    ensures 0 <= r < 7
    ensures weekday == (r + 1) % 7 + 1
  {
    (weekday + 5) % 7
  }

  /** Whole days from midnight a to instant b, for a <= b. */
  function DaysBetween(a: int, b: int): (r: int)
    requires a <= b
    ensures r >= 0
    ensures a + r * SecondsPerDay <= b < a + (r + 1) * SecondsPerDay
  {
    (b - a) / SecondsPerDay
  }

  predicate IsDateInToday(t: int, now: int) {
    DayNumber(t) == DayNumber(now)
  }

  predicate IsDateInYesterday(t: int, now: int) {
    DayNumber(t) == DayNumber(now) - 1
  }

  /** The day index is a bijection from weekdays 1..7 onto 0..6, Monday
      first and Sunday last. */
  lemma DayIndexBijective(w1: int, w2: int)
    requires 1 <= w1 <= 7 && 1 <= w2 <= 7
    ensures DayIndex(w1) == DayIndex(w2) <==> w1 == w2
    ensures DayIndex(2) == 0 && DayIndex(1) == 6
  {
  }

  lemma DayIndexOnto(i: int)
    requires 0 <= i < 7
    ensures DayIndex((i + 1) % 7 + 1) == i
  {
  }

  /** Consecutive days have consecutive weekdays (Saturday wraps to Sunday). */
  lemma WeekdayNextDay(t: int)
    ensures Weekday(t + SecondsPerDay) == Weekday(t) % 7 + 1
  {
    assert DayNumber(t + SecondsPerDay) == DayNumber(t) + 1;
  }

  /** Later instants never fall on an earlier day. */
  lemma DayNumberMonotone(a: int, b: int)
    requires a <= b
    ensures DayNumber(a) <= DayNumber(b)
    ensures StartOfDay(a) <= StartOfDay(b)
  {
  }

  /** Instants on the same day have the same start of day, and conversely. */
  lemma SameDay(a: int, b: int)
    ensures StartOfDay(a) == StartOfDay(b) <==> DayNumber(a) == DayNumber(b)
  {
  }

  // 2026-02-19 is day 20503 since the epoch; it is a Thursday.
  const Feb19_2026: int := 20503 * 86400

  lemma Feb19_2026IsThursday()
    ensures Weekday(Feb19_2026 + 12 * 3600) == 5
    ensures DayIndex(Weekday(Feb19_2026 + 12 * 3600)) == 3
  {
  }
}
