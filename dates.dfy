/**
 * Calendar dates as the client uses them. A `YYYY-MM-DD` date is a day number
 * counted from the Unix epoch, and a timestamp is a number of seconds since the
 * epoch, in UTC. A start date means that day at 00:00:00, an end date that day
 * at 23:59:59.
 */
module Dates {
  import opened Wrappers

  const SecondsPerDay: int := 86400

  /** `datetime.strptime(day, "%Y-%m-%d")` at 00:00:00 UTC. */
  function StartOfDay(day: int): int
  {
    day * SecondsPerDay
  }

  /** The same day with `hour=23, minute=59, second=59`. */
  function EndOfDay(day: int): int
  {
    day * SecondsPerDay + SecondsPerDay - 1
  }

  /** The calendar day a timestamp falls on (floor division, as for dates before 1970 too). */
  function DayOf(t: int): int
  {
    t / SecondsPerDay
  }

  /** The optional `start_date` and `end_date` arguments of a scan, as day numbers. */
  datatype Window = Window(startDay: Option<int>, endDay: Option<int>)

  /** Newer than `end_date` 23:59:59 (only when an end date is given). */
  predicate AfterEnd(w: Window, t: int)
  {
    w.endDay.Some? && t > EndOfDay(w.endDay.value)
  }

  /** Older than `start_date` 00:00:00 (only when a start date is given). */
  predicate BeforeStart(w: Window, t: int)
  {
    w.startDay.Some? && t < StartOfDay(w.startDay.value)
  }

  /** Inside the inclusive window: neither too new nor too old. */
  predicate InWindow(w: Window, t: int)
  {
    !AfterEnd(w, t) && !BeforeStart(w, t)
  }

  /** A timestamp is on or after 00:00:00 of `day` exactly when its calendar day is `day` or later. */
  lemma StartOfDayByDay(day: int, t: int)
    ensures t >= StartOfDay(day) <==> DayOf(t) >= day
  {
  }

  /** A timestamp is at or before 23:59:59 of `day` exactly when its calendar day is `day` or earlier. */
  lemma EndOfDayByDay(day: int, t: int)
    ensures t <= EndOfDay(day) <==> DayOf(t) <= day
  {
  }

  /**
   * The window compares whole calendar days: a timestamp is inside it exactly
   * when its day lies between the start day and the end day, both included.
   */
  lemma InWindowByDay(w: Window, t: int)
    ensures InWindow(w, t) <==>
      (w.startDay.None? || w.startDay.value <= DayOf(t)) && (w.endDay.None? || DayOf(t) <= w.endDay.value)
  {
    if w.startDay.Some? {
      StartOfDayByDay(w.startDay.value, t);
    }
    if w.endDay.Some? {
      EndOfDayByDay(w.endDay.value, t);
    }
  }
}
