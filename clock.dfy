/**
 * Dates, times of day and timestamps.
 *
 * A timestamp is a whole number of seconds counted from midnight of day 0;
 * its calendar date is the day index and its time of day the seconds since
 * that midnight, the pair pandas gives by `ts.date()` and `ts.time()`.
 */
module Clock {

  const SecondsPerDay: int := 86400

  /** A time of day, like Python's `datetime.time` at a resolution of one second. */
  type TimeOfDay = t: int | 0 <= t < 86400

  type Timestamp = int

  /** `time(h, m, s)` for arguments that Python accepts. */
  function Hms(h: int, m: int, s: int): TimeOfDay
    requires 0 <= h < 24 && 0 <= m < 60 && 0 <= s < 60
  {
    h * 3600 + m * 60 + s
  }

  /** The hour, minute and second of `time(h, m, s)` read back as `h`, `m` and `s`. */
  lemma HmsParts(h: int, m: int, s: int)
    requires 0 <= h < 24 && 0 <= m < 60 && 0 <= s < 60
    ensures Hms(h, m, s) / 3600 == h && Hms(h, m, s) % 3600 / 60 == m && Hms(h, m, s) % 60 == s
  {
  }

  /** `datetime.combine(day, t)`. */
  function Combine(day: int, t: TimeOfDay): Timestamp
  {
    day * SecondsPerDay + t
  }

  /** `ts.date()`. */
  function DayOf(ts: Timestamp): int
  {
    ts / SecondsPerDay
  }

  /** `ts.time()`. */
  function TimeOf(ts: Timestamp): TimeOfDay
  {
    ts % SecondsPerDay
  }

  /** Splitting a combined timestamp gives back its date and its time. */
  lemma SplitCombined(day: int, t: TimeOfDay)
    ensures DayOf(Combine(day, t)) == day && TimeOf(Combine(day, t)) == t
  {
  }

  /** A timestamp is the combination of its own date and time. */
  lemma CombineSplit(ts: Timestamp)
    ensures Combine(DayOf(ts), TimeOf(ts)) == ts
  {
  }

  /** Seconds from `start` forward to `t`, going round the clock past midnight. */
  function ClockwiseOffset(start: TimeOfDay, t: TimeOfDay): (d: TimeOfDay)
    ensures (start + d) % SecondsPerDay == t
  {
    (t - start) % SecondsPerDay
  }

  /**
   * Inclusive membership in a window of the day that may wrap midnight
   * (processor.py `_time_in_range`): a window whose start is after its end
   * runs from its start through midnight to its end.
   */
  predicate TimeInRange(t: TimeOfDay, start: TimeOfDay, end: TimeOfDay)
  {
    if start <= end then start <= t <= end else t >= start || t <= end
  }

  /** A window is the arc swept clockwise from its start to its end: `t` is inside iff it is reached no later than the end. */
  lemma TimeInRangeIsArc(t: TimeOfDay, start: TimeOfDay, end: TimeOfDay)
    ensures TimeInRange(t, start, end) <==> ClockwiseOffset(start, t) <= ClockwiseOffset(start, end)
  {
  }

  /** Outside a wrapping window are exactly the times strictly between its end and its start. */
  lemma {:induction false} WrappingWindowComplement(t: TimeOfDay, start: TimeOfDay, end: TimeOfDay)
    requires start > end
    ensures !TimeInRange(t, start, end) <==> end < t < start
  {
  }

  /** A window's two ends always belong to it. */
  lemma WindowEndsInside(start: TimeOfDay, end: TimeOfDay)
    ensures TimeInRange(start, start, end) && TimeInRange(end, start, end)
  {
  }
}
