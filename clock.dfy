/**
 * Points in local time, as the journal code compares them: a calendar day
 * number and the seconds into that day. Time zones and sub-second precision
 * are not modelled.
 */
module Clock {

  type SecondOfDay = s: int | 0 <= s < 86400

  /** A minute of the day, as `strftime("%H:%M")` keeps it. */
  type MinuteOfDay = m: int | 0 <= m < 1440

  datatype Instant = Instant(day: int, secs: SecondOfDay)

  /** `a < b` on Ruby Time values. */
  predicate Before(a: Instant, b: Instant) {
    a.day < b.day || (a.day == b.day && a.secs < b.secs)
  }

  /** `a <= b` on Ruby Time values. */
  predicate AtMost(a: Instant, b: Instant) {
    !Before(b, a)
  }

  /** `Time#hour`. */
  function Hour(t: Instant): (h: int)
    ensures 0 <= h < 24
    ensures h * 3600 <= t.secs < (h + 1) * 3600
  {
    t.secs / 3600
  }

  /** The instant on the same calendar day as `t` at minute `m`, seconds dropped. */
  function AtMinute(t: Instant, m: MinuteOfDay): Instant {
    Instant(t.day, m * 60)
  }
}
