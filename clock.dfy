/**
 * Time as the event views see it.
 *
 * An event stores a naive wall-clock date and time; `make_aware` reads them in the
 * configured zone, Africa/Nairobi, which is UTC+03:00 all year. `timezone.now()` is an
 * absolute instant; its `.date()` and `.time()` are the UTC date and time of day.
 * Everything is counted in microseconds, Python's datetime resolution.
 */
module Clock {

  const TicksPerDay: int := 86_400_000_000
  /** Africa/Nairobi: UTC+03:00, no daylight saving. */
  const LocalOffset: int := 10_800_000_000

  /** A day number (proleptic calendar ordinal). */
  type Date = int
  /** Microseconds since midnight. */
  type TimeOfDay = t: int | 0 <= t < 86_400_000_000
  /** An absolute point in time: microseconds since the epoch, UTC. */
  type Instant = int

  /** A naive date and time of day, as `datetime.combine(date, time)` builds it. */
  datatype DateTime = DateTime(date: Date, time: TimeOfDay)

  /** The tick count of a naive date and time. */
  function Ticks(dt: DateTime): int {
    dt.date * 86_400_000_000 + dt.time
  }

  /** The date and time of day of a tick count (`.date()` and `.time()`). */
  function Split(i: int): (dt: DateTime)
    ensures Ticks(dt) == i
  {
    DateTime(i / 86_400_000_000, i % 86_400_000_000)
  }

  /** Splitting the ticks of a date and time gives back that date and time. */
  lemma SplitTicks(dt: DateTime)
    ensures Split(Ticks(dt)) == dt
  {
  }

  /**
   * The shape of the list filters: `date < d or (date == d and time < t)`,
   * the lexicographic order on (date, time).
   */
  predicate Before(a: DateTime, b: DateTime) {
    a.date < b.date || (a.date == b.date && a.time < b.time)
  }

  /** Comparing tick counts is comparing (date, time) pairs lexicographically. */
  lemma TicksOrder(a: DateTime, b: DateTime)
    ensures Ticks(a) < Ticks(b) <==> Before(a, b)
  {
    if a.date < b.date {
      assert a.date * 86_400_000_000 + 86_400_000_000 <= b.date * 86_400_000_000;
    } else if a.date > b.date {
      assert b.date * 86_400_000_000 + 86_400_000_000 <= a.date * 86_400_000_000;
    }
  }

  /**
   * `make_aware`: the instant at which a Nairobi wall-clock date and time occurs; that
   * instant, three hours ahead, splits back into the wall-clock reading.
   */
  function MakeAware(wall: DateTime): (a: Instant)
    ensures Split(a + LocalOffset) == wall
  {
    SplitTicks(wall);
    Ticks(wall) - LocalOffset
  }

  /**
   * `timezone.localtime(now)`: the Nairobi wall-clock date and time of an instant, which
   * `make_aware` turns back into that instant.
   */
  function LocalTime(now: Instant): (wall: DateTime)
    ensures MakeAware(wall) == now
  {
    Split(now + LocalOffset)
  }

  /** `now.date()` and `now.time()` of `timezone.now()`: the UTC date and time of an instant. */
  function UtcTime(now: Instant): (dt: DateTime)
    ensures Ticks(dt) == now
    ensures Ticks(LocalTime(now)) == Ticks(dt) + LocalOffset
  {
    Split(now)
  }

  /** Reading an instant on the Nairobi clock and making it aware again is the identity, both ways. */
  lemma LocalTimeRoundTrip(now: Instant, wall: DateTime)
    ensures MakeAware(LocalTime(now)) == now
    ensures LocalTime(MakeAware(wall)) == wall
  {
    SplitTicks(wall);
  }

  /** An event's wall-clock start is before the Nairobi reading of `now` iff it occurred before `now`. */
  lemma BeforeLocalIffEarlier(wall: DateTime, now: Instant)
    ensures Before(wall, LocalTime(now)) <==> MakeAware(wall) < now
  {
    TicksOrder(wall, LocalTime(now));
  }
}
