/** Local wall-clock hours over millisecond timestamps, at a fixed offset from UTC. */
module LocalClock {
  const HOUR := 3_600_000
  const DAY := 24 * HOUR

  /** `getHours()` of an instant. JavaScript floors, as Euclidean division does here. */
  function HourOf(t: int, offset: int): (h: nat)
    ensures h < 24
  {
    (t + offset) / HOUR % 24
  }

  /** `setMinutes(0, 0, 0)`. */
  function HourStart(t: int, offset: int): (r: int)
    ensures r <= t < r + HOUR
    ensures (r + offset) % HOUR == 0
  {
    t - (t + offset) % HOUR
  }

  /** From an instant to the next full hour the hour of the day stays the same. */
  lemma {:induction false} SameHour(t: int, u: int, offset: int)
    requires t <= u < HourStart(t, offset) + HOUR
    ensures HourOf(u, offset) == HourOf(t, offset)
  {
    assert (t + offset) / HOUR == (u + offset) / HOUR;
  }

  /** What a clock `zone` hours ahead shows when this one shows hour `h`. */
  function HourInZone(h: int, zone: int): (r: int)
    ensures 0 <= r < 24
  {
    (h + zone) % 24
  }

  lemma {:induction false} HourOfInZone(t: int, offset: int, zone: int)
    ensures HourOf(t, offset + zone * HOUR) == HourInZone(HourOf(t, offset), zone)
  {
    assert (t + offset + zone * HOUR) / HOUR == (t + offset) / HOUR + zone;
  }

  /** The hour of the day, read off the time since local midnight. */
  lemma {:induction false} HourOnClock(t: int, offset: int)
    ensures HourOf(t, offset) * 3_600_000 <= (t + offset) % 86_400_000 < (HourOf(t, offset) + 1) * 3_600_000
  {
    var hours := (t + offset) / HOUR;
    assert t + offset == hours / 24 * DAY + hours % 24 * HOUR + (t + offset) % HOUR;
  }
}
