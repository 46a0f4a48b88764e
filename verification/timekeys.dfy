/**
 * Instants and the minute-resolution join key.
 *
 * A Go `time.Time` is an absolute instant together with the location it is
 * displayed in. Here an instant is a count of nanoseconds since the Unix epoch
 * plus the fixed offset (seconds east of UTC) of its zone. `mapKey` formats a
 * time as "2006-01-02 15:04" in its own zone, which identifies exactly one
 * wall-clock minute; the key is that minute, counted from the epoch.
 */
module TimeKeys {

  const NanosPerSecond: int := 1_000_000_000
  const NanosPerMinute: int := 60 * NanosPerSecond
  /** `30 * time.Minute`, the width of one tariff slot. */
  const SlotLength: int := 30 * NanosPerMinute

  /** `firstPeriodStarts`: 1 November 2022 00:00 UTC. */
  const FirstPeriodStarts: int := 1_667_260_800 * NanosPerSecond
  /** `lastPeriodStarts`: 30 October 2023 23:30 UTC (exclusive bound of the slot loop). */
  const LastPeriodStarts: int := 1_698_708_600 * NanosPerSecond

  datatype Instant = Instant(unixNanos: int, offsetSeconds: int)

  /** An instant displayed in UTC, as `time.Parse` without a zone and `.UTC()` produce. */
  function Utc(unixNanos: int): Instant {
    Instant(unixNanos, 0)
  }

  /** The wall-clock reading of `t` in its own zone, in nanoseconds. */
  function WallNanos(t: Instant): int {
    t.unixNanos + t.offsetSeconds * NanosPerSecond
  }

  /** `mapKey`: the wall-clock minute `t` falls in; seconds and below are dropped. */
  function MapKey(t: Instant): (k: int)
    ensures k * NanosPerMinute <= WallNanos(t) < (k + 1) * NanosPerMinute
  {
    WallNanos(t) / NanosPerMinute
  }

  /** The key is the only minute whose span holds the wall clock, so two times
      share a key exactly when their wall clocks lie in the same minute. */
  lemma MapKeyUnique(t: Instant, k: int)
    requires k * NanosPerMinute <= WallNanos(t) < (k + 1) * NanosPerMinute
    ensures MapKey(t) == k
  {
  }

  /** Adding seconds or sub-second detail that stays inside the minute does not change the key. */
  lemma KeyIgnoresSubMinute(t: Instant, extra: int)
    requires 0 <= extra
    requires WallNanos(t) % NanosPerMinute + extra < NanosPerMinute
    ensures MapKey(Instant(t.unixNanos + extra, t.offsetSeconds)) == MapKey(t)
  {
  }

  /** A minute-aligned UTC instant is keyed by its own minute count. */
  lemma UtcMinuteKey(minutes: int)
    ensures MapKey(Utc(minutes * NanosPerMinute)) == minutes
  {
  }

  /** The same instant is keyed differently in a zone `offsetSeconds` east of UTC:
      the key moves by the offset in minutes. */
  lemma OffsetShiftsKey(unixNanos: int, offsetSeconds: int)
    requires offsetSeconds % 60 == 0
    ensures MapKey(Instant(unixNanos, offsetSeconds)) == MapKey(Utc(unixNanos)) + offsetSeconds / 60
  {
  }
}
