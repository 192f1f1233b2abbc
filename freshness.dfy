/** The freshness rule of the timetable. Clock readings are integers counting
    nanoseconds, the resolution of the `DateTime<Utc>` values the source stores. */
module Freshness {

  const NanosPerSecond := 1_000_000_000
  /** An entry younger than this many whole seconds is served without a fetch. */
  const FreshnessWindowSeconds := 60

  /** `Duration::num_seconds`: the whole seconds of a duration, truncated toward zero
      (Dafny's `/` is Euclidean, so the negative case is written out). */
  function NumSeconds(nanos: int): (r: int)
    ensures nanos >= 0 ==> r * NanosPerSecond <= nanos < (r + 1) * NanosPerSecond
    ensures nanos < 0 ==> (r - 1) * NanosPerSecond < nanos <= r * NanosPerSecond
  {
    if nanos >= 0 then nanos / NanosPerSecond else -((-nanos) / NanosPerSecond)
  }

  /** `is_recent`: fewer than 60 whole seconds separate the stored timestamp from now. */
  function IsRecent(timestamp: int, now: int): bool {
    NumSeconds(now - timestamp) < FreshnessWindowSeconds
  }

  /** Truncation loses nothing at the boundary: an entry is recent exactly when it
      is less than 60 s old, to the nanosecond. An entry stamped in the future
      (a clock that stepped back) counts as recent. */
  lemma IsRecentExact(timestamp: int, now: int)
    ensures IsRecent(timestamp, now) <==> now - timestamp < FreshnessWindowSeconds * NanosPerSecond
  {
    var d := now - timestamp;
    var r := NumSeconds(d);
    if d >= 0 {
      if r < FreshnessWindowSeconds {
        assert r + 1 <= FreshnessWindowSeconds;
        assert d < (r + 1) * NanosPerSecond <= FreshnessWindowSeconds * NanosPerSecond;
      } else {
        assert FreshnessWindowSeconds * NanosPerSecond <= r * NanosPerSecond <= d;
      }
    } else {
      assert r * NanosPerSecond >= d > (r - 1) * NanosPerSecond;
      assert r <= 0;
    }
  }

  /** Once stale, an entry stays stale as the clock moves forward. */
  lemma StaleStaysStale(timestamp: int, t: int, t': int)
    requires !IsRecent(timestamp, t) && t <= t'
    ensures !IsRecent(timestamp, t')
  {
    IsRecentExact(timestamp, t);
    IsRecentExact(timestamp, t');
  }
}
