/** UTC day buckets. An instant is a count of milliseconds since the epoch, and
    `moment.utc(t).startOf("day")` is the largest multiple of one day that is not
    after it. Instants before 1970 are negative; floor division still gives the
    start of their UTC day. */
module DayBuckets {

  const MS_PER_DAY: int := 86_400_000

  /** The UTC start of the day that contains `ms`. */
  function DayStart(ms: int): (d: int)
    ensures d <= ms < d + MS_PER_DAY
    ensures d % MS_PER_DAY == 0
  {
    (ms / MS_PER_DAY) * MS_PER_DAY
  }

  /** The start of a day is the only multiple of a day within the day before an
      instant; everything about `DayStart` follows from this. */
  lemma DayStartUnique(ms: int, d: int)
    requires d % MS_PER_DAY == 0 && d <= ms < d + MS_PER_DAY
    ensures DayStart(ms) == d
  {
    var e := DayStart(ms);
    var q := d / MS_PER_DAY;
    var p := e / MS_PER_DAY;
    assert d == q * MS_PER_DAY;
    assert e == p * MS_PER_DAY;
  }

  /** Every instant of one UTC civil day maps to the same key. */
  lemma SameDaySameKey(t1: int, t2: int)
    requires DayStart(t1) <= t2 < DayStart(t1) + MS_PER_DAY
    ensures DayStart(t2) == DayStart(t1)
  {
    DayStartUnique(t2, DayStart(t1));
  }

  /** Normalising a key that is already a day start changes nothing. */
  lemma DayStartIdempotent(t: int)
    ensures DayStart(DayStart(t)) == DayStart(t)
  {
    DayStartUnique(DayStart(t), DayStart(t));
  }

  /** Instants on different UTC days get different keys. */
  lemma DifferentDaysDifferentKeys(t1: int, t2: int)
    requires t2 >= DayStart(t1) + MS_PER_DAY
    ensures DayStart(t2) > DayStart(t1)
  {
  }
}
