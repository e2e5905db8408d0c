/** Instants, as nanoseconds since the Unix epoch, and the windows they fall in. */
module Times {
  import opened Ints

  const MINUTE := 60_000_000_000

  /** The zero time of the source: the first instant of year 1. */
  const ZERO_TIME := -62_135_596_800_000_000_000

  /** Year 1 to 1970 in days: 1969 years with 492 leap days, less 19 centuries, plus 4. */
  lemma ZeroTimeIsYearOne()
    ensures ZERO_TIME == -(1969 * 365 + 492 - 19 + 4) * 24 * 60 * MINUTE && MINUTE == 60 * 1_000_000_000
  {}

  /** `ts.Truncate(size)`: multiples of `size` are counted from the zero time. */
  function WindowStart(ts: int, size: int): int
    requires size > 0
  {
    ts - (ts - ZERO_TIME) % size
  }

  /** `start.UnixNano()`, an int64. */
  function Key(start: int): Int64 {
    Wrap64(start)
  }

  lemma MultipleWithin(k: int, size: int)
    requires size > 0 && -size < k * size < size
    ensures k == 0
  {}

  /** Each instant falls in exactly one window. */
  lemma OneWindow(ts: int, size: int, start: int)
    requires size > 0
    ensures start == WindowStart(ts, size) <==>
            start <= ts < start + size && (start - ZERO_TIME) % size == 0
  {
    var x, y := ts - ZERO_TIME, WindowStart(ts, size) - ZERO_TIME;
    assert y == (x / size) * size;
    assert (y / size - x / size) * size == -(y % size);
    MultipleWithin(y / size - x / size, size);
    var z := start - ZERO_TIME;
    if start <= ts < start + size && z % size == 0 {
      assert (x / size - z / size) * size == y - z;
      MultipleWithin(x / size - z / size, size);
    }
  }

  /** Windows whose start an int64 can hold are keyed by their start. */
  lemma KeyIsStart(ts: int, size: int)
    requires size > 0
    ensures Key(WindowStart(ts, size)) == WindowStart(ts, size) <==> InInt64(WindowStart(ts, size))
  {}
}
