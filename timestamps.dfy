/** The previous-window bounds of `build_evidence` are midnight timestamps
    (`start - 1 day` and `prev_end - (days - 1) days`) compared with the full
    `watch_date` timestamp. This module sets that comparison beside the
    calendar-day comparison the dashboard uses for the current slice, with
    timestamps as seconds from the day-ordinal origin. The rest of the model
    compares calendar days. */
module Timestamps {

  const SECONDS_PER_DAY: int := 86400

  /** The calendar day of a timestamp (`.dt.date`). */
  function DayOf(ts: int): int {
    ts / SECONDS_PER_DAY
  }

  /** Midnight at the start of day `d`. */
  function Midnight(d: int): int {
    d * SECONDS_PER_DAY
  }

  /** The comparison as written: `prev_start_dt <= watch_date <= prev_end_dt`. */
  predicate KeptAsWritten(ts: int, lo: int, hi: int) {
    Midnight(lo) <= ts <= Midnight(hi)
  }

  /** The calendar-day comparison: the day of the event lies in `lo..hi`. */
  predicate KeptByDay(ts: int, lo: int, hi: int) {
    lo <= DayOf(ts) <= hi
  }

  /** An event one second after midnight on the last day of the previous
      window belongs to that window's days, but the comparison as written drops it. */
  lemma AsWrittenDropsLastDay(lo: int, hi: int)
    requires lo <= hi
    ensures var ts := Midnight(hi) + 1;
      DayOf(ts) == hi && KeptByDay(ts, lo, hi) && !KeptAsWritten(ts, lo, hi)
  {
    var ts := Midnight(hi) + 1;
    assert ts == hi * SECONDS_PER_DAY + 1;
  }

  /** The day comparison keeps exactly the timestamps from midnight of `lo` up
      to, but not including, midnight of the day after `hi`: all of the
      window's days in full. */
  lemma {:induction false} ByDayCoversWholeDays(ts: int, lo: int, hi: int)
    ensures KeptByDay(ts, lo, hi) <==> Midnight(lo) <= ts < Midnight(hi + 1)
  {
    var d := DayOf(ts);
    assert Midnight(d) <= ts < Midnight(d + 1);
    if lo <= d {
      assert Midnight(lo) <= Midnight(d);
    } else {
      assert Midnight(d + 1) <= Midnight(lo);
    }
    if d <= hi {
      assert Midnight(d + 1) <= Midnight(hi + 1);
    } else {
      assert Midnight(hi + 1) <= Midnight(d);
    }
  }

  /** Every event the comparison as written keeps, the day comparison keeps too. */
  lemma AsWrittenWithinDays(ts: int, lo: int, hi: int)
    requires KeptAsWritten(ts, lo, hi)
    ensures KeptByDay(ts, lo, hi)
  {
    ByDayCoversWholeDays(ts, lo, hi);
  }
}
