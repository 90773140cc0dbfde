/** `build_evidence`: the packet that grounds the summarization service. It
    compares the selected period with the period of the same length just
    before it, under the same genre filter, and degrades to a packet with an
    explanatory note when either period has no data. Dates are day ordinals. */
module Evidence {
  import opened Wrappers
  import opened Seqs
  import opened Table
  import opened Grouping
  import opened PctChange
  import opened Aggregates
  import opened Deltas

  /** The genre selector value that disables the genre filter. */
  const ALL_GENRES: string := "All"
  const NO_DATA_NOTE: string := "No data available for the selected filters."
  const NO_PREVIOUS_NOTE: string := "Previous period comparison unavailable (no data in the prior time window)."
  /** The length of every driver-delta table. */
  const DELTA_ROWS: nat := 6

  predicate InRange(d: int, lo: int, hi: int) {
    lo <= d <= hi
  }

  /** An inclusive range of days and its length. */
  datatype Window = Window(startDate: int, endDate: int, days: int)

  /** The comparison window: as many days as `start..end`, ending the day
      before `start`. */
  function PreviousWindow(start: int, end: int): (w: Window)
    ensures w.days == end - start + 1
    ensures w.endDate == start - 1
    ensures w.endDate - w.startDate + 1 == w.days
    // the previous window is the current one moved back by its own length
    ensures forall d :: InRange(d, w.startDate, w.endDate) <==> InRange(d + w.days, start, end)
  {
    var days := (end - start) + 1;
    var prevEnd := start - 1;
    Window(prevEnd - (days - 1), prevEnd, days)
  }

  /** For a proper date range the two windows are adjacent and disjoint, and
      together cover twice the range with no gap. */
  lemma WindowsAdjacent(start: int, end: int)
    requires start <= end
    ensures var w := PreviousWindow(start, end);
      && w.startDate <= w.endDate
      && w.endDate + 1 == start
      && (forall d :: !(InRange(d, w.startDate, w.endDate) && InRange(d, start, end)))
      && (forall d :: InRange(d, w.startDate, end) <==> InRange(d, w.startDate, w.endDate) || InRange(d, start, end))
  {
  }

  /** The rows of `t` a period slice keeps: the day within `lo..hi` and, unless
      the selector is "All", the given genre (a missing genre never matches). */
  predicate Selected(x: Row, lo: int, hi: int, genre: string) {
    InRange(x.watchDay, lo, hi) && (genre == ALL_GENRES || x.genrePrimary == Some(genre))
  }

  function RowsInWindow(rows: seq<Row>, lo: int, hi: int): (r: seq<Row>)
    ensures forall x :: multiset(r)[x] == if InRange(x.watchDay, lo, hi) then multiset(rows)[x] else 0
  {
    if rows == [] then []
    else
      var p, x := rows[..|rows| - 1], rows[|rows| - 1];
      assert rows == p + [x];
      RowsInWindow(p, lo, hi) + if InRange(x.watchDay, lo, hi) then [x] else []
  }

  function RowsOfGenre(rows: seq<Row>, genre: string): (r: seq<Row>)
    ensures forall x :: multiset(r)[x] == if x.genrePrimary == Some(genre) then multiset(rows)[x] else 0
  {
    if rows == [] then []
    else
      var p, x := rows[..|rows| - 1], rows[|rows| - 1];
      assert rows == p + [x];
      RowsOfGenre(p, genre) + if x.genrePrimary == Some(genre) then [x] else []
  }

  /** A filter that keeps each row as often as it occurs when it matches and
      drops it otherwise is empty exactly when no row matches. */
  lemma EmptyFilter(rows: seq<Row>, r: seq<Row>, lo: int, hi: int, genre: string)
    requires forall x :: multiset(r)[x] == if Selected(x, lo, hi, genre) then multiset(rows)[x] else 0
    ensures |r| == 0 <==> forall i :: 0 <= i < |rows| ==> !Selected(rows[i], lo, hi, genre)
  {
    if |r| != 0 {
      assert r[0] in multiset(r);
      assert r[0] in multiset(rows);
      var i :| 0 <= i < |rows| && rows[i] == r[0];
    }
    if i :| 0 <= i < |rows| && Selected(rows[i], lo, hi, genre) {
      assert rows[i] in multiset(rows);
      assert multiset(r)[rows[i]] > 0;
    }
  }

  /** The day filter and then the genre filter of `build_evidence`'s previous
      slice (the dashboard selects the current slice the same way). The
      `watch_date` column is read first, then `genre_primary` if the genre is
      not "All"; a missing one raises. */
  function SelectPeriod(t: Table, lo: int, hi: int, genre: string): (r: Result<Table, Error>)
    ensures WatchDate !in t.columns ==> r == Failure(KeyError(WatchDate))
    ensures WatchDate in t.columns && genre != ALL_GENRES && KeyCol(GenrePrimary) !in t.columns ==>
              r == Failure(KeyError(KeyCol(GenrePrimary)))
    ensures r.Success? <==> WatchDate in t.columns && (genre == ALL_GENRES || KeyCol(GenrePrimary) in t.columns)
    ensures r.Success? ==> r.value.columns == t.columns && r.value.otherColumns == t.otherColumns
    ensures r.Success? ==> forall x :: multiset(r.value.rows)[x] == if Selected(x, lo, hi, genre) then multiset(t.rows)[x] else 0
    ensures r.Success? ==> (IsEmpty(r.value) <==> forall i :: 0 <= i < |t.rows| ==> !Selected(t.rows[i], lo, hi, genre))
  {
    if WatchDate !in t.columns then Failure(KeyError(WatchDate))
    else
      var inWindow := RowsInWindow(t.rows, lo, hi);
      if genre == ALL_GENRES then
        EmptyFilter(t.rows, inWindow, lo, hi, genre);
        Success(t.(rows := inWindow))
      else if KeyCol(GenrePrimary) !in t.columns then Failure(KeyError(KeyCol(GenrePrimary)))
      else
        var kept := RowsOfGenre(inWindow, genre);
        EmptyFilter(t.rows, kept, lo, hi, genre);
        Success(t.(rows := kept))
  }

  /** When the current slice was selected by the same filters over `start..end`,
      the two slices share no row and every row of either has the selected
      genre: only the period differs. */
  lemma SlicesDisjoint(full: Table, start: int, end: int, genre: string, x: Row)
    requires SelectPeriod(full, start, end, genre).Success?
    ensures var w := PreviousWindow(start, end);
      var cur := SelectPeriod(full, start, end, genre).value;
      var prev := SelectPeriod(full, w.startDate, w.endDate, genre).value;
      && (x in multiset(prev.rows) ==> x.watchDay < start && Selected(x, w.startDate, w.endDate, genre))
      && (x in multiset(cur.rows) ==> x.watchDay >= start && Selected(x, start, end, genre))
      && (multiset(prev.rows)[x] == 0 || multiset(cur.rows)[x] == 0)
  {
  }

  /** `max(active_users, 1)`-guarded minutes per active user. */
  function MinutesPerUser(total: real, users: nat): (r: real)
    ensures users >= 1 ==> r * users as real == total
    ensures users == 0 ==> r == total
  {
    var divisor := if users >= 1 then users else 1;
    total / divisor as real
  }

  datatype Filters = Filters(startDate: int, endDate: int, genre: string)

  datatype Engagement = Engagement(
    minutesPerUserCurrent: real,
    minutesPerUserPrevious: Option<real>,
    minutesPerUserPctChange: Option<real>)

  datatype DriverDeltas = DriverDeltas(
    deviceType: seq<DeltaRow>,
    locationCountry: seq<DeltaRow>,
    title: seq<DeltaRow>,
    genrePrimary: seq<DeltaRow>)

  /** The `changes` block; `driverDeltas` is `None` for the `{}` of a missing
      previous period. */
  datatype Changes = Changes(
    totalWatchMinutesPctChange: Option<real>,
    activeUsersPctChange: Option<real>,
    titlesWatchedPctChange: Option<real>,
    previousWindow: Window,
    engagement: Engagement,
    driverDeltas: Option<DriverDeltas>)

  /** The evidence packet; `None` stands for an empty `{}` block. */
  datatype Packet = Packet(
    filters: Filters,
    currentPeriod: Option<PeriodAggregate>,
    previousPeriod: Option<PeriodAggregate>,
    changes: Option<Changes>,
    note: string)

  /** The driver-delta table of one dimension, sorted by `|delta|`. */
  ghost predicate IsDriverTable(out: seq<DeltaRow>, cur: Table, prev: Table, c: KeyColumn) {
    if KeyCol(c) in cur.columns && KeyCol(c) in prev.columns
    then IsDeltaTable(out, cur.rows, prev.rows, c, DELTA_ROWS, true)
    else out == []
  }

  /** The four driver-delta tables of `build_evidence`, six rows each. */
  function DriverDeltasOf(cur: Table, prev: Table): (dd: DriverDeltas)
    requires WatchDuration in cur.columns && WatchDuration in prev.columns
    ensures IsDriverTable(dd.deviceType, cur, prev, DeviceType)
    ensures IsDriverTable(dd.locationCountry, cur, prev, LocationCountry)
    ensures IsDriverTable(dd.title, cur, prev, Title)
    ensures IsDriverTable(dd.genrePrimary, cur, prev, GenrePrimary)
    ensures |dd.deviceType| <= DELTA_ROWS && |dd.locationCountry| <= DELTA_ROWS
    ensures |dd.title| <= DELTA_ROWS && |dd.genrePrimary| <= DELTA_ROWS
  {
    DriverDeltas(
      DeltaTable(cur, prev, DeviceType, DELTA_ROWS, true).value,
      DeltaTable(cur, prev, LocationCountry, DELTA_ROWS, true).value,
      DeltaTable(cur, prev, Title, DELTA_ROWS, true).value,
      DeltaTable(cur, prev, GenrePrimary, DELTA_ROWS, true).value)
  }

  function BuildEvidence(full: Table, filtered: Table, start: int, end: int, genre: string): (r: Result<Packet, Error>)
    ensures r.Success? ==> r.value.filters == Filters(start, end, genre)
    // empty current slice: only the note, nothing aggregated
    ensures IsEmpty(filtered) ==> r == Success(Packet(Filters(start, end, genre), None, None, None, NO_DATA_NOTE))
    // a column the aggregation reads is missing from the current slice
    ensures !IsEmpty(filtered) && !HasAggregateColumns(filtered) ==> r == Failure(PeriodAggregates(filtered).error)
    ensures var w := PreviousWindow(start, end);
      var sel := SelectPeriod(full, w.startDate, w.endDate, genre);
      && (!IsEmpty(filtered) && HasAggregateColumns(filtered) && sel.Failure? ==> r == Failure(sel.error))
      // an empty previous slice never raises
      && (!IsEmpty(filtered) && HasAggregateColumns(filtered) && sel.Success? && IsEmpty(sel.value) ==> r.Success?)
      && (!IsEmpty(filtered) && HasAggregateColumns(filtered) && sel.Success? && !IsEmpty(sel.value) ==>
            && (r.Success? <==> HasAggregateColumns(full))
            && (!HasAggregateColumns(full) ==> r == Failure(PeriodAggregates(sel.value).error)))
    // every packet past the first guard carries the current aggregates and the derived window
    ensures r.Success? && !IsEmpty(filtered) ==>
      && r.value.currentPeriod == Some(PeriodAggregates(filtered).value)
      && r.value.changes.Some?
      && r.value.changes.value.previousWindow == PreviousWindow(start, end)
      && r.value.changes.value.engagement.minutesPerUserCurrent ==
           MinutesPerUser(PeriodAggregates(filtered).value.totalWatchMinutes, PeriodAggregates(filtered).value.activeUsers)
    // empty previous slice: nulls and empties, and the explanatory note
    ensures var w := PreviousWindow(start, end);
      var sel := SelectPeriod(full, w.startDate, w.endDate, genre);
      r.Success? && !IsEmpty(filtered) && IsEmpty(sel.value) ==>
        && r.value.previousPeriod == None
        && r.value.note == NO_PREVIOUS_NOTE
        && r.value.changes.value.totalWatchMinutesPctChange == None
        && r.value.changes.value.activeUsersPctChange == None
        && r.value.changes.value.titlesWatchedPctChange == None
        && r.value.changes.value.engagement.minutesPerUserPrevious == None
        && r.value.changes.value.engagement.minutesPerUserPctChange == None
        && r.value.changes.value.driverDeltas == None
    // full comparison
    ensures var w := PreviousWindow(start, end);
      var sel := SelectPeriod(full, w.startDate, w.endDate, genre);
      r.Success? && !IsEmpty(filtered) && !IsEmpty(sel.value) ==>
        var cur := r.value.currentPeriod.value;
        var ch := r.value.changes.value;
        && r.value.note == ""
        && r.value.previousPeriod == Some(PeriodAggregates(sel.value).value)
        && var prevAgg := r.value.previousPeriod.value;
        && ch.totalWatchMinutesPctChange == SafePctChange(cur.totalWatchMinutes, prevAgg.totalWatchMinutes)
        && ch.activeUsersPctChange == SafePctChange(cur.activeUsers as real, prevAgg.activeUsers as real)
        && ch.titlesWatchedPctChange == SafePctChange(cur.titlesWatched as real, prevAgg.titlesWatched as real)
        && ch.engagement.minutesPerUserPrevious == Some(MinutesPerUser(prevAgg.totalWatchMinutes, prevAgg.activeUsers))
        && ch.engagement.minutesPerUserPctChange ==
             SafePctChange(ch.engagement.minutesPerUserCurrent, ch.engagement.minutesPerUserPrevious.value)
        && ch.driverDeltas == Some(DriverDeltasOf(filtered, sel.value))
  {
    var filters := Filters(start, end, genre);
    if IsEmpty(filtered) then Success(Packet(filters, None, None, None, NO_DATA_NOTE))
    else
      var current :- PeriodAggregates(filtered);
      var w := PreviousWindow(start, end);
      var prev :- SelectPeriod(full, w.startDate, w.endDate, genre);
      var currentMpu := MinutesPerUser(current.totalWatchMinutes, current.activeUsers);
      if IsEmpty(prev) then
        var changes := Changes(None, None, None, w, Engagement(currentMpu, None, None), None);
        Success(Packet(filters, Some(current), None, Some(changes), NO_PREVIOUS_NOTE))
      else
        var previous :- PeriodAggregates(prev);
        var prevMpu := MinutesPerUser(previous.totalWatchMinutes, previous.activeUsers);
        var deltas := DriverDeltasOf(filtered, prev);
        var changes := Changes(
          SafePctChange(current.totalWatchMinutes, previous.totalWatchMinutes),
          SafePctChange(current.activeUsers as real, previous.activeUsers as real),
          SafePctChange(current.titlesWatched as real, previous.titlesWatched as real),
          w,
          Engagement(currentMpu, Some(prevMpu), SafePctChange(currentMpu, prevMpu)),
          Some(deltas));
        Success(Packet(filters, Some(current), Some(previous), Some(changes), ""))
  }

  /** The note tells a consumer which of the three packets it holds, and the
      blocks present agree with it. */
  lemma NoteNamesBranch(full: Table, filtered: Table, start: int, end: int, genre: string)
    requires BuildEvidence(full, filtered, start, end, genre).Success?
    ensures var p := BuildEvidence(full, filtered, start, end, genre).value;
      && (p.note == NO_DATA_NOTE <==> p.currentPeriod.None?)
      && (p.note == NO_PREVIOUS_NOTE <==> p.currentPeriod.Some? && p.previousPeriod.None?)
      && (p.note == "" <==> p.previousPeriod.Some?)
      && (p.changes.None? <==> p.currentPeriod.None?)
      && (p.changes.Some? ==> (p.changes.value.driverDeltas.Some? <==> p.previousPeriod.Some?))
  {
    assert |NO_DATA_NOTE| != |NO_PREVIOUS_NOTE|;
  }
}
