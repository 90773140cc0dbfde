/** The joined watch-event table that every aggregation reads: watch events
    left-joined to catalog metadata, one record per viewing session. Which
    columns the table carries is part of the value, so that a missing column
    can be told apart from a column of missing values. */
module Table {
  import opened Wrappers

  /** The text-valued columns: the ones grouped by or counted. */
  datatype KeyColumn = UserId | Title | GenrePrimary | DeviceType | LocationCountry

  datatype Column = KeyCol(key: KeyColumn) | WatchDate | WatchDuration

  /** One joined watch event. `None` is a missing (NaN) value, as left by the
      left join for an event whose content is not in the catalog. The watch
      date is a day ordinal; the duration has had its missing values set to 0. */
  datatype Row = Row(
    userId: Option<string>,
    title: Option<string>,
    genrePrimary: Option<string>,
    deviceType: Option<string>,
    locationCountry: Option<string>,
    watchDay: int,
    minutes: real)

  /** `otherColumns` says whether the frame also carries columns no
      aggregation reads (`movie_id`, `content_type`, ...): they never raise,
      but they make a frame with rows non-empty. */
  datatype Table = Table(columns: set<Column>, otherColumns: bool, rows: seq<Row>)

  /** A `df[column]` lookup of a column the table does not have. */
  datatype Error = KeyError(column: Column)

  function Key(r: Row, c: KeyColumn): Option<string> {
    match c
    case UserId => r.userId
    case Title => r.title
    case GenrePrimary => r.genrePrimary
    case DeviceType => r.deviceType
    case LocationCountry => r.locationCountry
  }

  /** `DataFrame.empty`: no rows, or no columns at all. */
  predicate IsEmpty(t: Table) {
    |t.rows| == 0 || (t.columns == {} && !t.otherColumns)
  }

  /** `df["watch_duration_minutes"].sum()`. */
  function TotalMinutes(rows: seq<Row>): real {
    if rows == [] then 0.0
    else TotalMinutes(rows[..|rows| - 1]) + rows[|rows| - 1].minutes
  }

  /** The non-missing values of column `c`. */
  function KeySet(rows: seq<Row>, c: KeyColumn): set<string> {
    if rows == [] then {}
    else
      KeySet(rows[..|rows| - 1], c) +
      match Key(rows[|rows| - 1], c)
      case None => {}
      case Some(k) => {k}
  }

  /** `df[c].nunique()`: missing values are not counted. */
  function DistinctCount(rows: seq<Row>, c: KeyColumn): nat {
    |KeySet(rows, c)|
  }

  /** Total minutes of the rows whose value in column `c` is `k`. */
  function SumFor(rows: seq<Row>, c: KeyColumn, k: string): real {
    if rows == [] then 0.0
    else
      SumFor(rows[..|rows| - 1], c, k) +
      if Key(rows[|rows| - 1], c) == Some(k) then rows[|rows| - 1].minutes else 0.0
  }

  /** Total minutes of the rows whose value in column `c` is missing. */
  function NullMinutes(rows: seq<Row>, c: KeyColumn): real {
    if rows == [] then 0.0
    else
      NullMinutes(rows[..|rows| - 1], c) +
      if Key(rows[|rows| - 1], c).None? then rows[|rows| - 1].minutes else 0.0
  }

  lemma {:induction false} KeySetMembers(rows: seq<Row>, c: KeyColumn, k: string)
    ensures k in KeySet(rows, c) <==> exists i :: 0 <= i < |rows| && Key(rows[i], c) == Some(k)
  {
    if rows != [] {
      var p := rows[..|rows| - 1];
      KeySetMembers(p, c, k);
      if k in KeySet(p, c) {
        var i :| 0 <= i < |p| && Key(p[i], c) == Some(k);
        assert rows[i] == p[i];
      }
      if i :| 0 <= i < |rows| && Key(rows[i], c) == Some(k) {
        if i < |p| {
          assert p[i] == rows[i];
        }
      }
    }
  }

  /** A distinct count never exceeds the number of rows. */
  lemma {:induction false} DistinctCountBound(rows: seq<Row>, c: KeyColumn)
    ensures DistinctCount(rows, c) <= |rows|
  {
    if rows != [] {
      DistinctCountBound(rows[..|rows| - 1], c);
    }
  }

  /** A table with a row whose value in `c` is present has a distinct count of at least one. */
  lemma DistinctCountPositive(rows: seq<Row>, c: KeyColumn, i: nat)
    requires i < |rows| && Key(rows[i], c).Some?
    ensures DistinctCount(rows, c) >= 1
  {
    KeySetMembers(rows, c, Key(rows[i], c).value);
  }

  /** A value that never occurs sums to 0.0: the `fillna(0.0)` of an outer join. */
  lemma {:induction false} SumForAbsent(rows: seq<Row>, c: KeyColumn, k: string)
    requires k !in KeySet(rows, c)
    ensures SumFor(rows, c, k) == 0.0
  {
    if rows != [] {
      SumForAbsent(rows[..|rows| - 1], c, k);
    }
  }
}
