# Evidence builder of the viewing-analytics dashboard, in Dafny

This project models the evidence builder of a viewing-analytics dashboard.
The builder takes the joined watch-event table (watch events left-joined to
catalog metadata) and the slice the user selected. From these it builds the
"current vs previous period" evidence packet that a summarization service and
the display layer consume. The model covers what the builder computes:

- a percent change that is null when its base is zero;
- per-period aggregates: total minutes, distinct users and titles, and top-5
  group-by-and-sum breakdowns by genre, title, device and country;
- driver-delta tables, which outer-combine the two periods per dimension value,
  fill a missing side with 0.0, sort by |delta| or by delta, and keep `n` rows;
- packet assembly: the previous window of the same length, the previous slice
  under the same genre filter, and the two degraded packets (no current data,
  no previous data) with their fixed notes.

Modules, one per component:

| file | module | models |
|---|---|---|
| `wrappers.dfy` | `Wrappers` | `Option` for a missing value or a `None` result, `Result` for a raised `KeyError` |
| `table.dfy` | `Table` | the joined table: rows, the set of columns present, sums, distinct values |
| `grouping.dfy` | `Grouping` | `groupby(col)[minutes].sum()` |
| `seqs.dfy` | `Seqs` | descending sort on a score, `head(n)`, keys of keyed rows |
| `pct_change.dfy` | `PctChange` | `_safe_pct_change` |
| `aggregates.dfy` | `Aggregates` | `_top_n`, `_period_aggregates` |
| `deltas.dfy` | `Deltas` | `_delta_table` |
| `evidence.dfy` | `Evidence` | `build_evidence`: window, previous slice, packet |
| `timestamps.dfy` | `Timestamps` | the midnight-bound comparison of the previous window (see Findings) |

Modelling choices:

- A table is a set of present columns plus a sequence of rows. Text cells are
  `Option<string>`, where `None` is NaN. Watch dates are day ordinals. Minutes
  are exact `real`s.
- Reading a column the table lacks (`df["user_id"]`) raises `KeyError` in the
  source. The model returns `Failure(KeyError(column))`, and `:-` propagates
  it out of `BuildEvidence` as the exception would. The guards of `_top_n` and
  `_delta_table` on a missing group column give `Success([])`.
- A table records which of the seven read columns it has, and whether it also
  has columns nothing reads (`movie_id`, `content_type`, ...). `DataFrame.empty`
  is true for no rows or for no columns at all, and `IsEmpty` says exactly that.
  A frame with rows whose only columns are unread ones is not empty, and
  aggregating it raises `KeyError`.
- pandas drops NaN keys from `groupby` and `nunique` by default
  (`dropna=True`). So a missing value forms no group and is not counted.
- The value column is always `watch_duration_minutes`, the only one the source
  passes, so it is not a parameter.
- The source's sort (`sort_values`, default quicksort) promises nothing about
  ties. The contracts say the output is non-increasing and says nothing about
  the order of equal scores. The model's insertion sort puts an inserted
  element before the equal elements already sorted.
- Everything the builder assembles in a fresh dictionary is a value here. The
  model is a set of functions, and their contracts state the packet's shape.

## Model

| member | source | states |
|---|---|---|
| `PctChange.SafePctChange` | code_temp/evidence_builder.py:6-9 | None exactly when the previous value is 0; otherwise a rate p such that applying p% to the previous value gives back the current one |
| `PctChange.PctChangeUnique` | code_temp/evidence_builder.py:6-9 | that rate is unique: any p that turns previous into current is the result |
| `PctChange.PctChangeSign` | code_temp/evidence_builder.py:6-9 | over a positive base, the change is positive iff the value grew and zero iff it stayed the same |
| `PctChange.VanishedIsMinusHundred` | code_temp/evidence_builder.py:6-9 | a nonzero value that dropped to 0 changed by exactly -100% |
| `Table.KeySetMembers` | code_temp/evidence_builder.py:16-17 | the key set of a column holds exactly the values present (not NaN) in some row |
| `Table.DistinctCountBound` | code_temp/evidence_builder.py:28-29 | `nunique` of a column is at most the number of rows |
| `Table.DistinctCountPositive` | code_temp/evidence_builder.py:28-29 | a column with at least one present value has a distinct count of at least 1 |
| `Table.SumForAbsent` | code_temp/evidence_builder.py:57-62 | a value with no rows sums to 0.0, which is what `fillna(0.0)` supplies |
| `Grouping.GroupSumCorrect` | code_temp/evidence_builder.py:16-17 | group-by-sum yields one group per present key, no key twice, each total the sum over that key's rows; the totals plus the minutes of NaN-key rows make up the whole total |
| `Grouping.LookupGroupSum` | code_temp/evidence_builder.py:54-62 | looking a key up in a group-by-sum gives that key's sum, 0.0 for a key the period lacks |
| `Seqs.SortDesc` | code_temp/evidence_builder.py:18 | the result is non-increasing in the score and a permutation of the input |
| `Seqs.Take` | code_temp/evidence_builder.py:19 | `head(n)` keeps the first min(n, length) elements |
| `Aggregates.TopGroupsCorrect` | code_temp/evidence_builder.py:15-22 | sorted-and-cut group sums are a top-n breakdown: min(n, distinct keys) rows, unique keys, each total the key's sum, non-increasing, and no omitted key sums more than a kept one |
| `Aggregates.TopN` | code_temp/evidence_builder.py:12-22 | `[]` when the group column is missing; KeyError when the duration column is missing; otherwise a top-n breakdown as above |
| `Aggregates.PeriodAggregates` | code_temp/evidence_builder.py:25-34 | fails with the first missing column among duration, user, title, and succeeds iff all three are present; total is the sum of all minutes; user and title counts are distinct counts bounded by the row count; each breakdown is top-5 or `[]` for a missing column |
| `Aggregates.BreakdownConservesTotal` | code_temp/evidence_builder.py:27-33 | for each breakdown column, the full group-by-sum (before the top-5 cut) has group totals that, with the NaN-key minutes, add up to the period total |
| `Deltas.OuterCombineCorrect` | code_temp/evidence_builder.py:57-68 | the outer combination holds each key of either period exactly once, with each side's sum looked up (0.0 if absent), delta = current - previous and pct_change per the safe rule |
| `Deltas.DeltaRowsCorrect` | code_temp/evidence_builder.py:54-75 | sorting and cutting the combination gives min(n, union of keys) rows with unique keys from the union, per-key sums of each period, delta and pct_change as above, ordered by the sort key, and no omitted key ahead of a kept one |
| `Deltas.DeltaTable` | code_temp/evidence_builder.py:37-86 | `[]` when the dimension is missing from either period; KeyError when a duration column is missing; otherwise the delta table above, sorted by absolute delta or by delta |
| `Deltas.NewKeyRow` | code_temp/evidence_builder.py:57-68 | a key only in the current period has previous 0.0, delta = current and no pct_change |
| `Deltas.VanishedKeyRow` | code_temp/evidence_builder.py:57-68 | a key only in the previous period has current 0.0, delta = -previous and, for a nonzero previous sum, pct_change -100 |
| `Evidence.PreviousWindow` | code_temp/evidence_builder.py:125-130 | days = end - start + 1; the window ends the day before start and spans exactly `days` days; it is the current window shifted back by its own length |
| `Evidence.WindowsAdjacent` | code_temp/evidence_builder.py:125-130 | for start <= end the two windows are disjoint and adjacent, and together cover prev_start..end with no gap |
| `Evidence.RowsInWindow` | code_temp/evidence_builder.py:132-135 | keeps each row with a day in lo..hi as often as it occurs, drops the others |
| `Evidence.RowsOfGenre` | code_temp/evidence_builder.py:138-139 | keeps each row of the genre as often as it occurs; a NaN genre never matches |
| `Evidence.SelectPeriod` | code_temp/evidence_builder.py:132-139 | KeyError for a missing date column, or a missing genre column unless the genre is "All"; otherwise the same columns and exactly the rows in the window with the genre, and empty iff no row of the full table matches |
| `Evidence.SlicesDisjoint` | code_temp/dashboard.py:139-145 | with the current slice selected by the same filters, the two slices share no row, previous rows lie before start, and both hold only the selected genre |
| `Evidence.MinutesPerUser` | code_temp/evidence_builder.py:173-176 | the per-user figure times max(users, 1) is the total; with 0 users it is the total |
| `Evidence.DriverDeltasOf` | code_temp/evidence_builder.py:178-185 | four delta tables (device, country, title, genre), each sorted by absolute delta with at most 6 rows, `[]` for a dimension missing from either slice |
| `Evidence.BuildEvidence` | code_temp/evidence_builder.py:89-204 | packet echoes the filters. Empty current slice: exactly the no-data packet, no aggregation, no KeyError. Otherwise: current aggregates and the derived window. Empty previous slice: no previous block, null pct, engagement and driver fields, and the unavailable note. Empty previous slice never raises. Full path: previous aggregates, the three pct changes and minutes-per-user by the safe rule, four driver tables, empty note. KeyErrors as in the source, naming the first missing aggregate column of either slice |
| `Evidence.NoteNamesBranch` | code_temp/evidence_builder.py:103-202 | the note identifies the branch: no-data iff no current block, unavailable iff current but no previous, empty iff a previous block; changes and driver deltas are present accordingly |
| `Timestamps.AsWrittenDropsLastDay` | code_temp/evidence_builder.py:129-135 | an event at 00:00:01 on the last day of the previous window is dropped by the midnight bound |
| `Timestamps.ByDayCoversWholeDays` | code_temp/evidence_builder.py:129-135 | the calendar-day comparison keeps exactly the timestamps from midnight of the first day up to midnight after the last |
| `Timestamps.AsWrittenWithinDays` | code_temp/evidence_builder.py:129-135 | whatever the midnight comparison keeps, the day comparison keeps too |

## Left out

- Loading the CSV files, normalising column names, parsing dates and joining
  catalog to events (`code_temp/data_layer.py`). The joined table is the input.
- The dashboard page, its widgets, charts and session state
  (`code_temp/dashboard.py`). `filtered_df` is an input, and `BuildEvidence`
  does not require that it was selected by the same filters.
- The summarization service client and its retry over model names
  (`code/ai_layer.py`), and the feedback store (`code/feedback_store.py`).
  Both are network or database I/O.
- PeriodAggregates: `totalWatchMinutes` is the exact sum, not `round(sum, 2)`. The `int()`/`float()` casts are left out too.
- DeltaTable: `pctChange == None` stands for two source values. pandas builds the row-wise `apply` result as a float column, so a zero-base key's `None` becomes NaN whenever another key in the combination has a defined change. Since `x is None` is false for NaN, that NaN reaches the packet. `None` survives only when every key has a zero base. The model does not tell the two apart.
- DeltaTable: current, previous, delta and pct_change are exact. The source rounds them to 2 decimals after cutting to `n` rows.
- BuildEvidence: the top-line pct changes and minutes per user are computed from exact totals. In the source they come from `total_watch_minutes` already rounded to 2 decimals, so a previous total below 0.005 gives a null change there and a defined change in the model. The engagement figures are not rounded either. Floating-point arithmetic is not modelled.
- Dates in `filters` and `previous_window` are day ordinals. The source formats them with `str(...)`.
- Watch dates are whole days. A NaT date, and a time of day on `watch_date`, are not in the table model; the time-of-day effect is treated in `Timestamps` (see Findings).
- `n` is a natural number. pandas' `head` with a negative `n` (drop the last rows) is not modelled; the source only passes 5 and 6.
- DeltaTable: when neither period has a present key value, the model returns `[]`. What pandas' row-wise `apply` does on that empty frame is not modelled.
- The tie order of `sort_values` is not specified, because the source does not fix it.

## Findings

| source | as written | input that shows it | evidently intended | confidence | as-written member | corrected member |
|---|---|---|---|---|---|---|
| code_temp/evidence_builder.py:129-135 | previous window bounds are midnight timestamps compared with full `watch_date` timestamps, so `watch_date <= prev_end_dt` keeps only midnight of the last day | an event at 00:00:01 on `start - 1` day | the window's last day counted in full, as in the dashboard's calendar-day filter of the current slice | low; not executed; only matters when `watch_date` carries a time of day | `Timestamps.AsWrittenDropsLastDay` | `Timestamps.ByDayCoversWholeDays` |

The rest of the model compares calendar days (`Evidence.Selected`), that is,
the corrected comparison.
