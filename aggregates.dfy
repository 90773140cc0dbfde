/** `_top_n` and `_period_aggregates`: the scalar totals, distinct counts and
    top-N breakdowns of one period's slice of the watch table. */
module Aggregates {
  import opened Wrappers
  import opened Seqs
  import opened Table
  import opened Grouping

  /** The breakdown size `_period_aggregates` asks `_top_n` for. */
  const TOP_N: nat := 5

  datatype PeriodAggregate = PeriodAggregate(
    totalWatchMinutes: real,
    activeUsers: nat,
    titlesWatched: nat,
    topGenres: seq<Group>,
    topTitles: seq<Group>,
    watchByDevice: seq<Group>,
    watchByCountry: seq<Group>)

  /** `out` is a top-`n` breakdown of `rows` by `c`: as many groups as `n`
      allows, no key twice, each total the key's summed minutes, non-increasing
      totals, and no key left out that beats a key kept. */
  ghost predicate IsTopN(out: seq<Group>, rows: seq<Row>, c: KeyColumn, n: nat) {
    && |out| == Min(n, DistinctCount(rows, c))
    && UniqueBy(out, GroupKey)
    && SortedDesc(out, GroupTotal)
    && (forall i :: 0 <= i < |out| ==> out[i].key in KeySet(rows, c) && out[i].total == SumFor(rows, c, out[i].key))
    && (forall k | k in KeySet(rows, c) && k !in KeysOf(out, GroupKey) ::
          forall i :: 0 <= i < |out| ==> SumFor(rows, c, k) <= out[i].total)
  }

  /** Every group of the sorted group-by-sum is a key of the rows with its total. */
  lemma SortedGroupsCorrect(rows: seq<Row>, c: KeyColumn)
    ensures var sorted := SortDesc(GroupSum(rows, c), GroupTotal);
      && |sorted| == DistinctCount(rows, c)
      && UniqueBy(sorted, GroupKey)
      && KeysOf(sorted, GroupKey) == KeySet(rows, c)
      && forall i :: 0 <= i < |sorted| ==> sorted[i].key in KeySet(rows, c) && sorted[i].total == SumFor(rows, c, sorted[i].key)
  {
    var gs := GroupSum(rows, c);
    var sorted := SortDesc(gs, GroupTotal);
    GroupSumCorrect(rows, c);
    PermutationKeys(gs, sorted, GroupKey);
    assert |sorted| == |multiset(sorted)| == |gs|;
    forall i | 0 <= i < |sorted|
      ensures sorted[i].key in KeySet(rows, c) && sorted[i].total == SumFor(rows, c, sorted[i].key)
    {
      assert sorted[i] in multiset(gs);
      var j :| 0 <= j < |gs| && gs[j] == sorted[i];
      KeysOfMembers(gs, GroupKey, gs[j].key);
    }
  }

  /** No key left out of the cut sorted groups sums more than a key kept. */
  lemma TopGroupsDominate(rows: seq<Row>, c: KeyColumn, n: nat)
    ensures var out := Take(SortDesc(GroupSum(rows, c), GroupTotal), n);
      forall k | k in KeySet(rows, c) && k !in KeysOf(out, GroupKey) ::
        forall i :: 0 <= i < |out| ==> SumFor(rows, c, k) <= out[i].total
  {
    var sorted := SortDesc(GroupSum(rows, c), GroupTotal);
    var out := Take(sorted, n);
    SortedGroupsCorrect(rows, c);
    forall k | k in KeySet(rows, c) && k !in KeysOf(out, GroupKey)
      ensures forall i :: 0 <= i < |out| ==> SumFor(rows, c, k) <= out[i].total
    {
      KeysOfMembers(sorted, GroupKey, k);
      var j :| 0 <= j < |sorted| && sorted[j].key == k;
      if j < |out| {
        assert out[j].key == k;
        KeysOfMembers(out, GroupKey, k);
        assert false;
      }
      forall i | 0 <= i < |out| ensures sorted[j].total <= out[i].total {
        assert out[i] == sorted[i];
      }
    }
  }

  /** Sorting the group-by-sum and keeping its head gives a top-`n` breakdown. */
  lemma TopGroupsCorrect(rows: seq<Row>, c: KeyColumn, n: nat)
    ensures IsTopN(Take(SortDesc(GroupSum(rows, c), GroupTotal), n), rows, c, n)
  {
    var sorted := SortDesc(GroupSum(rows, c), GroupTotal);
    var out := Take(sorted, n);
    SortedGroupsCorrect(rows, c);
    TopGroupsDominate(rows, c, n);
    assert UniqueBy(out, GroupKey);
    assert SortedDesc(out, GroupTotal);
    forall i | 0 <= i < |out| ensures out[i].key in KeySet(rows, c) && out[i].total == SumFor(rows, c, out[i].key) {
      assert out[i] == sorted[i];
    }
  }

  /** `_top_n(df, c, "watch_duration_minutes", n)`. A missing group column
      gives no breakdown; a missing duration column raises. */
  function TopN(t: Table, c: KeyColumn, n: nat): (r: Result<seq<Group>, Error>)
    ensures KeyCol(c) !in t.columns ==> r == Success([])
    ensures KeyCol(c) in t.columns && WatchDuration !in t.columns ==> r == Failure(KeyError(WatchDuration))
    ensures KeyCol(c) in t.columns && WatchDuration in t.columns ==> r.Success? && IsTopN(r.value, t.rows, c, n)
  {
    if KeyCol(c) !in t.columns then Success([])
    else if WatchDuration !in t.columns then Failure(KeyError(WatchDuration))
    else
      TopGroupsCorrect(t.rows, c, n);
      Success(Take(SortDesc(GroupSum(t.rows, c), GroupTotal), n))
  }

  /** The breakdown `_period_aggregates` stores for `c`: empty when the table
      has no such column, a top-`TOP_N` breakdown otherwise. */
  ghost predicate IsBreakdown(out: seq<Group>, t: Table, c: KeyColumn) {
    if KeyCol(c) in t.columns then IsTopN(out, t.rows, c, TOP_N) else out == []
  }

  /** The columns `_period_aggregates` reads unconditionally. */
  predicate HasAggregateColumns(t: Table) {
    WatchDuration in t.columns && KeyCol(UserId) in t.columns && KeyCol(Title) in t.columns
  }

  /** `_period_aggregates(df)`. The duration, user and title columns are read
      in that order and the first missing one raises; the four breakdowns
      tolerate a missing column. */
  function PeriodAggregates(t: Table): (r: Result<PeriodAggregate, Error>)
    ensures r.Success? <==> HasAggregateColumns(t)
    ensures WatchDuration !in t.columns ==> r == Failure(KeyError(WatchDuration))
    ensures WatchDuration in t.columns && KeyCol(UserId) !in t.columns ==> r == Failure(KeyError(KeyCol(UserId)))
    ensures WatchDuration in t.columns && KeyCol(UserId) in t.columns && KeyCol(Title) !in t.columns ==>
              r == Failure(KeyError(KeyCol(Title)))
    ensures r.Success? ==>
              && r.value.totalWatchMinutes == TotalMinutes(t.rows)
              && r.value.activeUsers == DistinctCount(t.rows, UserId) <= |t.rows|
              && r.value.titlesWatched == DistinctCount(t.rows, Title) <= |t.rows|
              && IsBreakdown(r.value.topGenres, t, GenrePrimary)
              && IsBreakdown(r.value.topTitles, t, Title)
              && IsBreakdown(r.value.watchByDevice, t, DeviceType)
              && IsBreakdown(r.value.watchByCountry, t, LocationCountry)
  {
    if WatchDuration !in t.columns then Failure(KeyError(WatchDuration))
    else if KeyCol(UserId) !in t.columns then Failure(KeyError(KeyCol(UserId)))
    else if KeyCol(Title) !in t.columns then Failure(KeyError(KeyCol(Title)))
    else
      DistinctCountBound(t.rows, UserId);
      DistinctCountBound(t.rows, Title);
      Success(PeriodAggregate(
        TotalMinutes(t.rows),
        DistinctCount(t.rows, UserId),
        DistinctCount(t.rows, Title),
        TopN(t, GenrePrimary, TOP_N).value,
        TopN(t, Title, TOP_N).value,
        TopN(t, DeviceType, TOP_N).value,
        TopN(t, LocationCountry, TOP_N).value))
  }

  /** Each breakdown accounts for the period's minutes: the totals of all
      groups of a column, plus the minutes of rows missing that column's value,
      make up the period total. */
  lemma BreakdownConservesTotal(t: Table, c: KeyColumn)
    requires PeriodAggregates(t).Success?
    ensures SumTotals(GroupSum(t.rows, c)) + NullMinutes(t.rows, c) == PeriodAggregates(t).value.totalWatchMinutes
  {
    GroupSumCorrect(t.rows, c);
  }
}
