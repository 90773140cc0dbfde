/** `_delta_table`: for one driver dimension, the per-value minutes of the
    current and the previous period side by side, their difference and its
    percent change, largest movers first, cut to `n` rows. */
module Deltas {
  import opened Wrappers
  import opened Seqs
  import opened Table
  import opened Grouping
  import opened PctChange

  datatype DeltaRow = DeltaRow(key: string, current: real, previous: real, delta: real, pctChange: Option<real>)

  function RowKey(d: DeltaRow): string {
    d.key
  }

  function Abs(x: real): real {
    if x < 0.0 then -x else x
  }

  function AbsDelta(d: DeltaRow): real {
    Abs(d.delta)
  }

  function SignedDelta(d: DeltaRow): real {
    d.delta
  }

  /** The sort key: `|delta|` when `sortByAbs`, `delta` otherwise. */
  function Score(sortByAbs: bool): DeltaRow -> real {
    if sortByAbs then AbsDelta else SignedDelta
  }

  /** One combined row: the `delta` and `pct_change` columns of a key. */
  function MakeRow(k: string, current: real, previous: real): DeltaRow {
    DeltaRow(k, current, previous, current - previous, SafePctChange(current, previous))
  }

  /** The rows of the keys seen in the current period, with the previous
      period's sum or 0.0. */
  function CurrentSide(cur: seq<Group>, prev: seq<Group>): seq<DeltaRow> {
    seq(|cur|, i requires 0 <= i < |cur| => MakeRow(cur[i].key, cur[i].total, Lookup(prev, cur[i].key)))
  }

  /** The rows of the keys seen only in the previous period, with 0.0 now. */
  function PreviousOnly(cur: seq<Group>, prev: seq<Group>): seq<DeltaRow> {
    if prev == [] then []
    else
      var g := prev[|prev| - 1];
      PreviousOnly(cur, prev[..|prev| - 1]) + if Find(cur, g.key) == -1 then [MakeRow(g.key, 0.0, g.total)] else []
  }

  /** The outer combination of two group-by-sums, missing sides filled with 0.0. */
  function OuterCombine(cur: seq<Group>, prev: seq<Group>): seq<DeltaRow> {
    CurrentSide(cur, prev) + PreviousOnly(cur, prev)
  }

  /** In a sequence of groups with unique keys, a group's key looks up its own total. */
  lemma LookupUnique(gs: seq<Group>, j: nat)
    requires UniqueBy(gs, GroupKey) && j < |gs|
    ensures Lookup(gs, gs[j].key) == gs[j].total
  {
    KeysOfMembers(gs, GroupKey, gs[j].key);
  }

  lemma CurrentSideCorrect(cur: seq<Group>, prev: seq<Group>)
    requires UniqueBy(cur, GroupKey)
    ensures var cs := CurrentSide(cur, prev);
      && UniqueBy(cs, RowKey)
      && KeysOf(cs, RowKey) == KeysOf(cur, GroupKey)
      && forall i :: 0 <= i < |cs| ==> cs[i] == MakeRow(cs[i].key, Lookup(cur, cs[i].key), Lookup(prev, cs[i].key))
  {
    var cs := CurrentSide(cur, prev);
    forall i | 0 <= i < |cs| ensures cs[i] == MakeRow(cs[i].key, Lookup(cur, cs[i].key), Lookup(prev, cs[i].key)) {
      LookupUnique(cur, i);
    }
    forall k ensures k in KeysOf(cs, RowKey) <==> k in KeysOf(cur, GroupKey) {
      KeysOfMembers(cs, RowKey, k);
      KeysOfMembers(cur, GroupKey, k);
      if i :| 0 <= i < |cur| && cur[i].key == k {
        assert cs[i].key == k;
      }
    }
  }

  lemma {:induction false} PreviousOnlyRows(cur: seq<Group>, prev: seq<Group>)
    ensures forall d :: d in PreviousOnly(cur, prev) ==>
              exists g :: g in prev && g.key !in KeysOf(cur, GroupKey) && d == MakeRow(g.key, 0.0, g.total)
  {
    if prev != [] {
      var p := prev[..|prev| - 1];
      var g := prev[|prev| - 1];
      PreviousOnlyRows(cur, p);
      forall d | d in PreviousOnly(cur, prev)
        ensures exists g' :: g' in prev && g'.key !in KeysOf(cur, GroupKey) && d == MakeRow(g'.key, 0.0, g'.total)
      {
        if d in PreviousOnly(cur, p) {
          var g' :| g' in p && g'.key !in KeysOf(cur, GroupKey) && d == MakeRow(g'.key, 0.0, g'.total);
          assert g' in prev;
        } else {
          assert g in prev;
        }
      }
    }
  }

  lemma {:induction false} PreviousOnlyKeys(cur: seq<Group>, prev: seq<Group>)
    ensures KeysOf(PreviousOnly(cur, prev), RowKey) == KeysOf(prev, GroupKey) - KeysOf(cur, GroupKey)
  {
    if prev != [] {
      var p := prev[..|prev| - 1];
      var g := prev[|prev| - 1];
      PreviousOnlyKeys(cur, p);
      var tail := if Find(cur, g.key) == -1 then [MakeRow(g.key, 0.0, g.total)] else [];
      KeysOfAppend(PreviousOnly(cur, p), tail, RowKey);
      assert KeysOf(tail, RowKey) == if Find(cur, g.key) == -1 then {g.key} else {};
    }
  }

  lemma {:induction false} PreviousOnlyUnique(cur: seq<Group>, prev: seq<Group>)
    requires UniqueBy(prev, GroupKey)
    ensures UniqueBy(PreviousOnly(cur, prev), RowKey)
  {
    if prev != [] {
      var p := prev[..|prev| - 1];
      var g := prev[|prev| - 1];
      assert UniqueBy(p, GroupKey) by {
        forall i, j | 0 <= i < j < |p| ensures p[i].key != p[j].key {
          assert p[i] == prev[i] && p[j] == prev[j];
        }
      }
      PreviousOnlyUnique(cur, p);
      PreviousOnlyKeys(cur, p);
      forall i | 0 <= i < |p| ensures p[i].key != g.key {
        assert p[i] == prev[i];
      }
      KeysOfMembers(p, GroupKey, g.key);
      var tail := if Find(cur, g.key) == -1 then [MakeRow(g.key, 0.0, g.total)] else [];
      assert KeysOf(tail, RowKey) <= {g.key};
      UniqueAppend(PreviousOnly(cur, p), tail, RowKey);
    }
  }

  /** The outer combination holds every key of either period exactly once,
      with each period's sum looked up and 0.0 where the key is missing. */
  lemma OuterCombineCorrect(cur: seq<Group>, prev: seq<Group>)
    requires UniqueBy(cur, GroupKey) && UniqueBy(prev, GroupKey)
    ensures var rows := OuterCombine(cur, prev);
      && UniqueBy(rows, RowKey)
      && KeysOf(rows, RowKey) == KeysOf(cur, GroupKey) + KeysOf(prev, GroupKey)
      && forall i :: 0 <= i < |rows| ==> rows[i] == MakeRow(rows[i].key, Lookup(cur, rows[i].key), Lookup(prev, rows[i].key))
  {
    var cs := CurrentSide(cur, prev);
    var po := PreviousOnly(cur, prev);
    CurrentSideCorrect(cur, prev);
    PreviousOnlyRows(cur, prev);
    PreviousOnlyKeys(cur, prev);
    PreviousOnlyUnique(cur, prev);
    KeysOfAppend(cs, po, RowKey);
    UniqueAppend(cs, po, RowKey);
    var rows := cs + po;
    forall i | |cs| <= i < |rows|
      ensures rows[i] == MakeRow(rows[i].key, Lookup(cur, rows[i].key), Lookup(prev, rows[i].key))
    {
      assert rows[i] in po;
      var g :| g in prev && g.key !in KeysOf(cur, GroupKey) && rows[i] == MakeRow(g.key, 0.0, g.total);
      var j :| 0 <= j < |prev| && prev[j] == g;
      LookupUnique(prev, j);
    }
  }

  /** The combined row of key `k` for two periods' rows. */
  function KeyRow(cur: seq<Row>, prev: seq<Row>, c: KeyColumn, k: string): DeltaRow {
    MakeRow(k, SumFor(cur, c, k), SumFor(prev, c, k))
  }

  /** `out` is the delta table of `c` over the two periods: as many rows as `n`
      allows out of the keys of either period, no key twice, each row the two
      periods' sums of its key (0.0 for a period without it) with their
      difference and percent change, ordered by the sort key, and no key left
      out that would sort ahead of a key kept. */
  ghost predicate IsDeltaTable(out: seq<DeltaRow>, cur: seq<Row>, prev: seq<Row>, c: KeyColumn, n: nat, sortByAbs: bool) {
    var keys := KeySet(cur, c) + KeySet(prev, c);
    && |out| == Min(n, |keys|)
    && UniqueBy(out, RowKey)
    && SortedDesc(out, Score(sortByAbs))
    && (forall i :: 0 <= i < |out| ==>
          && out[i].key in keys
          && out[i].current == SumFor(cur, c, out[i].key)
          && out[i].previous == SumFor(prev, c, out[i].key)
          && out[i].delta == out[i].current - out[i].previous
          && out[i].pctChange == SafePctChange(out[i].current, out[i].previous))
    && (forall k | k in keys && k !in KeysOf(out, RowKey) ::
          forall i :: 0 <= i < |out| ==> Score(sortByAbs)(KeyRow(cur, prev, c, k)) <= Score(sortByAbs)(out[i]))
  }

  lemma CombinedRowsCorrect(cur: seq<Row>, prev: seq<Row>, c: KeyColumn)
    ensures var comb := OuterCombine(GroupSum(cur, c), GroupSum(prev, c));
      && UniqueBy(comb, RowKey)
      && KeysOf(comb, RowKey) == KeySet(cur, c) + KeySet(prev, c)
      && |comb| == |KeySet(cur, c) + KeySet(prev, c)|
      && forall i :: 0 <= i < |comb| ==> comb[i] == KeyRow(cur, prev, c, comb[i].key)
  {
    var gc, gp := GroupSum(cur, c), GroupSum(prev, c);
    GroupSumCorrect(cur, c);
    GroupSumCorrect(prev, c);
    OuterCombineCorrect(gc, gp);
    var comb := OuterCombine(gc, gp);
    UniqueIffCard(comb, RowKey);
    forall i | 0 <= i < |comb| ensures comb[i] == KeyRow(cur, prev, c, comb[i].key) {
      LookupGroupSum(cur, c, comb[i].key);
      LookupGroupSum(prev, c, comb[i].key);
    }
  }

  lemma SortedCombinedCorrect(cur: seq<Row>, prev: seq<Row>, c: KeyColumn, sortByAbs: bool)
    ensures var sorted := SortDesc(OuterCombine(GroupSum(cur, c), GroupSum(prev, c)), Score(sortByAbs));
      && UniqueBy(sorted, RowKey)
      && KeysOf(sorted, RowKey) == KeySet(cur, c) + KeySet(prev, c)
      && |sorted| == |KeySet(cur, c) + KeySet(prev, c)|
      && forall i :: 0 <= i < |sorted| ==> sorted[i] == KeyRow(cur, prev, c, sorted[i].key)
  {
    var comb := OuterCombine(GroupSum(cur, c), GroupSum(prev, c));
    var sorted := SortDesc(comb, Score(sortByAbs));
    CombinedRowsCorrect(cur, prev, c);
    PermutationKeys(comb, sorted, RowKey);
    assert |sorted| == |multiset(sorted)| == |comb|;
    forall i | 0 <= i < |sorted| ensures sorted[i] == KeyRow(cur, prev, c, sorted[i].key) {
      assert sorted[i] in multiset(comb);
      var j :| 0 <= j < |comb| && comb[j] == sorted[i];
    }
  }

  lemma DeltaRowsTop(cur: seq<Row>, prev: seq<Row>, c: KeyColumn, n: nat, sortByAbs: bool)
    ensures var out := Take(SortDesc(OuterCombine(GroupSum(cur, c), GroupSum(prev, c)), Score(sortByAbs)), n);
      forall k | k in KeySet(cur, c) + KeySet(prev, c) && k !in KeysOf(out, RowKey) ::
        forall i :: 0 <= i < |out| ==> Score(sortByAbs)(KeyRow(cur, prev, c, k)) <= Score(sortByAbs)(out[i])
  {
    var sorted := SortDesc(OuterCombine(GroupSum(cur, c), GroupSum(prev, c)), Score(sortByAbs));
    var out := Take(sorted, n);
    SortedCombinedCorrect(cur, prev, c, sortByAbs);
    forall k | k in KeySet(cur, c) + KeySet(prev, c) && k !in KeysOf(out, RowKey)
      ensures forall i :: 0 <= i < |out| ==> Score(sortByAbs)(KeyRow(cur, prev, c, k)) <= Score(sortByAbs)(out[i])
    {
      KeysOfMembers(sorted, RowKey, k);
      var j :| 0 <= j < |sorted| && sorted[j].key == k;
      if j < |out| {
        assert out[j].key == k;
        KeysOfMembers(out, RowKey, k);
        assert false;
      }
      assert sorted[j] == KeyRow(cur, prev, c, k);
      forall i | 0 <= i < |out| ensures Score(sortByAbs)(sorted[j]) <= Score(sortByAbs)(out[i]) {
        assert out[i] == sorted[i];
      }
    }
  }

  lemma DeltaRowsCorrect(cur: seq<Row>, prev: seq<Row>, c: KeyColumn, n: nat, sortByAbs: bool)
    ensures IsDeltaTable(Take(SortDesc(OuterCombine(GroupSum(cur, c), GroupSum(prev, c)), Score(sortByAbs)), n),
                         cur, prev, c, n, sortByAbs)
  {
    var sorted := SortDesc(OuterCombine(GroupSum(cur, c), GroupSum(prev, c)), Score(sortByAbs));
    var out := Take(sorted, n);
    SortedCombinedCorrect(cur, prev, c, sortByAbs);
    DeltaRowsTop(cur, prev, c, n, sortByAbs);
    assert UniqueBy(out, RowKey);
    assert SortedDesc(out, Score(sortByAbs));
    forall i | 0 <= i < |out| ensures out[i] == KeyRow(cur, prev, c, out[i].key) && out[i].key in KeySet(cur, c) + KeySet(prev, c) {
      assert out[i] == sorted[i];
      KeysOfMembers(sorted, RowKey, sorted[i].key);
    }
  }

  /** `_delta_table(cur_df, prev_df, c, "watch_duration_minutes", n, sort_by_abs)`.
      A dimension missing from either period gives an empty table; a missing
      duration column raises. */
  function DeltaTable(cur: Table, prev: Table, c: KeyColumn, n: nat, sortByAbs: bool): (r: Result<seq<DeltaRow>, Error>)
    ensures KeyCol(c) !in cur.columns || KeyCol(c) !in prev.columns ==> r == Success([])
    ensures (KeyCol(c) in cur.columns && KeyCol(c) in prev.columns &&
             (WatchDuration !in cur.columns || WatchDuration !in prev.columns)) ==>
              r == Failure(KeyError(WatchDuration))
    ensures (KeyCol(c) in cur.columns && KeyCol(c) in prev.columns &&
             WatchDuration in cur.columns && WatchDuration in prev.columns) ==>
              r.Success? && IsDeltaTable(r.value, cur.rows, prev.rows, c, n, sortByAbs)
  {
    if KeyCol(c) !in cur.columns || KeyCol(c) !in prev.columns then Success([])
    else if WatchDuration !in cur.columns || WatchDuration !in prev.columns then Failure(KeyError(WatchDuration))
    else
      DeltaRowsCorrect(cur.rows, prev.rows, c, n, sortByAbs);
      var combined := OuterCombine(GroupSum(cur.rows, c), GroupSum(prev.rows, c));
      Success(Take(SortDesc(combined, Score(sortByAbs)), n))
  }

  /** A key seen only in the current period shows its whole sum as the
      change, with no percent change. */
  lemma NewKeyRow(out: seq<DeltaRow>, cur: seq<Row>, prev: seq<Row>, c: KeyColumn, n: nat, sortByAbs: bool, i: nat)
    requires IsDeltaTable(out, cur, prev, c, n, sortByAbs)
    requires i < |out| && out[i].key !in KeySet(prev, c)
    ensures out[i].previous == 0.0 && out[i].delta == out[i].current && out[i].pctChange == None
  {
    SumForAbsent(prev, c, out[i].key);
  }

  /** A key that vanished from the current period shows its whole previous
      sum as a loss: current 0.0, delta the negated previous sum and, when
      that sum is not zero, a change of -100%. */
  lemma VanishedKeyRow(out: seq<DeltaRow>, cur: seq<Row>, prev: seq<Row>, c: KeyColumn, n: nat, sortByAbs: bool, i: nat)
    requires IsDeltaTable(out, cur, prev, c, n, sortByAbs)
    requires i < |out| && out[i].key !in KeySet(cur, c)
    ensures out[i].current == 0.0 && out[i].delta == -out[i].previous
    ensures out[i].previous != 0.0 ==> out[i].pctChange == Some(-100.0)
  {
    SumForAbsent(cur, c, out[i].key);
    if out[i].previous != 0.0 {
      VanishedIsMinusHundred(out[i].previous);
    }
  }
}
