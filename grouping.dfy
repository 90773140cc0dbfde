/** `df.groupby(col)["watch_duration_minutes"].sum()`: one group per
    non-missing value of the column, holding the total minutes of its rows.
    pandas drops missing keys from the groups by default; so does this model. */
module Grouping {
  import opened Wrappers
  import opened Seqs
  import opened Table

  datatype Group = Group(key: string, total: real)

  function GroupKey(g: Group): string {
    g.key
  }

  function GroupTotal(g: Group): real {
    g.total
  }

  /** Position of the group with key `k`, or -1 when there is none. */
  function Find(gs: seq<Group>, k: string): (i: int)
    ensures -1 <= i < |gs|
    ensures i >= 0 ==> gs[i].key == k
    ensures i == -1 <==> k !in KeysOf(gs, GroupKey)
  {
    KeysOfMembers(gs, GroupKey, k);
    if gs == [] then -1
    else if gs[0].key == k then 0
    else
      var j := Find(gs[1..], k);
      KeysOfMembers(gs[1..], GroupKey, k);
      if j == -1 then -1 else j + 1
  }

  /** The summed minutes of key `k`, 0.0 when it has no group. */
  function Lookup(gs: seq<Group>, k: string): real {
    var i := Find(gs, k);
    if i >= 0 then gs[i].total else 0.0
  }

  /** Adds `m` minutes to the group of `k`, opening the group if it is new. */
  function AddTo(gs: seq<Group>, k: string, m: real): seq<Group> {
    var i := Find(gs, k);
    if i >= 0 then gs[i := Group(k, gs[i].total + m)] else gs + [Group(k, m)]
  }

  function GroupSum(rows: seq<Row>, c: KeyColumn): seq<Group> {
    if rows == [] then []
    else
      var gs := GroupSum(rows[..|rows| - 1], c);
      var r := rows[|rows| - 1];
      match Key(r, c)
      case None => gs
      case Some(k) => AddTo(gs, k, r.minutes)
  }

  function SumTotals(gs: seq<Group>): real {
    if gs == [] then 0.0 else SumTotals(gs[..|gs| - 1]) + gs[|gs| - 1].total
  }

  /** `gs` is the group-by-sum of `rows` on `c`. */
  ghost predicate Summarizes(gs: seq<Group>, rows: seq<Row>, c: KeyColumn) {
    && UniqueBy(gs, GroupKey)
    && KeysOf(gs, GroupKey) == KeySet(rows, c)
    && (forall i :: 0 <= i < |gs| ==> gs[i].total == SumFor(rows, c, gs[i].key))
    && SumTotals(gs) + NullMinutes(rows, c) == TotalMinutes(rows)
  }

  lemma {:induction false} SumTotalsUpdate(gs: seq<Group>, i: nat, g: Group)
    requires i < |gs|
    ensures SumTotals(gs[i := g]) == SumTotals(gs) - gs[i].total + g.total
  {
    var n := |gs| - 1;
    assert gs[i := g][..n] == if i < n then gs[..n][i := g] else gs[..n];
    if i < n {
      SumTotalsUpdate(gs[..n], i, g);
    }
  }

  lemma KeysOfUpdate(gs: seq<Group>, i: nat, g: Group)
    requires i < |gs| && g.key == gs[i].key
    ensures KeysOf(gs[i := g], GroupKey) == KeysOf(gs, GroupKey)
  {
    var gs' := gs[i := g];
    forall k ensures k in KeysOf(gs', GroupKey) <==> k in KeysOf(gs, GroupKey) {
      KeysOfMembers(gs', GroupKey, k);
      KeysOfMembers(gs, GroupKey, k);
      if j :| 0 <= j < |gs| && gs'[j].key == k {
        assert gs[j].key == k;
      }
      if j :| 0 <= j < |gs| && gs[j].key == k {
        assert gs'[j].key == k;
      }
    }
  }

  /** How one appended row changes the column sums and the key set. */
  lemma AppendRow(rows: seq<Row>, r: Row, c: KeyColumn)
    ensures TotalMinutes(rows + [r]) == TotalMinutes(rows) + r.minutes
    ensures NullMinutes(rows + [r], c) == NullMinutes(rows, c) + if Key(r, c).None? then r.minutes else 0.0
    ensures KeySet(rows + [r], c) == KeySet(rows, c) + match Key(r, c) case None => {} case Some(k) => {k}
    ensures forall k :: SumFor(rows + [r], c, k) == SumFor(rows, c, k) + if Key(r, c) == Some(k) then r.minutes else 0.0
  {
    assert (rows + [r])[..|rows|] == rows;
  }

  /** A row whose key already has a group adds its minutes to that group. */
  lemma AddToExisting(gs: seq<Group>, rows: seq<Row>, c: KeyColumn, r: Row, k: string)
    requires Summarizes(gs, rows, c)
    requires Key(r, c) == Some(k) && Find(gs, k) >= 0
    ensures Summarizes(AddTo(gs, k, r.minutes), rows + [r], c)
  {
    var rows' := rows + [r];
    var i := Find(gs, k);
    var gs' := AddTo(gs, k, r.minutes);
    AppendRow(rows, r, c);
    KeysOfUpdate(gs, i, Group(k, gs[i].total + r.minutes));
    SumTotalsUpdate(gs, i, Group(k, gs[i].total + r.minutes));
    forall a, b | 0 <= a < b < |gs'| ensures gs'[a].key != gs'[b].key {
      assert gs'[a].key == gs[a].key && gs'[b].key == gs[b].key;
    }
    forall j | 0 <= j < |gs'| ensures gs'[j].total == SumFor(rows', c, gs'[j].key) {
      if j != i {
        assert gs'[j] == gs[j];
      }
    }
  }

  /** A row with a new key opens a group holding its minutes. */
  lemma AddToNew(gs: seq<Group>, rows: seq<Row>, c: KeyColumn, r: Row, k: string)
    requires Summarizes(gs, rows, c)
    requires Key(r, c) == Some(k) && Find(gs, k) == -1
    ensures Summarizes(AddTo(gs, k, r.minutes), rows + [r], c)
  {
    var rows' := rows + [r];
    var gs' := AddTo(gs, k, r.minutes);
    assert gs'[..|gs'| - 1] == gs;
    AppendRow(rows, r, c);
    KeysOfMembers(gs, GroupKey, k);
    forall a, b | 0 <= a < b < |gs'| ensures gs'[a].key != gs'[b].key {
      if b == |gs| {
        assert gs[a].key != k;
      }
    }
    SumForAbsent(rows, c, k);
    forall j | 0 <= j < |gs'| ensures gs'[j].total == SumFor(rows', c, gs'[j].key) {
      if j < |gs| {
        assert gs'[j] == gs[j] && gs[j].key != k;
      }
    }
    assert KeysOf(gs', GroupKey) == KeysOf(gs, GroupKey) + {k};
    assert SumTotals(gs') == SumTotals(gs) + r.minutes;
  }

  /** Adding one more row to the table keeps the groups a group-by-sum. */
  lemma AddRowKeepsSummary(gs: seq<Group>, rows: seq<Row>, c: KeyColumn, r: Row)
    requires Summarizes(gs, rows, c)
    ensures Summarizes(match Key(r, c) case None => gs case Some(k) => AddTo(gs, k, r.minutes), rows + [r], c)
  {
    match Key(r, c)
    case None =>
      AppendRow(rows, r, c);
    case Some(k) =>
      if Find(gs, k) >= 0 {
        AddToExisting(gs, rows, c, r, k);
      } else {
        AddToNew(gs, rows, c, r, k);
      }
  }

  /** Group-by-sum is correct: one group per present key, no key twice, each
      total the sum over that key's rows, and the totals together account for
      every minute except those of rows with a missing key. */
  lemma {:induction false} GroupSumCorrect(rows: seq<Row>, c: KeyColumn)
    ensures Summarizes(GroupSum(rows, c), rows, c)
    ensures |GroupSum(rows, c)| == DistinctCount(rows, c)
  {
    if rows != [] {
      var p := rows[..|rows| - 1];
      GroupSumCorrect(p, c);
      AddRowKeepsSummary(GroupSum(p, c), p, c, rows[|rows| - 1]);
      assert p + [rows[|rows| - 1]] == rows;
    }
    UniqueIffCard(GroupSum(rows, c), GroupKey);
  }

  /** Looking up a key in the group-by-sum gives that key's total, 0.0 for a
      key with no rows. */
  lemma LookupGroupSum(rows: seq<Row>, c: KeyColumn, k: string)
    ensures Lookup(GroupSum(rows, c), k) == SumFor(rows, c, k)
  {
    GroupSumCorrect(rows, c);
    if k !in KeySet(rows, c) {
      SumForAbsent(rows, c, k);
    }
  }
}
