/** `_safe_pct_change`: a period-over-period percent change that is
    undefined, rather than infinite, when the previous value is zero. */
module PctChange {
  import opened Wrappers

  function SafePctChange(current: real, previous: real): (r: Option<real>)
    ensures r.None? <==> previous == 0.0
    // applying the change to the previous value gives back the current one
    ensures r.Some? ==> previous + previous * r.value / 100.0 == current
  {
    if previous == 0.0 then None else Some((current - previous) / previous * 100.0)
  }

  /** The percent change is the unique rate that turns `previous` into `current`. */
  lemma PctChangeUnique(current: real, previous: real, p: real)
    requires previous != 0.0
    requires previous + previous * p / 100.0 == current
    ensures SafePctChange(current, previous) == Some(p)
  {
    var q := SafePctChange(current, previous).value;
    assert previous * q / 100.0 == previous * p / 100.0;
    assert previous * q == previous * p;
    assert previous * (q - p) == 0.0;
    assert q - p == 0.0;
  }

  /** Over a positive base, the change is positive exactly when the value grew
      and zero exactly when it stayed the same. */
  lemma PctChangeSign(current: real, previous: real)
    requires previous > 0.0
    ensures SafePctChange(current, previous).value > 0.0 <==> current > previous
    ensures SafePctChange(current, previous).value == 0.0 <==> current == previous
  {
    var p := SafePctChange(current, previous).value;
    assert current - previous == previous * p / 100.0;
  }

  /** A value that dropped to zero changed by exactly -100%. */
  lemma VanishedIsMinusHundred(previous: real)
    requires previous != 0.0
    ensures SafePctChange(0.0, previous) == Some(-100.0)
  {
    PctChangeUnique(0.0, previous, -100.0);
  }
}
