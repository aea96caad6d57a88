/** `_stat_str`: one reported percentage. */
module Stats {

  /** The report label: blank when there is nothing to measure against, otherwise
      the percentage with the counts it was computed from (`"%.1f%% (x / n)"`;
      the one-decimal rendering of the percentage is not modelled). */
  datatype Label = Blank | Percent(percent: real, matched: nat, total: nat)

  /** The `{"label": ..., "val": ...}` pair. */
  datatype Stat = Stat(value: real, text: Label)

  /** `_stat_str(x, n)`: `100 * x / n` with a label naming `x` and `n` when `n > 0`;
      value 0 and a blank label when `n == 0`, so "no data" differs from "0%". */
  function StatOf(x: nat, n: nat): (r: Stat)
    ensures n == 0 ==> r == Stat(0.0, Blank)
    ensures n > 0 ==> r.value * (n as real) == 100.0 * (x as real)
    ensures n > 0 ==> r.text == Percent(r.value, x, n)
    ensures r.value >= 0.0
  {
    if n > 0 then
      var v := (x as real) / (n as real) * 100.0;
      Stat(v, Percent(v, x, n))
    else Stat(0.0, Blank)
  }

  /** A count that does not exceed its total reports at most 100%. */
  lemma StatAtMostHundred(x: nat, n: nat)
    requires x <= n
    ensures StatOf(x, n).value <= 100.0
  {
    if n > 0 {
      var v := StatOf(x, n).value;
      assert v * (n as real) <= 100.0 * (n as real);
    }
  }
}
