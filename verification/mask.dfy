/** mask_where_zero_dni: the 0/1 mask that flags the rows where no site sees any irradiance. */
module Mask {
  import opened Tables
  import opened Dataset

  /** The mask table: per row, the site sum of `dni` (column `data`) and the `summarize` flag. */
  datatype MaskTable = MaskTable(data: seq<real>, summarize: seq<int>)

  /** Every flag is 0 or 1. */
  predicate IsMask(s: seq<int>)
  {
    forall i :: 0 <= i < |s| ==> s[i] == 0 || s[i] == 1
  }

  /** Sums `dni` over the sites of each row and flags the rows whose sum is not positive. */
  function MaskWhereZeroDni(d: Data): (m: MaskTable)
    requires "dni" in d.vars
    ensures |m.data| == |m.summarize| == |d.vars["dni"].rows|
    ensures IsMask(m.summarize)
    ensures forall i :: 0 <= i < |m.data| ==> m.data[i] == RowSum(d.vars["dni"].rows[i])
    ensures forall i :: 0 <= i < |m.summarize| ==> (m.summarize[i] == 1 <==> m.data[i] <= 0.0)
  {
    var rows := d.vars["dni"].rows;
    var sums := seq(|rows|, i requires 0 <= i < |rows| => RowSum(rows[i]));
    MaskTable(sums, seq(|rows|, i requires 0 <= i < |rows| => if sums[i] <= 0.0 then 1 else 0))
  }

  /** No site value is negative. */
  predicate NonNegative(row: Row)
  {
    forall c :: 0 <= c < |row| ==> row[c] >= 0.0
  }

  /** A sum of non-negative values is not positive exactly when every value is zero. */
  lemma {:induction false} NonNegativeSumZero(row: Row)
    requires NonNegative(row)
    ensures RowSum(row) >= 0.0
    ensures RowSum(row) <= 0.0 <==> forall c :: 0 <= c < |row| ==> row[c] == 0.0
    decreases |row|
  {
    if |row| > 0 {
      var init := row[..|row| - 1];
      NonNegativeSumZero(init);
      if RowSum(row) <= 0.0 {
        forall c | 0 <= c < |row|
          ensures row[c] == 0.0
        {
          if c < |row| - 1 {
            assert row[c] == init[c];
          }
        }
      } else {
        assert !(forall c :: 0 <= c < |init| ==> init[c] == 0.0) || row[|row| - 1] != 0.0;
        if row[|row| - 1] == 0.0 {
          var c :| 0 <= c < |init| && init[c] != 0.0;
          assert row[c] == init[c];
        }
      }
    }
  }

  /** With non-negative irradiance, a row is flagged exactly when every site reads zero. */
  lemma FlagMeansDark(d: Data, i: nat)
    requires "dni" in d.vars && i < |d.vars["dni"].rows|
    requires NonNegative(d.vars["dni"].rows[i])
    ensures MaskWhereZeroDni(d).summarize[i] == 1 <==>
      forall c :: 0 <= c < |d.vars["dni"].rows[i]| ==> d.vars["dni"].rows[i][c] == 0.0
  {
    NonNegativeSumZero(d.vars["dni"].rows[i]);
  }
}
