/**
 * The four reduction methods of the time summarizer. Each turns every window of R consecutive
 * rows of a table into one output row. Positions are relative to the first row handed in.
 */
module Reduce {
  import opened Spans
  import opened Tables

  /** Python's range(lo, hi, step): lo, lo+step, lo+2*step, ... while below hi. */
  function Range(lo: int, hi: int, step: nat): (r: seq<int>)
    requires step >= 1
    ensures |r| == if lo < hi then (hi - lo - 1) / step + 1 else 0
    ensures forall i :: 0 <= i < |r| ==> r[i] == lo + i * step && lo <= r[i] < hi
    decreases hi - lo
  {
    if lo >= hi then []
    else
      RangeCountStep(lo, hi, step);
      [lo] + Range(lo + step, hi, step)
  }

  /** The output row index: one timestamp per window, at the window's first row. */
  function NewIndex(start: int, len: nat, R: nat): seq<int>
    requires R >= 1
  {
    Range(start, start + len, R)
  }

  /** Where a trailing rolling aggregate over each window lands: at the window's last row. */
  function RollingNewIndex(start: int, len: nat, R: nat): seq<int>
    requires R >= 1
  {
    Range(start + R - 1, start + len, R)
  }

  /**
   * When R divides the length, both indexes have one entry per window, and each window's
   * rolling aggregate sits exactly R-1 rows after the label it is moved to.
   */
  lemma IndexesAgree(start: int, len: nat, R: nat)
    requires R >= 1 && len % R == 0
    ensures |NewIndex(start, len, R)| == len / R == |RollingNewIndex(start, len, R)|
    ensures forall i :: 0 <= i < len / R ==>
      RollingNewIndex(start, len, R)[i] == NewIndex(start, len, R)[i] + R - 1
  {
    DivExact(len, R);
    var q := len / R;
    if q > 0 {
      DivUnique(len - 1, R, q - 1, R - 1);
      DivUnique(len - R, R, q - 1, 0);
    }
  }

  lemma RangeCountStep(lo: int, hi: int, step: nat)
    requires step >= 1 && lo < hi
    ensures (hi - lo - 1) / step + 1 == (if lo + step < hi then (hi - lo - step - 1) / step + 1 else 0) + 1
  {
    if lo + step < hi {
      DivUnique(hi - lo - 1, step, (hi - lo - step - 1) / step + 1, (hi - lo - step - 1) % step);
    } else {
      DivUnique(hi - lo - 1, step, 0, hi - lo - 1);
    }
  }

  lemma {:induction false} MulAtLeast(a: int, R: int)
    requires a >= 1 && R >= 0
    ensures a * R >= R
    decreases a
  {
    if a > 1 {
      MulAtLeast(a - 1, R);
    }
  }

  /** Euclidean division is unique: x = q*R + rem with 0 <= rem < R fixes both. */
  lemma DivUnique(x: int, R: int, q: int, rem: int)
    requires R >= 1 && 0 <= rem < R && x == q * R + rem
    ensures x / R == q && x % R == rem
  {
    var d := x / R;
    var m := x % R;
    assert x == d * R + m;
    if d > q {
      MulAtLeast(d - q, R);
    } else if d < q {
      MulAtLeast(q - d, R);
    }
  }

  lemma DivExact(n: nat, R: nat)
    requires R >= 1 && n % R == 0
    ensures n == (n / R) * R
  {
  }

  /** Every window i of R rows lies inside a table whose length R divides. */
  lemma WindowInBounds(i: nat, R: nat, n: nat)
    requires R >= 1 && n % R == 0 && i < n / R
    ensures 0 <= i * R && i * R + R <= n
  {
    DivExact(n, R);
    MulAtLeast(n / R - i, R);
    assert (n / R - i) * R == n - i * R;
    if i > 0 {
      MulAtLeast(i, R);
    }
  }

  /**
   * The trailing rolling sum of site c over the R rows ending at row p, maintained the way a
   * sliding window is: the previous window's sum, plus the row entering, minus the row leaving.
   */
  function RollingSum(t: Table, w: nat, c: nat, R: nat, p: nat): real
    requires Rect(t, w) && c < w && 1 <= R <= p + 1 && p < |t|
    decreases p
  {
    if p + 1 == R then ColSum(t, w, c, 0, R)
    else RollingSum(t, w, c, R, p - 1) + t[p][c] - t[p - R][c]
  }

  lemma {:induction false} RollingSumIsWindowSum(t: Table, w: nat, c: nat, R: nat, p: nat)
    requires Rect(t, w) && c < w && 1 <= R <= p + 1 && p < |t|
    ensures RollingSum(t, w, c, R, p) == ColSum(t, w, c, p + 1 - R, p + 1)
    decreases p
  {
    if p + 1 != R {
      RollingSumIsWindowSum(t, w, c, R, p - 1);
      ColSumFront(t, w, c, p - R, p + 1);
    }
  }

  /** The rolling sums of every site at row p: the sum of the window of R rows ending there. */
  function RollingSumRow(t: Table, w: nat, R: nat, p: nat): (r: Row)
    requires Rect(t, w) && 1 <= R <= p + 1 && p < |t|
    ensures r == SumRow(t, w, p + 1 - R, p + 1)
  {
    RollingRowLemma(t, w, R, p);
    seq(w, c requires 0 <= c < w => RollingSum(t, w, c, R, p))
  }

  /** The rolling means of every site at row p: the mean of the window of R rows ending there. */
  function RollingMeanRow(t: Table, w: nat, R: nat, p: nat): (r: Row)
    requires Rect(t, w) && 1 <= R <= p + 1 && p < |t|
    ensures r == AvgRow(t, w, p + 1 - R, p + 1)
  {
    RollingRowLemma(t, w, R, p);
    seq(w, c requires 0 <= c < w => RollingSum(t, w, c, R, p) / (R as real))
  }

  lemma RollingRowLemma(t: Table, w: nat, R: nat, p: nat)
    requires Rect(t, w) && 1 <= R <= p + 1 && p < |t|
    ensures forall c :: 0 <= c < w ==> RollingSum(t, w, c, R, p) == ColSum(t, w, c, p + 1 - R, p + 1)
  {
    forall c | 0 <= c < w {
      RollingSumIsWindowSum(t, w, c, R, p);
    }
  }

  /**
   * Sum reduction: the rolling sum read at the last row of every window, relabelled to the
   * window's first row. Output row i is the sum of input rows i*R .. i*R+R-1.
   */
  function ReduceSum(t: Table, w: nat, R: nat): (r: Table)
    requires Rect(t, w) && R >= 1 && |t| % R == 0
    ensures |r| == |t| / R
    ensures Rect(r, w)
    ensures forall i :: 0 <= i < |r| ==> i * R + R <= |t| && r[i] == SumRow(t, w, i * R, i * R + R)
  {
    var ends := RollingNewIndex(0, |t|, R);
    IndexesAgree(0, |t|, R);
    var r := seq(|NewIndex(0, |t|, R)|, i requires 0 <= i < |ends| => RollingSumRow(t, w, R, ends[i]));
    SumsAtWindowEnds(t, w, R, ends, r);
    r
  }

  lemma SumsAtWindowEnds(t: Table, w: nat, R: nat, ends: seq<int>, r: Table)
    requires Rect(t, w) && R >= 1 && |t| % R == 0
    requires ends == RollingNewIndex(0, |t|, R) && |r| == |ends|
    requires forall i :: 0 <= i < |r| ==> R - 1 <= ends[i] < |t| && r[i] == SumRow(t, w, ends[i] + 1 - R, ends[i] + 1)
    ensures |r| == |t| / R
    ensures Rect(r, w)
    ensures forall i :: 0 <= i < |r| ==> i * R + R <= |t| && r[i] == SumRow(t, w, i * R, i * R + R)
  {
    IndexesAgree(0, |t|, R);
    forall i | 0 <= i < |r|
      ensures i * R + R <= |t| && r[i] == SumRow(t, w, i * R, i * R + R)
    {
      assert ends[i] == R - 1 + i * R;
    }
  }

  /**
   * Average reduction: the rolling mean read at the last row of every window, relabelled to
   * the window's first row. Output row i is the mean of input rows i*R .. i*R+R-1.
   */
  function ReduceAverage(t: Table, w: nat, R: nat): (r: Table)
    requires Rect(t, w) && R >= 1 && |t| % R == 0
    ensures |r| == |t| / R
    ensures Rect(r, w)
    ensures forall i :: 0 <= i < |r| ==> i * R + R <= |t| && r[i] == AvgRow(t, w, i * R, i * R + R)
  {
    var ends := RollingNewIndex(0, |t|, R);
    IndexesAgree(0, |t|, R);
    var r := seq(|NewIndex(0, |t|, R)|, i requires 0 <= i < |ends| => RollingMeanRow(t, w, R, ends[i]));
    MeansAtWindowEnds(t, w, R, ends, r);
    r
  }

  lemma MeansAtWindowEnds(t: Table, w: nat, R: nat, ends: seq<int>, r: Table)
    requires Rect(t, w) && R >= 1 && |t| % R == 0
    requires ends == RollingNewIndex(0, |t|, R) && |r| == |ends|
    requires forall i :: 0 <= i < |r| ==> R - 1 <= ends[i] < |t| && r[i] == AvgRow(t, w, ends[i] + 1 - R, ends[i] + 1)
    ensures |r| == |t| / R
    ensures Rect(r, w)
    ensures forall i :: 0 <= i < |r| ==> i * R + R <= |t| && r[i] == AvgRow(t, w, i * R, i * R + R)
  {
    IndexesAgree(0, |t|, R);
    forall i | 0 <= i < |r|
      ensures i * R + R <= |t| && r[i] == AvgRow(t, w, i * R, i * R + R)
    {
      assert ends[i] == R - 1 + i * R;
    }
  }

  /**
   * Cut reduction: no aggregation, keep the first row of every window. A single output row is
   * taken directly from the first input row.
   */
  function ReduceCut<T>(xs: seq<T>, R: nat): (r: seq<T>)
    requires R >= 1 && |xs| % R == 0
    ensures |r| == |xs| / R
    ensures forall i :: 0 <= i < |r| ==> i * R < |xs| && r[i] == xs[i * R]
  {
    var starts := NewIndex(0, |xs|, R);
    IndexesAgree(0, |xs|, R);
    if |starts| == 1 then [xs[0]]
    else seq(|starts|, i requires 0 <= i < |starts| => xs[starts[i]])
  }

  /** The sum of weight times target for site c over rows lo .. hi-1, accumulated row by row. */
  function WeightedSum(target: Table, weight: Table, w: nat, c: nat, lo: nat, hi: nat): real
    requires Rect(target, w) && Rect(weight, w) && c < w && lo <= hi <= |target| && hi <= |weight|
    decreases hi - lo
  {
    if lo == hi then 0.0
    else WeightedSum(target, weight, w, c, lo, hi - 1) + weight[hi - 1][c] * target[hi - 1][c]
  }

  /**
   * The weighted mean of site c over rows lo .. hi-1. A zero total weight makes the quotient
   * undefined, and an undefined cell is set to 0.
   */
  function WeightedCell(target: Table, weight: Table, w: nat, c: nat, lo: nat, hi: nat): (r: real)
    requires Rect(target, w) && Rect(weight, w) && c < w && lo <= hi <= |target| && hi <= |weight|
    ensures ColSum(weight, w, c, lo, hi) == 0.0 ==> r == 0.0
    ensures ColSum(weight, w, c, lo, hi) != 0.0 ==>
      r * ColSum(weight, w, c, lo, hi) == WeightedSum(target, weight, w, c, lo, hi)
  {
    var total := ColSum(weight, w, c, lo, hi);
    if total == 0.0 then 0.0 else WeightedSum(target, weight, w, c, lo, hi) / total
  }

  function WeightedRow(target: Table, weight: Table, w: nat, lo: nat, hi: nat): (r: Row)
    requires Rect(target, w) && Rect(weight, w) && lo <= hi <= |target| && hi <= |weight|
    ensures |r| == w
  {
    seq(w, c requires 0 <= c < w => WeightedCell(target, weight, w, c, lo, hi))
  }

  /**
   * Weighted-average reduction: output row i is, site by site, the weight-weighted mean of
   * target rows i*R .. i*R+R-1, with weight rows read at the same positions i*R+j. The weight
   * table is passed whole: when the target is a slice that does not start at row 0, the weight
   * rows read are still those at i*R+j counted from row 0 of the weight table, not from the
   * slice's first row.
   */
  function ReduceWeightedAverage(target: Table, weight: Table, w: nat, R: nat): (r: Table)
    requires Rect(target, w) && Rect(weight, w) && R >= 1 && |target| % R == 0
    requires |target| <= |weight|
    ensures |r| == |target| / R
    ensures Rect(r, w)
    ensures forall i :: 0 <= i < |r| ==> i * R + R <= |target| && r[i] == WeightedRow(target, weight, w, i * R, i * R + R)
  {
    var starts := NewIndex(0, |target|, R);
    var ends := RollingNewIndex(0, |target|, R);
    IndexesAgree(0, |target|, R);
    var r := seq(|starts|, i requires 0 <= i < |starts| => WeightedRow(target, weight, w, starts[i], ends[i] + 1));
    WeightedAtWindows(target, weight, w, R, starts, ends, r);
    r
  }

  lemma WeightedAtWindows(target: Table, weight: Table, w: nat, R: nat, starts: seq<int>, ends: seq<int>, r: Table)
    requires Rect(target, w) && Rect(weight, w) && R >= 1 && |target| % R == 0
    requires |target| <= |weight|
    requires starts == NewIndex(0, |target|, R) && ends == RollingNewIndex(0, |target|, R)
    requires |r| == |starts| == |ends|
    requires forall i :: 0 <= i < |r| ==>
      0 <= starts[i] <= ends[i] < |target| && r[i] == WeightedRow(target, weight, w, starts[i], ends[i] + 1)
    ensures |r| == |target| / R
    ensures Rect(r, w)
    ensures forall i :: 0 <= i < |r| ==> i * R + R <= |target| && r[i] == WeightedRow(target, weight, w, i * R, i * R + R)
  {
    IndexesAgree(0, |target|, R);
    forall i | 0 <= i < |r|
      ensures i * R + R <= |target| && r[i] == WeightedRow(target, weight, w, i * R, i * R + R)
    {
      assert starts[i] == i * R && ends[i] == R - 1 + i * R;
    }
  }

  /** Summing window by window keeps every site's total over the whole table. */
  lemma {:induction false} ReduceSumKeepsTotals(t: Table, w: nat, R: nat, c: nat)
    requires Rect(t, w) && R >= 1 && |t| % R == 0 && c < w
    ensures ColSum(ReduceSum(t, w, R), w, c, 0, |t| / R) == ColSum(t, w, c, 0, |t|)
  {
    var r := ReduceSum(t, w, R);
    DivExact(|t|, R);
    SumPrefixWindows(t, w, R, c, r, |r|);
  }

  lemma {:induction false} SumPrefixWindows(t: Table, w: nat, R: nat, c: nat, r: Table, k: nat)
    requires Rect(t, w) && R >= 1 && |t| % R == 0 && c < w
    requires Rect(r, w) && k <= |r|
    requires forall i :: 0 <= i < |r| ==> i * R + R <= |t| && r[i] == SumRow(t, w, i * R, i * R + R)
    ensures k * R <= |t|
    ensures ColSum(r, w, c, 0, k) == ColSum(t, w, c, 0, k * R)
    decreases k
  {
    if k > 0 {
      SumPrefixWindows(t, w, R, c, r, k - 1);
      var lo := (k - 1) * R;
      MulSucc(k - 1, R);
      assert r[k - 1][c] == ColSum(t, w, c, lo, lo + R);
      ColSumSplit(t, w, c, 0, lo, lo + R);
    }
  }

  /**
   * With non-negative weights a zero total weight means every weight in the window is zero, so
   * the weighted sum is zero too: the cell set to 0 is the value the quotient's limit would
   * give, not an arbitrary stand-in.
   */
  lemma {:induction false} ZeroTotalWeightZeroSum(target: Table, weight: Table, w: nat, c: nat, lo: nat, hi: nat)
    requires Rect(target, w) && Rect(weight, w) && c < w && lo <= hi <= |target| && hi <= |weight|
    requires forall k :: lo <= k < hi ==> weight[k][c] >= 0.0
    ensures ColSum(weight, w, c, lo, hi) >= 0.0
    ensures ColSum(weight, w, c, lo, hi) == 0.0 ==> WeightedSum(target, weight, w, c, lo, hi) == 0.0
    decreases hi - lo
  {
    if lo < hi {
      ZeroTotalWeightZeroSum(target, weight, w, c, lo, hi - 1);
    }
  }

  /** Every weight is one. */
  predicate UnitWeights(weight: Table, w: nat)
  {
    forall k, s :: 0 <= k < |weight| && 0 <= s < |weight[k]| ==> weight[k][s] == 1.0
  }

  /** Summing all-ones weights counts the rows. */
  lemma {:induction false} UnitWeightsCount(weight: Table, w: nat, c: nat, lo: nat, hi: nat)
    requires Rect(weight, w) && c < w && lo <= hi <= |weight|
    requires UnitWeights(weight, w)
    ensures ColSum(weight, w, c, lo, hi) == (hi - lo) as real
    decreases hi - lo
  {
    if lo < hi {
      UnitWeightsCount(weight, w, c, lo, hi - 1);
    }
  }

  /** Weighting every row by one is plain summation. */
  lemma {:induction false} UnitWeightedSum(target: Table, weight: Table, w: nat, c: nat, lo: nat, hi: nat)
    requires Rect(target, w) && Rect(weight, w) && c < w && lo <= hi <= |target| && hi <= |weight|
    requires UnitWeights(weight, w)
    ensures WeightedSum(target, weight, w, c, lo, hi) == ColSum(target, w, c, lo, hi)
    decreases hi - lo
  {
    if lo < hi {
      UnitWeightedSum(target, weight, w, c, lo, hi - 1);
    }
  }

  /**
   * Against an independent definition: with every weight equal to one, the weighted average
   * of each window is its plain mean, so the weighted-average reduction and the average
   * reduction agree.
   */
  lemma UnitWeightsGiveAverage(target: Table, weight: Table, w: nat, R: nat)
    requires Rect(target, w) && Rect(weight, w) && R >= 1 && |target| % R == 0 && |target| <= |weight|
    requires UnitWeights(weight, w)
    ensures ReduceWeightedAverage(target, weight, w, R) == ReduceAverage(target, w, R)
  {
    var a := ReduceWeightedAverage(target, weight, w, R);
    var b := ReduceAverage(target, w, R);
    forall i | 0 <= i < |a|
      ensures a[i] == b[i]
    {
      var lo := i * R;
      assert a[i] == WeightedRow(target, weight, w, lo, lo + R);
      assert b[i] == AvgRow(target, w, lo, lo + R);
      UnitWeightsWindow(target, weight, w, lo, lo + R);
    }
  }

  lemma UnitWeightsWindow(target: Table, weight: Table, w: nat, lo: nat, hi: nat)
    requires Rect(target, w) && Rect(weight, w) && lo < hi <= |target| && hi <= |weight|
    requires UnitWeights(weight, w)
    ensures WeightedRow(target, weight, w, lo, hi) == AvgRow(target, w, lo, hi)
  {
    forall c | 0 <= c < w
      ensures WeightedRow(target, weight, w, lo, hi)[c] == AvgRow(target, w, lo, hi)[c]
    {
      UnitWeightsCount(weight, w, c, lo, hi);
      UnitWeightedSum(target, weight, w, c, lo, hi);
    }
  }

  /**
   * The cut of a contiguous step index is the new index itself: the first timestamp of every
   * window, stepping by R from the first timestamp.
   */
  lemma CutOfContiguousIndex(ts: seq<int>, start: int, R: nat)
    requires R >= 1 && |ts| % R == 0
    requires forall k :: 0 <= k < |ts| ==> ts[k] == start + k
    ensures ReduceCut(ts, R) == NewIndex(start, |ts|, R)
  {
    IndexesAgree(start, |ts|, R);
  }

  /** Sums of [1, 2, 3, 4] at R = 2 are [3, 7]. */
  lemma SumExample()
    ensures ReduceSum([[1.0], [2.0], [3.0], [4.0]], 1, 2) == [[3.0], [7.0]]
  {
    var t: Table := [[1.0], [2.0], [3.0], [4.0]];
    var r := ReduceSum(t, 1, 2);
    assert r[0] == SumRow(t, 1, 0, 2) && r[1] == SumRow(t, 1, 2, 4);
    assert SumRow(t, 1, 0, 2) == [3.0];
    assert SumRow(t, 1, 2, 4) == [7.0];
  }

  /** Means of [1, 2, 3, 4] at R = 2 are [1.5, 3.5]. */
  lemma AverageExample()
    ensures ReduceAverage([[1.0], [2.0], [3.0], [4.0]], 1, 2) == [[1.5], [3.5]]
  {
    var t: Table := [[1.0], [2.0], [3.0], [4.0]];
    var r := ReduceAverage(t, 1, 2);
    assert r[0] == AvgRow(t, 1, 0, 2) && r[1] == AvgRow(t, 1, 2, 4);
    assert ColSum(t, 1, 0, 0, 2) == 3.0 && ColSum(t, 1, 0, 2, 4) == 7.0;
    assert AvgRow(t, 1, 0, 2) == [1.5];
    assert AvgRow(t, 1, 2, 4) == [3.5];
  }

  /** Target [1, 3] weighted by [1, 3] at R = 2 averages to (1*1 + 3*3) / (1 + 3) = 2.5. */
  lemma WeightedExample()
    ensures ReduceWeightedAverage([[1.0], [3.0]], [[1.0], [3.0]], 1, 2) == [[2.5]]
  {
    var t: Table := [[1.0], [3.0]];
    var r := ReduceWeightedAverage(t, t, 1, 2);
    assert r[0] == WeightedRow(t, t, 1, 0, 2);
    assert ColSum(t, 1, 0, 0, 2) == 4.0;
    assert WeightedSum(t, t, 1, 0, 0, 2) == 10.0;
    assert WeightedCell(t, t, 1, 0, 0, 2) == 2.5;
    assert WeightedRow(t, t, 1, 0, 2) == [2.5];
  }

  /** A window whose weights are all zero gives 0. */
  lemma ZeroWeightExample()
    ensures ReduceWeightedAverage([[5.0], [7.0]], [[0.0], [0.0]], 1, 2) == [[0.0]]
  {
    var t: Table := [[5.0], [7.0]];
    var z: Table := [[0.0], [0.0]];
    var r := ReduceWeightedAverage(t, z, 1, 2);
    assert r[0] == WeightedRow(t, z, 1, 0, 2);
    assert ColSum(z, 1, 0, 0, 2) == 0.0;
    assert WeightedRow(t, z, 1, 0, 2) == [0.0];
  }

  /** Cutting [10, 20, 30, 40] at R = 2 keeps the first row of each window: [10, 30]. */
  lemma CutExample()
    ensures ReduceCut([10, 20, 30, 40], 2) == [10, 30]
  {
    var r := ReduceCut([10, 20, 30, 40], 2);
    assert r[0] == 10 && r[1] == 30;
  }
}
