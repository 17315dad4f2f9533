/** Per-site tables: one row per timestep, one real value per site in every row. */
module Tables {

  type Row = seq<real>
  type Table = seq<Row>

  /** Every row of t holds exactly w sites. */
  predicate Rect(t: Table, w: nat)
  {
    forall k :: 0 <= k < |t| ==> |t[k]| == w
  }

  /** The sum of site c over the rows lo .. hi-1. */
  function ColSum(t: Table, w: nat, c: nat, lo: nat, hi: nat): real
    requires Rect(t, w) && c < w && lo <= hi <= |t|
    decreases hi - lo
  {
    if lo == hi then 0.0 else ColSum(t, w, c, lo, hi - 1) + t[hi - 1][c]
  }

  /** Site by site, the sum of the rows lo .. hi-1. */
  function SumRow(t: Table, w: nat, lo: nat, hi: nat): (r: Row)
    requires Rect(t, w) && lo <= hi <= |t|
    ensures |r| == w
  {
    seq(w, c requires 0 <= c < w => ColSum(t, w, c, lo, hi))
  }

  /** Site by site, the mean of the rows lo .. hi-1. */
  function AvgRow(t: Table, w: nat, lo: nat, hi: nat): (r: Row)
    requires Rect(t, w) && lo < hi <= |t|
    ensures |r| == w
  {
    seq(w, c requires 0 <= c < w => ColSum(t, w, c, lo, hi) / ((hi - lo) as real))
  }

  /** The sum over all sites of one row. */
  function RowSum(row: Row): real
  {
    if |row| == 0 then 0.0 else RowSum(row[..|row| - 1]) + row[|row| - 1]
  }

  lemma {:induction false} ColSumFront(t: Table, w: nat, c: nat, lo: nat, hi: nat)
    requires Rect(t, w) && c < w && lo < hi <= |t|
    ensures ColSum(t, w, c, lo, hi) == t[lo][c] + ColSum(t, w, c, lo + 1, hi)
    decreases hi - lo
  {
    if lo + 1 < hi {
      ColSumFront(t, w, c, lo, hi - 1);
    }
  }

  lemma {:induction false} ColSumSplit(t: Table, w: nat, c: nat, lo: nat, mid: nat, hi: nat)
    requires Rect(t, w) && c < w && lo <= mid <= hi <= |t|
    ensures ColSum(t, w, c, lo, hi) == ColSum(t, w, c, lo, mid) + ColSum(t, w, c, mid, hi)
    decreases hi - mid
  {
    if mid < hi {
      ColSumSplit(t, w, c, lo, mid, hi - 1);
    }
  }

  /** A sum over a slice of t is the sum over the same rows of t itself. */
  lemma {:induction false} ColSumSlice(t: Table, w: nat, c: nat, a: nat, b: nat, lo: nat, hi: nat)
    requires Rect(t, w) && c < w && a <= b <= |t| && lo <= hi <= b - a
    ensures Rect(t[a..b], w)
    ensures ColSum(t[a..b], w, c, lo, hi) == ColSum(t, w, c, a + lo, a + hi)
    decreases hi - lo
  {
    assert Rect(t[a..b], w);
    if lo < hi {
      ColSumSlice(t, w, c, a, b, lo, hi - 1);
    }
  }

  /** The sum of a single row is that row. */
  lemma SumRowSingle(t: Table, w: nat, p: nat)
    requires Rect(t, w) && p < |t|
    ensures SumRow(t, w, p, p + 1) == t[p]
  {
    forall c | 0 <= c < w
      ensures SumRow(t, w, p, p + 1)[c] == t[p][c]
    {
      assert ColSum(t, w, c, p, p + 1) == ColSum(t, w, c, p, p) + t[p][c];
    }
  }

  /** The mean of a single row is that row. */
  lemma AvgRowSingle(t: Table, w: nat, p: nat)
    requires Rect(t, w) && p < |t|
    ensures AvgRow(t, w, p, p + 1) == t[p]
  {
    forall c | 0 <= c < w
      ensures AvgRow(t, w, p, p + 1)[c] == t[p][c]
    {
      assert ColSum(t, w, c, p, p + 1) == ColSum(t, w, c, p, p) + t[p][c];
    }
  }

  lemma SumRowSlice(t: Table, w: nat, a: nat, b: nat, lo: nat, hi: nat)
    requires Rect(t, w) && a <= b <= |t| && lo <= hi <= b - a
    ensures Rect(t[a..b], w)
    ensures SumRow(t[a..b], w, lo, hi) == SumRow(t, w, a + lo, a + hi)
  {
    forall c | 0 <= c < w {
      ColSumSlice(t, w, c, a, b, lo, hi);
    }
  }

  lemma AvgRowSlice(t: Table, w: nat, a: nat, b: nat, lo: nat, hi: nat)
    requires Rect(t, w) && a <= b <= |t| && lo < hi <= b - a
    ensures Rect(t[a..b], w)
    ensures AvgRow(t[a..b], w, lo, hi) == AvgRow(t, w, a + lo, a + hi)
  {
    forall c | 0 <= c < w {
      ColSumSlice(t, w, c, a, b, lo, hi);
    }
  }
}
