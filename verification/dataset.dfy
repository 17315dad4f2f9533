/**
 * A time-series dataset and the uniform resolution reducer: the policy table that says how each
 * known variable is reduced, and reduce_resolution over the whole series or over a row range.
 */
module Dataset {
  import opened Spans
  import opened Tables
  import opened Reduce

  datatype Option<T> = None | Some(value: T)

  /** A calendar timestamp. The reducer only ever selects these, it never looks inside. */
  datatype Stamp = Stamp(ticks: int)

  /** A per-site data variable: one row per timestep, `width` sites per row. */
  datatype Frame = Frame(width: nat, rows: Table)

  /** The four reduction methods; the weighted average names the variable holding its weights. */
  datatype Method = Sum | Average | WeightedAverage(weights: string) | Cut

  /** The policy table: how each known variable is reduced. */
  const KnownDataTypes: map<string, Method> :=
    map["_t" := Cut, "_dt" := Cut, "dni" := Sum, "n_sf" := WeightedAverage("dni"), "n_el" := Average, "D" := Sum]

  /**
   * A dataset. The reserved keys are fields: `t` is the master step index `_t`, `dt` the
   * datetimes `_dt` (which may be absent), `timeRes` the `time_res_series` written by the
   * reducer; every other key is a per-site variable in `vars`.
   */
  datatype Data = Data(t: seq<int>, dt: Option<seq<Stamp>>, vars: map<string, Frame>, timeRes: Option<seq<int>>)

  predicate Reserved(k: string)
  {
    k == "_t" || k == "_dt" || k == "time_res_series"
  }

  predicate ValidFrame(f: Frame)
  {
    Rect(f.rows, f.width)
  }

  /** Variable k has one row per step, and the weights its policy names are present and aligned. */
  predicate Governed(vars: map<string, Frame>, k: string, n: nat)
    requires k in vars && k in KnownDataTypes
  {
    && ValidFrame(vars[k])
    && |vars[k].rows| == n
    && match KnownDataTypes[k]
       case WeightedAverage(aux) =>
         aux in vars && ValidFrame(vars[aux]) && vars[aux].width == vars[k].width && |vars[aux].rows| == n
       case _ => true
  }

  /** Every variable in the policy table is aligned with `_t`, and so is `_dt`. */
  predicate WellFormed(d: Data)
  {
    && (d.dt.Some? ==> |d.dt.value| == |d.t|)
    && (forall k :: k in d.vars ==> !Reserved(k))
    && (forall k :: k in d.vars && k in KnownDataTypes ==> Governed(d.vars, k, |d.t|))
  }

  /** The weight table handed to variable k's method: the whole weights variable, unsliced. */
  function WeightsOf(vars: map<string, Frame>, k: string): Table
    requires k in KnownDataTypes
  {
    match KnownDataTypes[k]
    case WeightedAverage(aux) => if aux in vars then vars[aux].rows else []
    case _ => []
  }

  /** The single row that the rows of span g fold into under a method. */
  function FoldRow(t: Table, w: nat, how: Method, weight: Table, g: Span): (r: Row)
    requires Rect(t, w) && g.lo < g.hi <= |t|
    requires how.WeightedAverage? ==> Rect(weight, w) && g.hi <= |weight|
    ensures |r| == w
  {
    match how
    case Sum => SumRow(t, w, g.lo, g.hi)
    case Average => AvgRow(t, w, g.lo, g.hi)
    case WeightedAverage(_) => WeightedRow(t, weight, w, g.lo, g.hi)
    case Cut => t[g.lo]
  }

  /** Row i of out is the fold of window i of s, the rows i*R .. i*R+R-1, for every row of out. */
  ghost predicate FoldsWindows(out: Table, s: Table, w: nat, how: Method, weight: Table, R: nat)
    requires Rect(s, w) && R >= 1
    requires how.WeightedAverage? ==> Rect(weight, w) && |s| <= |weight|
  {
    forall i :: 0 <= i < |out| ==>
      i * R + R <= |s| && out[i] == FoldRow(s, w, how, weight, Span(i * R, i * R + R))
  }

  /** Row from + i*R of rows is the fold of window i of s, for every whole window of s. */
  ghost predicate FoldedAt(rows: Table, from: nat, s: Table, w: nat, how: Method, weight: Table, R: nat)
    requires Rect(s, w) && R >= 1
    requires how.WeightedAverage? ==> Rect(weight, w) && |s| <= |weight|
  {
    forall i :: 0 <= i && i * R + R <= |s| ==>
      from + i * R < |rows| && rows[from + i * R] == FoldRow(s, w, how, weight, Span(i * R, i * R + R))
  }

  /** Applies a method to a whole frame with window R. */
  function ReduceFrame(f: Frame, how: Method, weight: Table, R: nat): (r: Frame)
    requires ValidFrame(f) && R >= 1 && |f.rows| % R == 0
    requires how.WeightedAverage? ==> Rect(weight, f.width) && |f.rows| <= |weight|
    ensures r.width == f.width && ValidFrame(r) && |r.rows| * R == |f.rows|
    ensures FoldsWindows(r.rows, f.rows, f.width, how, weight, R)
  {
    DivExact(|f.rows|, R);
    match how
    case Sum =>
      var rows := ReduceSum(f.rows, f.width, R);
      SumFolds(f.rows, f.width, weight, R, rows);
      Frame(f.width, rows)
    case Average =>
      var rows := ReduceAverage(f.rows, f.width, R);
      AverageFolds(f.rows, f.width, weight, R, rows);
      Frame(f.width, rows)
    case WeightedAverage(aux) =>
      var rows := ReduceWeightedAverage(f.rows, weight, f.width, R);
      WeightedFolds(f.rows, f.width, aux, weight, R, rows);
      Frame(f.width, rows)
    case Cut =>
      var rows := ReduceCutRows(f.rows, f.width, R);
      CutFolds(f.rows, f.width, weight, R, rows);
      Frame(f.width, rows)
  }

  lemma CutFolds(t: Table, w: nat, weight: Table, R: nat, rows: Table)
    requires Rect(t, w) && R >= 1 && |t| % R == 0 && |rows| == |t| / R
    requires forall i :: 0 <= i < |rows| ==> i * R < |t| && rows[i] == t[i * R]
    ensures FoldsWindows(rows, t, w, Cut, weight, R)
  {
    forall i | 0 <= i < |rows|
      ensures i * R + R <= |t|
    {
      WindowInBounds(i, R, |t|);
    }
  }

  lemma SumFolds(t: Table, w: nat, weight: Table, R: nat, rows: Table)
    requires Rect(t, w) && R >= 1
    requires forall i :: 0 <= i < |rows| ==> i * R + R <= |t| && rows[i] == SumRow(t, w, i * R, i * R + R)
    ensures FoldsWindows(rows, t, w, Sum, weight, R)
  {
  }

  lemma AverageFolds(t: Table, w: nat, weight: Table, R: nat, rows: Table)
    requires Rect(t, w) && R >= 1
    requires forall i :: 0 <= i < |rows| ==> i * R + R <= |t| && rows[i] == AvgRow(t, w, i * R, i * R + R)
    ensures FoldsWindows(rows, t, w, Average, weight, R)
  {
  }

  lemma WeightedFolds(t: Table, w: nat, aux: string, weight: Table, R: nat, rows: Table)
    requires Rect(t, w) && R >= 1 && Rect(weight, w) && |t| <= |weight|
    requires forall i :: 0 <= i < |rows| ==>
      i * R + R <= |t| && rows[i] == WeightedRow(t, weight, w, i * R, i * R + R)
    ensures FoldsWindows(rows, t, w, WeightedAverage(aux), weight, R)
  {
  }

  function ReduceCutRows(t: Table, w: nat, R: nat): (r: Table)
    requires Rect(t, w) && R >= 1 && |t| % R == 0
    ensures |r| == |t| / R && Rect(r, w)
    ensures forall i :: 0 <= i < |r| ==> i * R < |t| && r[i] == t[i * R]
  {
    ReduceCut(t, R)
  }

  /** Row p of a range of length n starting at from is a window start when it lies R apart from from. */
  predicate WindowStart(p: nat, from: nat, R: nat, n: nat)
    requires R >= 1
  {
    from <= p < from + n && (p - from) % R == 0
  }

  /**
   * Writes out[i] at row from + i*R of xs, one window start after another; every other row
   * keeps its value.
   */
  function Splice<T>(xs: seq<T>, from: nat, R: nat, out: seq<T>): (r: seq<T>)
    requires R >= 1 && from + |out| * R <= |xs|
    ensures |r| == |xs|
    ensures forall p :: 0 <= p < |xs| && !WindowStart(p, from, R, |out| * R) ==> r[p] == xs[p]
    ensures forall p :: 0 <= p < |xs| ==> r[p] == xs[p] || r[p] in out
    ensures forall i :: 0 <= i < |out| ==> from + i * R < |xs| && r[from + i * R] == out[i]
  {
    var r := seq(|xs|, p requires 0 <= p < |xs| =>
      if WindowStart(p, from, R, |out| * R) then SliceAt(out, R, p - from) else xs[p]);
    SpliceStarts(xs, from, R, out, r);
    r
  }

  /** The output row that lands on offset q of the range. */
  function SliceAt<T>(out: seq<T>, R: nat, q: nat): (r: T)
    requires R >= 1 && q < |out| * R
    ensures (q / R) < |out| && r == out[q / R]
  {
    DivBelow(q, R, |out|);
    out[q / R]
  }

  lemma DivBelow(q: nat, R: nat, n: nat)
    requires R >= 1 && q < n * R
    ensures q / R < n
  {
    var d := q / R;
    if d >= n {
      MulMono(n, d, R);
    }
  }

  lemma MulMono(a: nat, b: nat, R: nat)
    requires a <= b
    ensures a * R <= b * R
  {
  }

  lemma SpliceStarts<T>(xs: seq<T>, from: nat, R: nat, out: seq<T>, r: seq<T>)
    requires R >= 1 && from + |out| * R <= |xs| && |r| == |xs|
    requires forall p :: 0 <= p < |xs| ==>
      r[p] == if WindowStart(p, from, R, |out| * R) then SliceAt(out, R, p - from) else xs[p]
    ensures forall i :: 0 <= i < |out| ==> from + i * R < |xs| && r[from + i * R] == out[i]
  {
    forall i | 0 <= i < |out|
      ensures from + i * R < |xs| && r[from + i * R] == out[i]
    {
      DivUnique(i * R, R, i, 0);
      MulMono(i + 1, |out|, R);
      MulSucc(i, R);
      assert WindowStart(from + i * R, from, R, |out| * R);
    }
  }

  /** The rows that a ranged reduction writes back: the reduced slice, spliced in at the window starts. */
  function ReduceFrameRange(f: Frame, how: Method, weight: Table, R: nat, from: nat, to: nat): (r: Frame)
    requires ValidFrame(f) && R >= 1 && from <= to <= |f.rows| && (to - from) % R == 0
    requires how.WeightedAverage? ==> Rect(weight, f.width) && to - from <= |weight|
    ensures r.width == f.width && ValidFrame(r) && |r.rows| == |f.rows|
    ensures forall p :: 0 <= p < |f.rows| && (p < from || to <= p) ==> r.rows[p] == f.rows[p]
    ensures Rect(f.rows[from..to], f.width)
    ensures FoldedAt(r.rows, from, f.rows[from..to], f.width, how, weight, R)
  {
    var slice := f.rows[from..to];
    var out := ReduceFrame(Frame(f.width, slice), how, weight, R).rows;
    Frame(f.width, SpliceWindows(f.rows, slice, f.width, how, weight, from, to, R, out))
  }

  /** Splices the output a method produced from the rows s = from .. to-1 back at the window starts. */
  function SpliceWindows(t: Table, s: Table, w: nat, how: Method, weight: Table, from: nat, to: nat, R: nat, out: Table): (rows: Table)
    requires Rect(t, w) && R >= 1 && from <= to <= |t|
    requires Rect(s, w) && |s| == to - from
    requires how.WeightedAverage? ==> Rect(weight, w) && |s| <= |weight|
    requires Rect(out, w) && |out| * R == |s|
    requires FoldsWindows(out, s, w, how, weight, R)
    ensures |rows| == |t| && Rect(rows, w)
    ensures forall p :: 0 <= p < |t| && (p < from || to <= p) ==> rows[p] == t[p]
    ensures FoldedAt(rows, from, s, w, how, weight, R)
  {
    var rows := Splice(t, from, R, out);
    SpliceRect(t, out, rows, w);
    SpliceOutside(t, from, to, R, |out| * R, rows);
    RangeWindows(s, w, how, weight, from, R, out, rows);
    rows
  }

  lemma SpliceRect(t: Table, out: Table, rows: Table, w: nat)
    requires Rect(t, w) && Rect(out, w) && |rows| == |t|
    requires forall p :: 0 <= p < |t| ==> rows[p] == t[p] || rows[p] in out
    ensures Rect(rows, w)
  {
  }

  /** Rows outside from .. to-1 are not window starts, so the splice leaves them alone. */
  lemma SpliceOutside(t: Table, from: nat, to: nat, R: nat, n: nat, rows: Table)
    requires R >= 1 && from <= to <= |t| && n == to - from && |rows| == |t|
    requires forall p :: 0 <= p < |t| && !WindowStart(p, from, R, n) ==> rows[p] == t[p]
    ensures forall p :: 0 <= p < |t| && (p < from || to <= p) ==> rows[p] == t[p]
  {
  }

  /** The window starts of the splice hold the folds of the windows of s. */
  lemma RangeWindows(s: Table, w: nat, how: Method, weight: Table, from: nat, R: nat, out: Table, rows: Table)
    requires R >= 1 && Rect(s, w)
    requires how.WeightedAverage? ==> Rect(weight, w) && |s| <= |weight|
    requires |out| * R == |s|
    requires FoldsWindows(out, s, w, how, weight, R)
    requires forall i :: 0 <= i < |out| ==> from + i * R < |rows| && rows[from + i * R] == out[i]
    ensures FoldedAt(rows, from, s, w, how, weight, R)
  {
    forall i | 0 <= i && i * R + R <= |s|
      ensures from + i * R < |rows| && rows[from + i * R] == FoldRow(s, w, how, weight, Span(i * R, i * R + R))
    {
      MulSucc(i, R);
      MulBelow(i + 1, |out|, R);
      assert rows[from + i * R] == out[i];
    }
  }

  lemma MulBelow(a: nat, b: nat, R: nat)
    requires R >= 1 && a * R <= b * R
    ensures a <= b
  {
    if a > b {
      MulMono(b + 1, a, R);
      MulSucc(b, R);
    }
  }

  /** A variable after the whole-series reduction: its policy's method if it has one, else untouched. */
  function ReduceVar(vars: map<string, Frame>, k: string, n: nat, R: nat): (r: Frame)
    requires k in vars && R >= 1 && n % R == 0
    requires k in KnownDataTypes ==> Governed(vars, k, n)
    ensures k !in KnownDataTypes ==> r == vars[k]
    ensures k in KnownDataTypes ==>
      && r.width == vars[k].width && ValidFrame(r) && |r.rows| == n / R
      && FoldsWindows(r.rows, vars[k].rows, r.width, KnownDataTypes[k], WeightsOf(vars, k), R)
  {
    if k in KnownDataTypes then
      var r := ReduceFrame(vars[k], KnownDataTypes[k], WeightsOf(vars, k), R);
      DivUnique(n, R, |r.rows|, 0);
      r
    else vars[k]
  }

  /** A variable after a ranged reduction over rows from .. to-1. */
  function ReduceVarRange(vars: map<string, Frame>, k: string, n: nat, R: nat, from: nat, to: nat): (r: Frame)
    requires k in vars && R >= 1 && from <= to <= n && (to - from) % R == 0
    requires k in KnownDataTypes ==> Governed(vars, k, n)
    ensures k !in KnownDataTypes ==> r == vars[k]
    ensures k in KnownDataTypes ==>
      && r.width == vars[k].width && ValidFrame(r) && |r.rows| == n
      && (forall p :: 0 <= p < n && (p < from || to <= p) ==> r.rows[p] == vars[k].rows[p])
      && Rect(vars[k].rows[from..to], r.width)
      && FoldedAt(r.rows, from, vars[k].rows[from..to], r.width, KnownDataTypes[k], WeightsOf(vars, k), R)
  {
    if k in KnownDataTypes then ReduceFrameRange(vars[k], KnownDataTypes[k], WeightsOf(vars, k), R, from, to)
    else vars[k]
  }

  /**
   * reduce_resolution over the whole series: every variable in the policy table is reduced by
   * its method, `_t` and `_dt` are cut, and `time_res_series` becomes R at every row of the
   * reduced `_t`.
   */
  function ReduceWhole(d: Data, R: nat): (r: Data)
    requires WellFormed(d) && R >= 1 && |d.t| >= 1 && |d.t| % R == 0
    ensures |r.t| == |d.t| / R
    ensures forall i :: 0 <= i < |r.t| ==> i * R < |d.t| && r.t[i] == d.t[i * R]
    ensures r.dt.Some? <==> d.dt.Some?
    ensures r.dt.Some? ==> |r.dt.value| == |r.t| && forall i :: 0 <= i < |r.t| ==> r.dt.value[i] == d.dt.value[i * R]
    ensures r.vars.Keys == d.vars.Keys
    ensures forall k :: k in d.vars && k !in KnownDataTypes ==> r.vars[k] == d.vars[k]
    ensures forall k :: k in d.vars && k in KnownDataTypes ==>
      && Governed(d.vars, k, |d.t|)
      && r.vars[k].width == d.vars[k].width && ValidFrame(r.vars[k]) && |r.vars[k].rows| == |d.t| / R
      && FoldsWindows(r.vars[k].rows, d.vars[k].rows, d.vars[k].width, KnownDataTypes[k], WeightsOf(d.vars, k), R)
    ensures r.timeRes.Some? && |r.timeRes.value| == |r.t|
    ensures forall j :: 0 <= j < |r.t| ==> r.timeRes.value[j] == R
  {
    var n := |d.t|;
    var vars := map k | k in d.vars :: ReduceVar(d.vars, k, n, R);
    var dt := if d.dt.Some? then Some(ReduceCut(d.dt.value, R)) else None;
    Data(ReduceCut(d.t, R), dt, vars, Some(seq(n / R, _ => R)))
  }

  /**
   * reduce_resolution over rows from .. to-1: each policy variable's slice is reduced and
   * written back at the window starts; `_t` and `_dt` are cut and written back in place, which
   * leaves them as they were; `time_res_series` is not touched.
   */
  function ReduceRange(d: Data, R: nat, from: nat, to: nat): (r: Data)
    requires WellFormed(d) && R >= 1 && from < to <= |d.t| && (to - from) % R == 0
    ensures r.t == d.t && r.dt == d.dt && r.timeRes == d.timeRes
    ensures r.vars.Keys == d.vars.Keys
    ensures forall k :: k in d.vars && k !in KnownDataTypes ==> r.vars[k] == d.vars[k]
    ensures forall k :: k in d.vars && k in KnownDataTypes ==>
      && Governed(d.vars, k, |d.t|)
      && r.vars[k].width == d.vars[k].width && ValidFrame(r.vars[k]) && |r.vars[k].rows| == |d.t|
      && (forall p :: 0 <= p < |d.t| && (p < from || to <= p) ==> r.vars[k].rows[p] == d.vars[k].rows[p])
      && Rect(d.vars[k].rows[from..to], d.vars[k].width)
      && FoldedAt(r.vars[k].rows, from, d.vars[k].rows[from..to], d.vars[k].width, KnownDataTypes[k], WeightsOf(d.vars, k), R)
  {
    var n := |d.t|;
    var vars := map k | k in d.vars :: ReduceVarRange(d.vars, k, n, R, from, to);
    CutInPlace(d.t, R, from, to);
    var dt :=
      if d.dt.Some? then (CutInPlace(d.dt.value, R, from, to); Some(CutRange(d.dt.value, R, from, to)))
      else None;
    Data(CutRange(d.t, R, from, to), dt, vars, d.timeRes)
  }

  /** A cut column over rows from .. to-1, written back at the window starts. */
  function CutRange<T>(xs: seq<T>, R: nat, from: nat, to: nat): (r: seq<T>)
    requires R >= 1 && from <= to <= |xs| && (to - from) % R == 0
    ensures |r| == |xs|
  {
    DivExact(to - from, R);
    Splice(xs, from, R, ReduceCut(xs[from..to], R))
  }

  /** Cutting a slice and writing it back where it came from changes nothing. */
  lemma CutInPlace<T>(xs: seq<T>, R: nat, from: nat, to: nat)
    requires R >= 1 && from <= to <= |xs| && (to - from) % R == 0
    ensures CutRange(xs, R, from, to) == xs
  {
    var r := CutRange(xs, R, from, to);
    var out := ReduceCut(xs[from..to], R);
    DivExact(to - from, R);
    forall p | 0 <= p < |xs| && WindowStart(p, from, R, |out| * R)
      ensures r[p] == xs[p]
    {
      var q := (p - from) / R;
      DivExact(p - from, R);
      assert r[p] == out[q] == xs[from..to][q * R];
    }
  }

  /** reduce_resolution: over the whole series when no row range is given, else over the range. */
  function ReduceResolution(d: Data, R: nat, tRange: Option<Span>): (r: Data)
    requires WellFormed(d) && R >= 1
    requires tRange.None? ==> |d.t| >= 1 && |d.t| % R == 0
    requires tRange.Some? ==>
      tRange.value.lo < tRange.value.hi <= |d.t| && (tRange.value.hi - tRange.value.lo) % R == 0
    ensures WellFormed(r)
    ensures r.vars.Keys == d.vars.Keys
    ensures forall k :: k in d.vars && k !in KnownDataTypes ==> r.vars[k] == d.vars[k]
    ensures forall k :: k in d.vars && k in KnownDataTypes ==> r.vars[k].width == d.vars[k].width
    ensures tRange.Some? ==> r.t == d.t && r.dt == d.dt && r.timeRes == d.timeRes
    ensures tRange.None? ==>
      && |r.t| == |d.t| / R
      && r.timeRes.Some? && |r.timeRes.value| == |r.t|
      && Total(r.timeRes.value) == |d.t|
  {
    match tRange
    case None =>
      var r := ReduceWhole(d, R);
      ReduceWholeWellFormed(d, R, r);
      DivExact(|d.t|, R);
      ConstantTotal(r.timeRes.value, R);
      r
    case Some(g) =>
      var r := ReduceRange(d, R, g.lo, g.hi);
      ReduceRangeWellFormed(d, R, g.lo, g.hi, r);
      r
  }

  /** Given a row range, reduce_resolution is the ranged reduction. */
  lemma ResolutionInRange(d: Data, R: nat, g: Span)
    requires WellFormed(d) && R >= 1 && g.lo < g.hi <= |d.t| && (g.hi - g.lo) % R == 0
    ensures ReduceResolution(d, R, Some(g)) == ReduceRange(d, R, g.lo, g.hi)
  {
  }

  /** The weights a weighted average names are themselves a variable of the policy table. */
  lemma WeightsAreKnown(k: string)
    requires k in KnownDataTypes && KnownDataTypes[k].WeightedAverage?
    ensures KnownDataTypes[k].weights in KnownDataTypes
    ensures !KnownDataTypes[KnownDataTypes[k].weights].WeightedAverage?
  {
    assert k == "n_sf";
  }

  /** The whole-series reduction leaves a dataset aligned to the reduced `_t`. */
  lemma ReduceWholeWellFormed(d: Data, R: nat, r: Data)
    requires WellFormed(d) && R >= 1 && |d.t| >= 1 && |d.t| % R == 0
    requires r == ReduceWhole(d, R)
    ensures WellFormed(r)
  {
    forall k | k in r.vars && k in KnownDataTypes
      ensures Governed(r.vars, k, |r.t|)
    {
      if KnownDataTypes[k].WeightedAverage? {
        WeightsAreKnown(k);
      }
    }
  }

  /** The ranged reduction keeps every variable aligned to `_t`. */
  lemma ReduceRangeWellFormed(d: Data, R: nat, from: nat, to: nat, r: Data)
    requires WellFormed(d) && R >= 1 && from < to <= |d.t| && (to - from) % R == 0
    requires r == ReduceRange(d, R, from, to)
    ensures WellFormed(r)
  {
    forall k | k in r.vars && k in KnownDataTypes
      ensures Governed(r.vars, k, |r.t|)
    {
      if KnownDataTypes[k].WeightedAverage? {
        WeightsAreKnown(k);
      }
    }
  }

  /** A series that is R in every row adds up to R times its length. */
  lemma {:induction false} ConstantTotal(xs: seq<int>, R: nat)
    requires forall j :: 0 <= j < |xs| ==> xs[j] == R
    ensures Total(xs) == |xs| * R
    decreases |xs|
  {
    if |xs| > 0 {
      ConstantTotal(xs[1..], R);
      MulSucc(|xs| - 1, R);
    }
  }

  /** A method other than the weighted average folds a slice of rows as it folds those rows in place. */
  lemma FoldRowSlice(t: Table, w: nat, how: Method, weight: Table, a: nat, b: nat)
    requires Rect(t, w) && a < b <= |t| && !how.WeightedAverage?
    ensures Rect(t[a..b], w)
    ensures FoldRow(t[a..b], w, how, weight, Span(0, b - a)) == FoldRow(t, w, how, [], Span(a, b))
  {
    match how
    case Sum => SumRowSlice(t, w, a, b, 0, b - a);
    case Average => AvgRowSlice(t, w, a, b, 0, b - a);
    case Cut => assert t[a..b][0] == t[a];
  }

  /** A method other than the weighted average folds a single row into itself. */
  lemma FoldRowSingle(t: Table, w: nat, how: Method, p: nat)
    requires Rect(t, w) && p < |t| && !how.WeightedAverage?
    ensures FoldRow(t, w, how, [], Span(p, p + 1)) == t[p]
  {
    match how
    case Sum => SumRowSingle(t, w, p);
    case Average => AvgRowSingle(t, w, p);
    case Cut =>
  }
}
