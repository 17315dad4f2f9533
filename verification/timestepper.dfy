/**
 * dynamic_timestepper: the scan that folds each run of flagged rows into one timestep through a
 * ranged reduce_resolution, and the filter that then keeps the first row of every step.
 */
module Timestepper {
  import opened Spans
  import opened Tables
  import opened Dataset
  import opened Mask
  import opened Runs

  /** The scan's state: the dataset, and the mask's `summarize` and `time_res` columns. */
  datatype State = State(d: Data, summ: seq<int>, res: seq<int>)

  /** The dataset and both mask columns have one entry per step. */
  predicate Aligned(st: State)
  {
    WellFormed(st.d) && |st.summ| == |st.d.t| && |st.res| == |st.d.t|
  }

  /**
   * Marks the rows from+1 .. to-1, which a step folds into row from, with 2: exactly those rows
   * leave the kept set, row from stays the step's kept first row, and no other flag changes.
   */
  function Absorb(summ: seq<int>, from: nat, to: nat): (r: seq<int>)
    requires from < to <= |summ|
    ensures |r| == |summ|
    ensures forall p :: 0 <= p < |r| ==> (r[p] < 2 <==> summ[p] < 2 && !(from < p < to))
    ensures forall p :: 0 <= p < |r| && (p <= from || to <= p) ==> r[p] == summ[p]
    ensures summ[from] < 2 ==> MarksHold(r, Span(from, to))
  {
    seq(|summ|, p requires 0 <= p < |summ| => if from < p < to then 2 else summ[p])
  }

  lemma ModSelf(n: nat)
    requires n >= 1
    ensures n % n == 0
  {
  }

  /** One scan step over rows from .. to-1: reduce the range, mark it, record its length. */
  function Step(st: State, from: nat, to: nat): (r: State)
    requires Aligned(st) && from < to <= |st.summ|
    ensures Aligned(r) && r.d.t == st.d.t && r.d.dt == st.d.dt && r.d.vars.Keys == st.d.vars.Keys
    ensures forall k :: k in st.d.vars && k !in KnownDataTypes ==> r.d.vars[k] == st.d.vars[k]
    ensures forall k :: k in st.d.vars && k in KnownDataTypes ==> r.d.vars[k].width == st.d.vars[k].width
  {
    ModSelf(to - from);
    State(ReduceResolution(st.d, to - from, Some(Span(from, to))), Absorb(st.summ, from, to), st.res[from := to - from])
  }

  /**
   * The scan from row istart: find the next run, fold it, and go on after it until the run
   * found is the last one. As evidently intended, the scan also stops when no 1 is left.
   */
  function ScanFrom(st: State, istart: nat, v: Variant): (r: State)
    requires Aligned(st) && istart < |st.summ|
    ensures Aligned(r) && r.d.t == st.d.t && r.d.dt == st.d.dt && r.d.vars.Keys == st.d.vars.Keys
    ensures forall k :: k in st.d.vars && k !in KnownDataTypes ==> r.d.vars[k] == st.d.vars[k]
    ensures forall k :: k in st.d.vars && k in KnownDataTypes ==> r.d.vars[k].width == st.d.vars[k].width
    decreases |st.summ| - istart
  {
    var run := NextRun(st.summ, istart);
    if v.Intended? && st.summ[run.from] != 1 then st
    else
      var next := Step(st, run.from, run.to);
      if run.last then next else ScanFrom(next, run.to, v)
  }

  /** The entries of xs at positions i .. |xs|-1 whose mark is below 2, in order. */
  function KeptFrom<T>(xs: seq<T>, s: seq<int>, i: nat): (r: seq<T>)
    requires |xs| == |s| && i <= |s|
    decreases |s| - i
  {
    if i == |s| then [] else (if s[i] < 2 then [xs[i]] else []) + KeptFrom(xs, s, i + 1)
  }

  /**
   * The filter after the scan: `_t`, `_dt` and every policy variable keep the rows marked
   * below 2, other variables are left alone, and `time_res_series` is the kept `time_res`.
   */
  function Filter(st: State): (r: Data)
    requires Aligned(st)
  {
    var d := st.d;
    Data(
      KeptFrom(d.t, st.summ, 0),
      if d.dt.Some? then Some(KeptFrom(d.dt.value, st.summ, 0)) else None,
      KeepVars(d.vars, st.summ),
      Some(KeptFrom(st.res, st.summ, 0)))
  }

  /** The filter on the variables: policy variables keep the rows marked below 2, others are left alone. */
  function KeepVars(vars: map<string, Frame>, s: seq<int>): map<string, Frame>
    requires forall k :: k in vars && k in KnownDataTypes ==> |vars[k].rows| == |s|
  {
    map k | k in vars :: if k in KnownDataTypes then Frame(vars[k].width, KeptFrom(vars[k].rows, s, 0)) else vars[k]
  }

  /**
   * dynamic_timestepper: with `time_res` 1 everywhere, scan the mask from row 0, then filter.
   * The result keeps the first row of every group of the mask: each run of 1s is one group, and
   * so is each 0 before the last run; `time_res_series` holds the group lengths, and every
   * variable reduced by position holds the fold of its rows over each group.
   */
  function DynamicTimestepper(d: Data, mask: seq<int>, v: Variant): (r: Data)
    requires WellFormed(d) && |mask| == |d.t| >= 1 && IsMask(mask)
    ensures Tiles(Groups(mask, 0, v), 0, |d.t|) && Within(Groups(mask, 0, v), |d.t|)
    ensures WellFormed(r)
    ensures r.t == Pick(d.t, Groups(mask, 0, v))
    ensures r.dt.Some? <==> d.dt.Some?
    ensures d.dt.Some? ==> r.dt.value == Pick(d.dt.value, Groups(mask, 0, v))
    ensures r.timeRes == Some(Lens(Groups(mask, 0, v)))
    ensures r.vars.Keys == d.vars.Keys
    ensures forall k :: k in d.vars && k !in KnownDataTypes ==> r.vars[k] == d.vars[k]
    ensures forall k :: k in d.vars && k in KnownDataTypes ==>
      r.vars[k].width == d.vars[k].width && |r.vars[k].rows| == |Groups(mask, 0, v)|
    ensures forall k :: k in d.vars && k in KnownDataTypes && !KnownDataTypes[k].WeightedAverage? ==>
      && Governed(d.vars, k, |d.t|)
      && forall j :: 0 <= j < |Groups(mask, 0, v)| ==>
        r.vars[k].rows[j] == FoldRow(d.vars[k].rows, d.vars[k].width, KnownDataTypes[k], [], Groups(mask, 0, v)[j])
  {
    var st0 := State(d, mask, seq(|mask|, _ => 1));
    GroupsTile(mask, 0, v);
    FreshStart(d, mask, st0);
    ScanSettles(d, mask, st0, 0, v);
    var st := ScanFrom(st0, 0, v);
    FilterColumns(d, st, Groups(mask, 0, v));
    FilterVars(d, st, Groups(mask, 0, v));
    Filter(st)
  }

  // ---------------------------------------------------------------------------------------
  // The scan invariant

  /** The rows of f from istart on are those of f0, and f keeps f0's shape. */
  ghost predicate SameFrom(f0: Frame, f: Frame, istart: nat)
  {
    && f.width == f0.width && |f.rows| == |f0.rows|
    && forall p :: istart <= p < |f0.rows| ==> f.rows[p] == f0.rows[p]
  }

  /** From row istart on, the state is as the scan began: flags of m0, `time_res` 1, rows of d0. */
  ghost predicate Fresh(d0: Data, m0: seq<int>, st: State, istart: nat)
  {
    && Aligned(st) && WellFormed(d0) && |m0| == |d0.t| && istart <= |m0|
    && st.d.t == d0.t && st.d.dt == d0.dt && st.d.vars.Keys == d0.vars.Keys
    && (forall k :: k in d0.vars && k !in KnownDataTypes ==> st.d.vars[k] == d0.vars[k])
    && (forall p :: istart <= p < |m0| ==> st.summ[p] == m0[p] && st.res[p] == 1)
    && (forall k :: k in d0.vars && k in KnownDataTypes ==> SameFrom(d0.vars[k], st.d.vars[k], istart))
  }

  /** The first row of g is kept and the others absorbed. */
  ghost predicate MarksHold(s: seq<int>, g: Span)
  {
    g.lo < g.hi <= |s| && s[g.lo] < 2 && forall p :: g.lo < p < g.hi ==> s[p] == 2
  }

  /** Group g is marked in st, and its first row records the group's length as its `time_res`. */
  ghost predicate Marked(st: State, g: Span)
  {
    MarksHold(st.summ, g) && |st.res| == |st.summ| && st.res[g.lo] == g.hi - g.lo
  }

  /** In d, the first row of g holds, for each variable reduced by position, the fold of d0 over g. */
  ghost predicate Folded(d0: Data, d: Data, g: Span)
    requires WellFormed(d0) && g.lo < g.hi <= |d0.t|
  {
    forall k :: k in d0.vars && k in KnownDataTypes && !KnownDataTypes[k].WeightedAverage? ==>
      && k in d.vars && g.lo < |d.vars[k].rows|
      && d.vars[k].rows[g.lo] == FoldRow(d0.vars[k].rows, d0.vars[k].width, KnownDataTypes[k], [], g)
  }

  /** Every group of G is marked and folded in st. */
  ghost predicate Settled(d0: Data, st: State, G: seq<Span>)
    requires WellFormed(d0)
  {
    forall j :: 0 <= j < |G| ==> Marked(st, G[j]) && G[j].hi <= |d0.t| && Folded(d0, st.d, G[j])
  }

  /** st2 agrees with st below row e: flags, `time_res`, and the rows of every policy variable. */
  ghost predicate AgreeBelow(st: State, st2: State, e: nat)
  {
    && |st2.summ| == |st.summ| && |st2.res| == |st.res| && e <= |st.summ| && e <= |st.res|
    && (forall p :: 0 <= p < e ==> st2.summ[p] == st.summ[p] && st2.res[p] == st.res[p])
    && (forall k :: k in st.d.vars && k in KnownDataTypes ==>
          && k in st2.d.vars && |st2.d.vars[k].rows| == |st.d.vars[k].rows| && e <= |st.d.vars[k].rows|
          && forall p :: 0 <= p < e ==> st2.d.vars[k].rows[p] == st.d.vars[k].rows[p])
  }

  lemma FreshStart(d: Data, mask: seq<int>, st0: State)
    requires WellFormed(d) && |mask| == |d.t|
    requires st0 == State(d, mask, seq(|mask|, _ => 1))
    ensures Fresh(d, mask, st0, 0)
  {
  }

  lemma AgreeRefl(st: State, e: nat)
    requires Aligned(st) && e <= |st.summ|
    ensures AgreeBelow(st, st, e)
  {
  }

  lemma AgreeWeaken(st: State, st2: State, a: nat, c: nat)
    requires AgreeBelow(st, st2, a) && c <= a
    ensures AgreeBelow(st, st2, c)
  {
  }

  lemma AgreeTrans(st1: State, st2: State, st3: State, a: nat, b: nat, c: nat)
    requires AgreeBelow(st1, st2, a) && AgreeBelow(st2, st3, b) && c <= a && c <= b
    ensures AgreeBelow(st1, st3, c)
  {
  }

  /** Settled groups stay settled when nothing below their end changes. */
  lemma SettledFrame(d0: Data, st: State, st2: State, G: seq<Span>, e: nat)
    requires WellFormed(d0) && Settled(d0, st, G) && Within(G, e) && AgreeBelow(st, st2, e)
    ensures Settled(d0, st2, G)
  {
    forall j | 0 <= j < |G|
      ensures Marked(st2, G[j]) && Folded(d0, st2.d, G[j])
    {
      var g := G[j];
      assert g.hi <= e;
      assert Marked(st, g) && Folded(d0, st.d, g);
    }
  }

  lemma SettledAppend(d0: Data, st: State, A: seq<Span>, B: seq<Span>)
    requires WellFormed(d0) && Settled(d0, st, A) && Settled(d0, st, B)
    ensures Settled(d0, st, A + B)
  {
    forall j | 0 <= j < |A + B|
      ensures Marked(st, (A + B)[j]) && (A + B)[j].hi <= |d0.t| && Folded(d0, st.d, (A + B)[j])
    {
      if j < |A| {
        assert (A + B)[j] == A[j];
      } else {
        assert (A + B)[j] == B[j - |A|];
      }
    }
  }

  /** Unflagged rows the scan has not reached are settled as groups of one. */
  lemma SinglesSettled(d0: Data, m0: seq<int>, st: State, a: nat, b: nat)
    requires Fresh(d0, m0, st, a) && a <= b <= |m0|
    requires forall p :: a <= p < b ==> m0[p] == 0
    ensures Within(Singles(a, b), b)
    ensures Settled(d0, st, Singles(a, b))
  {
    var G := Singles(a, b);
    forall j | 0 <= j < |G|
      ensures Marked(st, G[j]) && G[j].hi <= |d0.t| && Folded(d0, st.d, G[j])
    {
      var p := a + j;
      assert G[j] == Span(p, p + 1);
      forall k | k in d0.vars && k in KnownDataTypes && !KnownDataTypes[k].WeightedAverage?
        ensures st.d.vars[k].rows[p] == FoldRow(d0.vars[k].rows, d0.vars[k].width, KnownDataTypes[k], [], Span(p, p + 1))
      {
        assert Governed(d0.vars, k, |d0.t|);
        assert SameFrom(d0.vars[k], st.d.vars[k], a);
        FoldRowSingle(d0.vars[k].rows, d0.vars[k].width, KnownDataTypes[k], p);
      }
    }
  }

  /** The first window a ranged reduction writes is the fold of the whole range when R is its length. */
  lemma FoldedWhole(rows: Table, from: nat, s: Table, w: nat, how: Method, weight: Table)
    requires Rect(s, w) && |s| >= 1
    requires how.WeightedAverage? ==> Rect(weight, w) && |s| <= |weight|
    requires FoldedAt(rows, from, s, w, how, weight, |s|)
    ensures from < |rows| && rows[from] == FoldRow(s, w, how, weight, Span(0, |s|))
  {
    assert 0 * |s| + |s| <= |s|;
  }

  /** A ranged fold over rows from .. to-1 of a frame that still holds f0's rows there is the fold of f0. */
  lemma FoldsRange(f0: Frame, f: Frame, rows: Table, how: Method, weight: Table, istart: nat, from: nat, to: nat)
    requires ValidFrame(f0) && istart <= from < to <= |f0.rows| && !how.WeightedAverage?
    requires SameFrom(f0, f, istart) && Rect(f.rows[from..to], f.width)
    requires FoldedAt(rows, from, f.rows[from..to], f.width, how, weight, to - from)
    ensures from < |rows| && rows[from] == FoldRow(f0.rows, f0.width, how, [], Span(from, to))
  {
    assert f.rows[from..to] == f0.rows[from..to];
    FoldedWhole(rows, from, f.rows[from..to], f.width, how, weight);
    FoldRowSlice(f0.rows, f0.width, how, weight, from, to);
  }

  /**
   * A step over rows from .. to-1 of a state fresh from istart settles the group from .. to-1,
   * changes nothing below from, and leaves the state fresh from to.
   */
  lemma StepSettled(d0: Data, m0: seq<int>, st: State, istart: nat, from: nat, to: nat)
    requires Fresh(d0, m0, st, istart) && istart <= from < to <= |m0| && m0[from] < 2
    ensures Settled(d0, Step(st, from, to), [Span(from, to)])
    ensures AgreeBelow(st, Step(st, from, to), from)
    ensures Fresh(d0, m0, Step(st, from, to), to)
  {
    var st1 := Step(st, from, to);
    StepFolds(d0, m0, st, istart, from, to);
    assert Marked(st1, Span(from, to));
    StepKeepsFresh(d0, m0, st, istart, from, to);
  }

  /** The step over rows from .. to-1 leaves in row from the fold of d0 over them. */
  lemma StepFolds(d0: Data, m0: seq<int>, st: State, istart: nat, from: nat, to: nat)
    requires Fresh(d0, m0, st, istart) && istart <= from < to <= |m0|
    ensures Folded(d0, Step(st, from, to).d, Span(from, to))
  {
    var R := to - from;
    ModSelf(R);
    var d1 := ReduceRange(st.d, R, from, to);
    ResolutionInRange(st.d, R, Span(from, to));
    forall k | k in d0.vars && k in KnownDataTypes && !KnownDataTypes[k].WeightedAverage?
      ensures from < |d1.vars[k].rows|
      ensures d1.vars[k].rows[from] == FoldRow(d0.vars[k].rows, d0.vars[k].width, KnownDataTypes[k], [], Span(from, to))
    {
      assert Governed(d0.vars, k, |d0.t|);
      FoldsRange(d0.vars[k], st.d.vars[k], d1.vars[k].rows, KnownDataTypes[k], WeightsOf(st.d.vars, k), istart, from, to);
    }
  }

  /** The step over rows from .. to-1 changes nothing outside them, bar the flags and `time_res` it writes. */
  lemma StepKeepsFresh(d0: Data, m0: seq<int>, st: State, istart: nat, from: nat, to: nat)
    requires Fresh(d0, m0, st, istart) && istart <= from < to <= |m0|
    ensures AgreeBelow(st, Step(st, from, to), from)
    ensures Fresh(d0, m0, Step(st, from, to), to)
  {
    var st1 := Step(st, from, to);
    ModSelf(to - from);
    ResolutionInRange(st.d, to - from, Span(from, to));
    forall k | k in d0.vars && k in KnownDataTypes
      ensures SameFrom(d0.vars[k], st1.d.vars[k], to)
    {
      assert SameFrom(d0.vars[k], st.d.vars[k], istart);
    }
  }

  /** The groups from istart: the 0s before the first 1, one by one, then its run, then the groups after the run. */
  lemma RunGroups(m: seq<int>, istart: nat, v: Variant, n: nat, e: nat)
    requires IsMask(m) && istart <= n < |m| && n == NextOne(m, istart) && e == RunEnd(m, n)
    ensures forall p :: istart <= p < n ==> m[p] == 0
    ensures n < e <= |m|
    ensures Groups(m, istart, v) == Singles(istart, n) + [Span(n, e)] + Groups(m, e, v)
  {
    SkipZeros(m, istart, n, v);
    assert RunEnd(m, n + 1) == e;
    assert Groups(m, n, v) == [Span(n, e)] + Groups(m, e, v);
  }

  /** The mask's 0s from i up to the 1 at n each make a group of one. */
  lemma {:induction false} SkipZeros(m: seq<int>, i: nat, n: nat, v: Variant)
    requires i <= n < |m| && m[n] == 1 && forall p :: i <= p < n ==> m[p] == 0
    ensures Groups(m, i, v) == Singles(i, n) + Groups(m, n, v)
    decreases n - i
  {
    if i < n {
      ZeroBeforeOne(m, i, n, v);
      SkipZeros(m, i + 1, n, v);
      SinglesCons(i, n);
      ConsAppend(Span(i, i + 1), Singles(i, n), Singles(i + 1, n), Groups(m, n, v), Groups(m, i, v), Groups(m, i + 1, v));
    }
  }

  lemma ConsAppend<T>(g: T, s: seq<T>, s': seq<T>, h: seq<T>, x: seq<T>, y: seq<T>)
    requires x == [g] + y && y == s' + h && s == [g] + s'
    ensures x == s + h
  {
  }

  /** A 0 with a 1 still to come is a group of its own. */
  lemma ZeroBeforeOne(m: seq<int>, i: nat, n: nat, v: Variant)
    requires i < n < |m| && m[n] == 1 && forall p :: i <= p < n ==> m[p] == 0
    ensures Groups(m, i, v) == [Span(i, i + 1)] + Groups(m, i + 1, v)
  {
    NextOneAt(m, i, n);
  }

  lemma NextOneAt(m: seq<int>, i: nat, n: nat)
    requires i <= n < |m| && m[n] == 1 && forall p :: i <= p < n ==> m[p] == 0
    ensures NextOne(m, i) == n
  {
    var r := NextOne(m, i);
    assert r <= n;
  }

  /** The scan step at istart depends only on the flags from istart on. */
  lemma NextRunSuffix(s1: seq<int>, s2: seq<int>, istart: nat)
    requires istart < |s1| == |s2| && s1[istart..] == s2[istart..]
    ensures NextRun(s1, istart) == NextRun(s2, istart)
  {
    var from := istart + ArgMax(s1[istart..]);
    assert s1[from..] == s1[istart..][from - istart..];
    assert s2[from..] == s2[istart..][from - istart..];
  }

  /**
   * The scan from a state fresh from istart settles every group of the mask from istart on,
   * and changes nothing below istart.
   */
  lemma {:induction false} ScanSettles(d0: Data, m0: seq<int>, st: State, istart: nat, v: Variant)
    requires IsMask(m0) && istart < |m0| && Fresh(d0, m0, st, istart)
    ensures Settled(d0, ScanFrom(st, istart, v), Groups(m0, istart, v))
    ensures AgreeBelow(st, ScanFrom(st, istart, v), istart)
    decreases |m0| - istart
  {
    var r := ScanFrom(st, istart, v);
    assert st.summ[istart..] == m0[istart..];
    NextRunSuffix(st.summ, m0, istart);
    NextRunOnMask(m0, istart);
    var n := NextOne(m0, istart);
    if n == |m0| {
      ScanTail(d0, m0, st, istart, v);
    } else {
      var e := RunEnd(m0, n);
      assert st.summ[n] == m0[n] == 1;
      ScanRun(d0, m0, st, istart, v, n, e);
      var st1 := Step(st, n, e);
      var A := Singles(istart, n) + [Span(n, e)];
      if e == |m0| {
        assert r == st1;
        assert Groups(m0, istart, v) == A;
        AgreeWeaken(st, st1, n, istart);
      } else {
        assert r == ScanFrom(st1, e, v);
        ScanSettles(d0, m0, st1, e, v);
        SettledFrame(d0, st1, r, A, e);
        SettledAppend(d0, r, A, Groups(m0, e, v));
        AgreeTrans(st, st1, r, n, e, istart);
      }
    }
  }

  /** With no 1 left from istart, the scan settles the tail in a single step as written, and leaves it alone as intended. */
  lemma ScanTail(d0: Data, m0: seq<int>, st: State, istart: nat, v: Variant)
    requires IsMask(m0) && istart < |m0| && Fresh(d0, m0, st, istart) && NextOne(m0, istart) == |m0|
    requires NextRun(st.summ, istart) == Run(istart, |m0|, true)
    ensures Settled(d0, ScanFrom(st, istart, v), Groups(m0, istart, v))
    ensures AgreeBelow(st, ScanFrom(st, istart, v), istart)
  {
    var N := |m0|;
    assert forall p :: istart <= p < N ==> m0[p] == 0;
    if v.Intended? {
      assert ScanFrom(st, istart, v) == st;
      IntendedNoFlagNoOp(m0, istart);
      SinglesSettled(d0, m0, st, istart, N);
      AgreeRefl(st, istart);
    } else {
      assert Groups(m0, istart, v) == [Span(istart, N)];
      assert ScanFrom(st, istart, v) == Step(st, istart, N);
      StepSettled(d0, m0, st, istart, istart, N);
    }
  }

  /**
   * With a 1 at n, the first from istart, and its run ending at e: the groups from istart are
   * the 0s before n one by one, then the run, then the groups from e; the step over the run
   * settles all of the former.
   */
  lemma ScanRun(d0: Data, m0: seq<int>, st: State, istart: nat, v: Variant, n: nat, e: nat)
    requires IsMask(m0) && istart <= n < |m0| && Fresh(d0, m0, st, istart)
    requires n == NextOne(m0, istart) && e == RunEnd(m0, n)
    ensures n < e <= |m0|
    ensures Groups(m0, istart, v) == Singles(istart, n) + [Span(n, e)] + Groups(m0, e, v)
    ensures Within(Singles(istart, n) + [Span(n, e)], e)
    ensures Settled(d0, Step(st, n, e), Singles(istart, n) + [Span(n, e)])
    ensures AgreeBelow(st, Step(st, n, e), n)
    ensures Fresh(d0, m0, Step(st, n, e), e)
  {
    RunGroups(m0, istart, v, n, e);
    var st1 := Step(st, n, e);
    StepSettled(d0, m0, st, istart, n, e);
    SinglesSettled(d0, m0, st, istart, n);
    SettledFrame(d0, st, st1, Singles(istart, n), n);
    SettledAppend(d0, st1, Singles(istart, n), [Span(n, e)]);
  }

  // ---------------------------------------------------------------------------------------
  // The filter

  /** Rows marked 2 are dropped. */
  lemma {:induction false} KeptSkip<T>(xs: seq<T>, s: seq<int>, a: nat, b: nat)
    requires |xs| == |s| && a <= b <= |s| && forall p :: a <= p < b ==> s[p] == 2
    ensures KeptFrom(xs, s, a) == KeptFrom(xs, s, b)
    decreases b - a
  {
    if a < b {
      KeptSkip(xs, s, a + 1, b);
    }
  }

  /** Over marked groups that tile the rows from lo, the kept rows are the groups' first rows. */
  lemma {:induction false} KeptGroups<T>(xs: seq<T>, s: seq<int>, G: seq<Span>, lo: nat)
    requires |xs| == |s| && Tiles(G, lo, |s|)
    requires forall j :: 0 <= j < |G| ==> MarksHold(s, G[j])
    ensures Within(G, |xs|)
    ensures KeptFrom(xs, s, lo) == Pick(xs, G)
    decreases |G|
  {
    TilesWithin(G, lo, |s|);
    if |G| > 0 {
      var g := G[0];
      var rest := G[1..];
      assert Tiles(rest, g.hi, |s|) && g.lo == lo && MarksHold(s, g);
      assert forall j :: 0 <= j < |rest| ==> MarksHold(s, rest[j]) by {
        forall j | 0 <= j < |rest|
          ensures MarksHold(s, rest[j])
        {
          assert rest[j] == G[j + 1];
        }
      }
      KeptGroups(xs, s, rest, g.hi);
      KeptSkip(xs, s, lo + 1, g.hi);
      KeptCons(xs, s, lo);
      PickCons(xs, G);
    }
  }

  lemma KeptCons<T>(xs: seq<T>, s: seq<int>, i: nat)
    requires |xs| == |s| && i < |s| && s[i] < 2
    ensures KeptFrom(xs, s, i) == [xs[i]] + KeptFrom(xs, s, i + 1)
  {
  }

  /** The kept `time_res` entries are the group lengths. */
  lemma KeptLengths(st: State, G: seq<Span>)
    requires |st.res| == |st.summ| && Tiles(G, 0, |st.summ|)
    requires forall j :: 0 <= j < |G| ==> Marked(st, G[j])
    ensures KeptFrom(st.res, st.summ, 0) == Lens(G)
  {
    assert forall j :: 0 <= j < |G| ==> MarksHold(st.summ, G[j]) by {
      forall j | 0 <= j < |G|
        ensures MarksHold(st.summ, G[j])
      {
        assert Marked(st, G[j]);
      }
    }
    KeptGroups(st.res, st.summ, G, 0);
    forall j | 0 <= j < |G|
      ensures Pick(st.res, G)[j] == Lens(G)[j]
    {
      assert Marked(st, G[j]);
    }
  }

  /** Over marked groups, each policy variable keeps the first row of every group. */
  lemma KeepVarsGroups(vars: map<string, Frame>, s: seq<int>, G: seq<Span>)
    requires forall k :: k in vars && k in KnownDataTypes ==> |vars[k].rows| == |s|
    requires Tiles(G, 0, |s|) && forall j :: 0 <= j < |G| ==> MarksHold(s, G[j])
    ensures Within(G, |s|)
    ensures KeepVars(vars, s).Keys == vars.Keys
    ensures forall k :: k in vars && k !in KnownDataTypes ==> KeepVars(vars, s)[k] == vars[k]
    ensures forall k :: k in vars && k in KnownDataTypes ==>
      KeepVars(vars, s)[k] == Frame(vars[k].width, Pick(vars[k].rows, G))
  {
    TilesWithin(G, 0, |s|);
    forall k | k in vars && k in KnownDataTypes
      ensures KeepVars(vars, s)[k] == Frame(vars[k].width, Pick(vars[k].rows, G))
    {
      KeptGroups(vars[k].rows, s, G, 0);
    }
  }

  /** The groups of a settled state are marked. */
  lemma SettledMarks(d0: Data, st: State, G: seq<Span>)
    requires WellFormed(d0) && Settled(d0, st, G)
    ensures forall j :: 0 <= j < |G| ==> Marked(st, G[j]) && MarksHold(st.summ, G[j])
  {
  }

  /** In a settled state, the first rows of the groups are the folds of d0 over them. */
  lemma SettledPick(d0: Data, st: State, G: seq<Span>, k: string)
    requires WellFormed(d0) && Settled(d0, st, G)
    requires k in d0.vars && k in KnownDataTypes && !KnownDataTypes[k].WeightedAverage?
    requires k in st.d.vars && Within(G, |st.d.vars[k].rows|)
    ensures Governed(d0.vars, k, |d0.t|)
    ensures forall j :: 0 <= j < |G| ==>
      Pick(st.d.vars[k].rows, G)[j] == FoldRow(d0.vars[k].rows, d0.vars[k].width, KnownDataTypes[k], [], G[j])
  {
    assert Governed(d0.vars, k, |d0.t|);
    forall j | 0 <= j < |G|
      ensures Pick(st.d.vars[k].rows, G)[j] == FoldRow(d0.vars[k].rows, d0.vars[k].width, KnownDataTypes[k], [], G[j])
    {
      assert Folded(d0, st.d, G[j]);
    }
  }

  /** After the filter every policy variable is aligned with the kept `_t`. */
  lemma FilterWellFormed(st: State, G: seq<Span>)
    requires Aligned(st) && Within(G, |st.d.t|)
    requires st.d.dt.Some? ==> |KeptFrom(st.d.dt.value, st.summ, 0)| == |G|
    requires |KeptFrom(st.d.t, st.summ, 0)| == |G|
    requires forall k :: k in st.d.vars && k in KnownDataTypes ==>
      KeepVars(st.d.vars, st.summ)[k] == Frame(st.d.vars[k].width, Pick(st.d.vars[k].rows, G))
    requires KeepVars(st.d.vars, st.summ).Keys == st.d.vars.Keys
    ensures WellFormed(Filter(st))
  {
    var r := Filter(st);
    forall k | k in r.vars && k in KnownDataTypes
      ensures Governed(r.vars, k, |r.t|)
    {
      assert Governed(st.d.vars, k, |st.d.t|);
      if KnownDataTypes[k].WeightedAverage? {
        WeightsAreKnown(k);
      }
    }
  }

  /** The shape of a state the scan leaves: aligned, and d0's columns with d0's widths. */
  ghost predicate ScannedFrom(d0: Data, st: State)
  {
    && Aligned(st) && WellFormed(d0) && |st.d.t| == |d0.t|
    && st.d.t == d0.t && st.d.dt == d0.dt && st.d.vars.Keys == d0.vars.Keys
    && (forall k :: k in d0.vars && k !in KnownDataTypes ==> st.d.vars[k] == d0.vars[k])
    && (forall k :: k in d0.vars && k in KnownDataTypes ==> st.d.vars[k].width == d0.vars[k].width)
  }

  /** Filtering a state whose groups are all settled keeps the first step of every group, with its length. */
  lemma FilterColumns(d0: Data, st: State, G: seq<Span>)
    requires ScannedFrom(d0, st) && Tiles(G, 0, |d0.t|) && Settled(d0, st, G)
    ensures Within(G, |d0.t|)
    ensures WellFormed(Filter(st))
    ensures Filter(st).t == Pick(d0.t, G)
    ensures Filter(st).dt.Some? <==> d0.dt.Some?
    ensures d0.dt.Some? ==> Filter(st).dt.value == Pick(d0.dt.value, G)
    ensures Filter(st).timeRes == Some(Lens(G))
  {
    TilesWithin(G, 0, |d0.t|);
    SettledMarks(d0, st, G);
    KeptGroups(st.d.t, st.summ, G, 0);
    if st.d.dt.Some? {
      KeptGroups(st.d.dt.value, st.summ, G, 0);
    }
    KeptLengths(st, G);
    VarsAligned(st);
    KeepVarsGroups(st.d.vars, st.summ, G);
    FilterWellFormed(st, G);
  }

  lemma VarsAligned(st: State)
    requires Aligned(st)
    ensures forall k :: k in st.d.vars && k in KnownDataTypes ==> |st.d.vars[k].rows| == |st.summ|
  {
    forall k | k in st.d.vars && k in KnownDataTypes
      ensures |st.d.vars[k].rows| == |st.summ|
    {
      assert Governed(st.d.vars, k, |st.d.t|);
    }
  }

  /** Filtering a state whose groups are all settled keeps, in each policy variable, the fold over every group. */
  lemma FilterVars(d0: Data, st: State, G: seq<Span>)
    requires ScannedFrom(d0, st) && Tiles(G, 0, |d0.t|) && Settled(d0, st, G)
    ensures Filter(st).vars.Keys == d0.vars.Keys
    ensures forall k :: k in d0.vars && k !in KnownDataTypes ==> Filter(st).vars[k] == d0.vars[k]
    ensures forall k :: k in d0.vars && k in KnownDataTypes ==>
      Filter(st).vars[k].width == d0.vars[k].width && |Filter(st).vars[k].rows| == |G|
    ensures forall k :: k in d0.vars && k in KnownDataTypes && !KnownDataTypes[k].WeightedAverage? ==>
      && Governed(d0.vars, k, |d0.t|)
      && forall j :: 0 <= j < |G| ==>
        Filter(st).vars[k].rows[j] == FoldRow(d0.vars[k].rows, d0.vars[k].width, KnownDataTypes[k], [], G[j])
  {
    SettledMarks(d0, st, G);
    VarsAligned(st);
    KeepVarsGroups(st.d.vars, st.summ, G);
    forall k | k in d0.vars && k in KnownDataTypes && !KnownDataTypes[k].WeightedAverage?
      ensures Governed(d0.vars, k, |d0.t|)
      ensures forall j :: 0 <= j < |G| ==>
        Filter(st).vars[k].rows[j] == FoldRow(d0.vars[k].rows, d0.vars[k].width, KnownDataTypes[k], [], G[j])
    {
      SettledPick(d0, st, G, k);
    }
  }

  // ---------------------------------------------------------------------------------------
  // Consequences

  /** Fold-count conservation: the kept rows' `time_res` values add up to the original step count. */
  lemma TimestepperConserves(d: Data, mask: seq<int>, v: Variant)
    requires WellFormed(d) && |mask| == |d.t| >= 1 && IsMask(mask)
    ensures DynamicTimestepper(d, mask, v).timeRes.Some?
    ensures Total(DynamicTimestepper(d, mask, v).timeRes.value) == |d.t|
  {
    GroupsTile(mask, 0, v);
    TilesTotal(Groups(mask, 0, v), 0, |d.t|);
  }

  /** A mask flagged everywhere folds the whole series into one step of length N. */
  lemma TimestepperAllFlagged(d: Data, mask: seq<int>, v: Variant)
    requires WellFormed(d) && |mask| == |d.t| >= 1
    requires forall p :: 0 <= p < |mask| ==> mask[p] == 1
    ensures IsMask(mask)
    ensures DynamicTimestepper(d, mask, v).t == [d.t[0]]
    ensures DynamicTimestepper(d, mask, v).timeRes == Some([|d.t|])
  {
    AllFlaggedOneGroup(mask, v);
    assert Lens([Span(0, |d.t|)]) == [|d.t|];
  }

  /** As written, a mask with no flag at all still folds the whole series into one step. */
  lemma AsWrittenNoFlagFoldsAll(d: Data, mask: seq<int>)
    requires WellFormed(d) && |mask| == |d.t| >= 1
    requires forall p :: 0 <= p < |mask| ==> mask[p] == 0
    ensures IsMask(mask)
    ensures DynamicTimestepper(d, mask, AsWritten).t == [d.t[0]]
    ensures DynamicTimestepper(d, mask, AsWritten).timeRes == Some([|d.t|])
  {
    AsWrittenNoFlagCollapses(mask);
    assert Lens([Span(0, |d.t|)]) == [|d.t|];
  }

  /** Nothing is marked 2: every row is kept. */
  lemma {:induction false} KeptAll<T>(xs: seq<T>, s: seq<int>, i: nat)
    requires |xs| == |s| && i <= |s| && forall p :: i <= p < |s| ==> s[p] < 2
    ensures KeptFrom(xs, s, i) == xs[i..]
    decreases |s| - i
  {
    if i < |s| {
      KeptAll(xs, s, i + 1);
      assert xs[i..] == [xs[i]] + xs[i + 1..];
    }
  }

  /**
   * As intended, a mask with no flag at all leaves the dataset exactly as it was, with
   * `time_res_series` 1 at every step.
   */
  lemma IntendedNoFlagUnchanged(d: Data, mask: seq<int>)
    requires WellFormed(d) && |mask| == |d.t| >= 1
    requires forall p :: 0 <= p < |mask| ==> mask[p] == 0
    ensures IsMask(mask)
    ensures DynamicTimestepper(d, mask, Intended) == d.(timeRes := Some(seq(|d.t|, _ => 1)))
  {
    var st0 := State(d, mask, seq(|mask|, _ => 1));
    NextRunOnMask(mask, 0);
    assert NextOne(mask, 0) == |mask|;
    assert ScanFrom(st0, 0, Intended) == st0;
    var r := Filter(st0);
    KeptAll(d.t, mask, 0);
    KeptAll(st0.res, mask, 0);
    if d.dt.Some? {
      KeptAll(d.dt.value, mask, 0);
    }
    forall k | k in d.vars && k in KnownDataTypes
      ensures r.vars[k] == d.vars[k]
    {
      assert Governed(d.vars, k, |d.t|);
      KeptAll(d.vars[k].rows, mask, 0);
    }
    assert r.vars == d.vars;
  }

  /** Some group of a tiling holds row p. */
  lemma {:induction false} TilesCover(G: seq<Span>, lo: nat, hi: nat, p: nat)
    requires Tiles(G, lo, hi) && lo <= p < hi
    ensures exists j :: 0 <= j < |G| && G[j].lo <= p < G[j].hi
    decreases |G|
  {
    if p >= G[0].hi {
      TilesCover(G[1..], G[0].hi, hi, p);
      var j :| 0 <= j < |G[1..]| && G[1..][j].lo <= p < G[1..][j].hi;
      assert G[j + 1] == G[1..][j];
    } else {
      assert G[0].lo <= p < G[0].hi;
    }
  }

  /** As intended, an unflagged row is a group of its own. */
  lemma IntendedUnflaggedAlone(mask: seq<int>, p: nat)
    requires IsMask(mask) && p < |mask| && mask[p] == 0
    ensures exists j :: 0 <= j < |Groups(mask, 0, Intended)| && Groups(mask, 0, Intended)[j] == Span(p, p + 1)
  {
    var G := Groups(mask, 0, Intended);
    GroupsTile(mask, 0, Intended);
    TilesCover(G, 0, |mask|, p);
    var j :| 0 <= j < |G| && G[j].lo <= p < G[j].hi;
    IntendedGroupsMaximal(mask, 0);
    assert Maximal(mask, G[j]);
  }

  /**
   * As intended, every unflagged row survives as a step of its own: it is kept, with
   * `time_res` 1.
   */
  lemma IntendedKeepsUnflagged(d: Data, mask: seq<int>, p: nat)
    requires WellFormed(d) && |mask| == |d.t| >= 1 && IsMask(mask)
    requires p < |mask| && mask[p] == 0
    ensures exists j ::
      && 0 <= j < |DynamicTimestepper(d, mask, Intended).t|
      && DynamicTimestepper(d, mask, Intended).t[j] == d.t[p]
      && DynamicTimestepper(d, mask, Intended).timeRes.value[j] == 1
  {
    var G := Groups(mask, 0, Intended);
    var r := DynamicTimestepper(d, mask, Intended);
    IntendedUnflaggedAlone(mask, p);
    var j :| 0 <= j < |G| && G[j] == Span(p, p + 1);
    assert r.t[j] == d.t[p];
    assert r.timeRes.value[j] == Lens(G)[j] == 1;
  }
}
