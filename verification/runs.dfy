/**
 * The run scan of dynamic_timestepper: argmax/argmin over the mask suffix find the next run
 * of flagged rows, and the run-length grouping that the scan produces, as written and as
 * evidently intended.
 */
module Runs {
  import opened Spans
  import opened Mask

  /** The position of the first largest value, as numpy's argmax picks it. */
  function ArgMax(s: seq<int>): (r: nat)
    requires |s| >= 1
    ensures r < |s|
    ensures forall j :: 0 <= j < |s| ==> s[j] <= s[r]
    ensures forall j :: 0 <= j < r ==> s[j] < s[r]
    decreases |s|
  {
    if |s| == 1 then 0
    else
      var k := ArgMax(s[..|s| - 1]);
      if s[|s| - 1] > s[k] then |s| - 1 else k
  }

  /** The position of the first smallest value, as numpy's argmin picks it. */
  function ArgMin(s: seq<int>): (r: nat)
    requires |s| >= 1
    ensures r < |s|
    ensures forall j :: 0 <= j < |s| ==> s[r] <= s[j]
    ensures forall j :: 0 <= j < r ==> s[r] < s[j]
    decreases |s|
  {
    if |s| == 1 then 0
    else
      var k := ArgMin(s[..|s| - 1]);
      if s[|s| - 1] < s[k] then |s| - 1 else k
  }

  /** One scan step: the rows from .. to-1 are collapsed; `last` ends the scan. */
  datatype Run = Run(from: nat, to: nat, last: bool)

  /**
   * The next run at or after istart: from is the first maximum of the suffix, to the first
   * minimum after it; when they coincide the run is stretched to the end and is the last one.
   */
  function NextRun(s: seq<int>, istart: nat): (r: Run)
    requires istart < |s|
    ensures istart <= r.from < r.to <= |s|
    ensures !r.last ==> r.to < |s|
  {
    var from := istart + ArgMax(s[istart..]);
    var to := from + ArgMin(s[from..]);
    if from == to then Run(from, |s|, true) else Run(from, to, false)
  }

  /** The first position at or after i holding a 1, or |m| if none does. */
  function NextOne(m: seq<int>, i: nat): (r: nat)
    requires i <= |m|
    ensures i <= r <= |m|
    ensures r < |m| ==> m[r] == 1
    ensures forall j :: i <= j < r ==> m[j] != 1
    decreases |m| - i
  {
    if i == |m| || m[i] == 1 then i else NextOne(m, i + 1)
  }

  /** The first position at or after i not holding a 1, or |m|: the end of a run of 1s at i. */
  function RunEnd(m: seq<int>, i: nat): (r: nat)
    requires i <= |m|
    ensures i <= r <= |m|
    ensures r < |m| ==> m[r] != 1
    ensures forall j :: i <= j < r ==> m[j] == 1
    decreases |m| - i
  {
    if i == |m| || m[i] != 1 then i else RunEnd(m, i + 1)
  }

  /**
   * How the scan behaves once no 1 remains: as written it collapses the whole remaining
   * tail into one step; as evidently intended it stops and leaves the tail alone.
   */
  datatype Variant = AsWritten | Intended

  /**
   * The grouping of rows i .. |m|-1 that the scan produces: each run of 1s is one group,
   * each 0 before a later 1 is a group of its own, and the 0s after the last run are a single
   * group as written, or one group each as intended.
   */
  function Groups(m: seq<int>, i: nat, v: Variant): seq<Span>
    requires i <= |m|
    decreases |m| - i
  {
    if i == |m| then []
    else if m[i] == 1 then
      var e := RunEnd(m, i + 1);
      [Span(i, e)] + Groups(m, e, v)
    else if v.AsWritten? && NextOne(m, i) == |m| then [Span(i, |m|)]
    else [Span(i, i + 1)] + Groups(m, i + 1, v)
  }

  /** The groups from row i tile the rows i .. |m|-1. */
  lemma {:induction false} GroupsTile(m: seq<int>, i: nat, v: Variant)
    requires i <= |m|
    ensures Tiles(Groups(m, i, v), i, |m|)
    decreases |m| - i
  {
    if i < |m| {
      var e := if m[i] == 1 then RunEnd(m, i + 1) else if v.AsWritten? && NextOne(m, i) == |m| then |m| else i + 1;
      if e < |m| || m[i] == 1 || v.Intended? || NextOne(m, i) != |m| {
        GroupsTile(m, e, v);
        assert Groups(m, i, v)[1..] == Groups(m, e, v);
      }
    }
  }

  /**
   * On a mask, the scan step at istart finds exactly the next group: the run of 1s starting at
   * the first 1 from istart, or, with no 1 left, the whole tail as the last step.
   */
  lemma NextRunOnMask(s: seq<int>, istart: nat)
    requires istart < |s| && forall j :: istart <= j < |s| ==> s[j] == 0 || s[j] == 1
    ensures NextOne(s, istart) < |s| ==>
      && NextRun(s, istart).from == NextOne(s, istart)
      && NextRun(s, istart).to == RunEnd(s, NextOne(s, istart))
      && (NextRun(s, istart).last <==> NextRun(s, istart).to == |s|)
    ensures NextOne(s, istart) == |s| ==>
      NextRun(s, istart) == Run(istart, |s|, true)
  {
    var n := NextOne(s, istart);
    FirstMaxIsNextOne(s, istart);
    if n < |s| {
      FirstMinIsRunEnd(s, n);
    }
  }

  /** On 0/1 values, argmax from istart lands on the first 1, or on istart when there is none. */
  lemma FirstMaxIsNextOne(s: seq<int>, istart: nat)
    requires istart < |s| && forall j :: istart <= j < |s| ==> s[j] == 0 || s[j] == 1
    ensures istart + ArgMax(s[istart..]) == if NextOne(s, istart) < |s| then NextOne(s, istart) else istart
  {
    var n := NextOne(s, istart);
    var suffix := s[istart..];
    var a := ArgMax(suffix);
    assert s[istart + a] == suffix[a];
    if n < |s| {
      assert suffix[n - istart] == s[n];
    } else {
      assert suffix[0] == s[istart];
    }
  }

  /** On 0/1 values, argmin from a 1 lands on the end of its run, or on the 1 itself when the run reaches the end. */
  lemma FirstMinIsRunEnd(s: seq<int>, n: nat)
    requires n < |s| && s[n] == 1 && forall j :: n <= j < |s| ==> s[j] == 0 || s[j] == 1
    ensures n + ArgMin(s[n..]) == if RunEnd(s, n) < |s| then RunEnd(s, n) else n
  {
    var tail := s[n..];
    var b := ArgMin(tail);
    var e := RunEnd(s, n);
    assert s[n + b] == tail[b];
    if e < |s| {
      assert tail[e - n] == s[e];
    } else {
      assert tail[0] == s[n];
    }
  }

  /** A group is a run of 1s that cannot be extended, or a single 0. */
  predicate Maximal(m: seq<int>, g: Span)
    requires g.lo < g.hi <= |m|
  {
    || (m[g.lo] == 0 && g.hi == g.lo + 1)
    || (m[g.lo] == 1 && (forall p :: g.lo <= p < g.hi ==> m[p] == 1) && (g.hi == |m| || m[g.hi] == 0))
  }

  /**
   * As intended, every group of a mask is a maximal run of 1s or a single 0: no unflagged row
   * is ever folded into another.
   */
  lemma {:induction false} IntendedGroupsMaximal(m: seq<int>, i: nat)
    requires i <= |m| && IsMask(m)
    ensures Within(Groups(m, i, Intended), |m|)
    ensures forall j :: 0 <= j < |Groups(m, i, Intended)| ==> Maximal(m, Groups(m, i, Intended)[j])
    decreases |m| - i
  {
    var G := Groups(m, i, Intended);
    GroupsTile(m, i, Intended);
    TilesWithin(G, i, |m|);
    if i < |m| {
      var e := if m[i] == 1 then RunEnd(m, i + 1) else i + 1;
      IntendedGroupsMaximal(m, e);
      assert G == [Span(i, e)] + Groups(m, e, Intended);
      forall j | 0 <= j < |G|
        ensures Maximal(m, G[j])
      {
        if j > 0 {
          assert G[j] == Groups(m, e, Intended)[j - 1];
        }
      }
    }
  }

  /** A mask with no 1 from row i on: as intended the scan leaves each of those rows on its own. */
  lemma {:induction false} IntendedNoFlagNoOp(m: seq<int>, i: nat)
    requires i <= |m| && forall j :: i <= j < |m| ==> m[j] == 0
    ensures Groups(m, i, Intended) == Singles(i, |m|)
    decreases |m| - i
  {
    if i < |m| {
      IntendedNoFlagNoOp(m, i + 1);
      assert Singles(i, |m|) == [Span(i, i + 1)] + Singles(i + 1, |m|);
    }
  }

  /** A mask with no 1 at all: as written the scan folds all rows into one. */
  lemma AsWrittenNoFlagCollapses(m: seq<int>)
    requires |m| >= 1 && forall j :: 0 <= j < |m| ==> m[j] == 0
    ensures Groups(m, 0, AsWritten) == [Span(0, |m|)]
  {
    assert NextOne(m, 0) == |m|;
  }

  /** A mask flagged everywhere folds into a single group under either behaviour. */
  lemma AllFlaggedOneGroup(m: seq<int>, v: Variant)
    requires |m| >= 1 && forall j :: 0 <= j < |m| ==> m[j] == 1
    ensures Groups(m, 0, v) == [Span(0, |m|)]
  {
    assert RunEnd(m, 1) == |m|;
  }

  /**
   * The unflagged rows after the last run are folded together as written: in [1, 0, 0] the
   * two 0s become one step of two rows, where each should have stayed a step of its own.
   */
  lemma TrailingZerosFolded()
    ensures Groups([1, 0, 0], 0, AsWritten) == [Span(0, 1), Span(1, 3)]
    ensures Groups([1, 0, 0], 0, Intended) == [Span(0, 1), Span(1, 2), Span(2, 3)]
    ensures !Maximal([1, 0, 0], Span(1, 3))
  {
    var m := [1, 0, 0];
    assert RunEnd(m, 1) == 1;
    assert NextOne(m, 1) == 3;
    assert NextOne(m, 2) == 3;
  }
}
