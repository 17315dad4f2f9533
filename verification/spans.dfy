/** Row spans: half-open ranges of row positions, and the ways a series of rows is cut into them. */
module Spans {

  /** The rows lo .. hi-1 of a series. */
  datatype Span = Span(lo: nat, hi: nat)

  /** The spans lie left to right over lo .. hi-1, each non-empty, without gaps or overlaps. */
  predicate Tiles(G: seq<Span>, lo: nat, hi: nat)
    decreases |G|
  {
    if |G| == 0 then lo == hi
    else G[0].lo == lo && G[0].lo < G[0].hi && Tiles(G[1..], G[0].hi, hi)
  }

  /** Every span is non-empty and ends at or before row n. */
  predicate Within(G: seq<Span>, n: nat)
  {
    forall j :: 0 <= j < |G| ==> G[j].lo < G[j].hi <= n
  }

  /** How many rows each span holds. */
  function Lens(G: seq<Span>): (r: seq<int>)
    ensures |r| == |G|
  {
    seq(|G|, j requires 0 <= j < |G| => G[j].hi - G[j].lo)
  }

  function Total(xs: seq<int>): int
  {
    if |xs| == 0 then 0 else xs[0] + Total(xs[1..])
  }

  /** The spans lo+i*R .. lo+i*R+R-1 for i below count: equal windows of R rows. */
  function Windows(lo: nat, R: nat, count: nat): (r: seq<Span>)
    ensures |r| == count
  {
    seq(count, i requires 0 <= i < count => Span(lo + i * R, lo + i * R + R))
  }

  /** One single-row span per row lo .. hi-1. */
  function Singles(lo: nat, hi: nat): (r: seq<Span>)
    requires lo <= hi
    ensures |r| == hi - lo
  {
    seq(hi - lo, i requires 0 <= i < hi - lo => Span(lo + i, lo + i + 1))
  }

  /** The first row of every span. */
  function Pick<T>(xs: seq<T>, G: seq<Span>): (r: seq<T>)
    requires Within(G, |xs|)
    ensures |r| == |G|
    ensures forall j :: 0 <= j < |G| ==> r[j] == xs[G[j].lo]
  {
    seq(|G|, j requires 0 <= j < |G| => xs[G[j].lo])
  }

  lemma {:induction false} TilesWithin(G: seq<Span>, lo: nat, hi: nat)
    requires Tiles(G, lo, hi)
    ensures lo <= hi && Within(G, hi)
    ensures forall j :: 0 <= j < |G| ==> lo <= G[j].lo
    decreases |G|
  {
    if |G| > 0 {
      TilesWithin(G[1..], G[0].hi, hi);
      forall j | 0 <= j < |G|
        ensures lo <= G[j].lo < G[j].hi <= hi
      {
        if j > 0 {
          assert G[j] == G[1..][j - 1];
        }
      }
    }
  }

  lemma {:induction false} TilesAppend(A: seq<Span>, B: seq<Span>, a: nat, b: nat, c: nat)
    requires Tiles(A, a, b) && Tiles(B, b, c)
    ensures Tiles(A + B, a, c)
    decreases |A|
  {
    if |A| > 0 {
      TilesAppend(A[1..], B, A[0].hi, b, c);
      assert (A + B)[0] == A[0];
      assert (A + B)[1..] == A[1..] + B;
    } else {
      assert A + B == B;
    }
  }

  lemma {:induction false} SinglesTile(lo: nat, hi: nat)
    requires lo <= hi
    ensures Tiles(Singles(lo, hi), lo, hi)
    decreases hi - lo
  {
    if lo < hi {
      SinglesTile(lo + 1, hi);
      assert Singles(lo, hi)[1..] == Singles(lo + 1, hi);
    }
  }

  lemma SinglesCons(lo: nat, hi: nat)
    requires lo < hi
    ensures Singles(lo, hi) == [Span(lo, lo + 1)] + Singles(lo + 1, hi)
  {
  }

  lemma {:induction false} WindowsTile(lo: nat, R: nat, count: nat)
    requires R >= 1
    ensures Tiles(Windows(lo, R, count), lo, lo + count * R)
    decreases count
  {
    if count > 0 {
      WindowsTile(lo + R, R, count - 1);
      var W := Windows(lo, R, count);
      var V := Windows(lo + R, R, count - 1);
      forall i | 0 <= i < count - 1
        ensures W[1..][i] == V[i]
      {
        MulSucc(i, R);
      }
      assert W[1..] == V;
      MulSucc(count - 1, R);
    }
  }

  lemma MulSucc(i: nat, R: nat)
    ensures (i + 1) * R == i * R + R
  {
  }

  /** Tiling spans account for every row exactly once: their lengths add up to the rows covered. */
  lemma {:induction false} TilesTotal(G: seq<Span>, lo: nat, hi: nat)
    requires Tiles(G, lo, hi)
    ensures Total(Lens(G)) == hi - lo
    decreases |G|
  {
    if |G| > 0 {
      TilesTotal(G[1..], G[0].hi, hi);
      assert Lens(G)[1..] == Lens(G[1..]);
    }
  }

  lemma PickCons<T>(xs: seq<T>, G: seq<Span>)
    requires |G| > 0 && Within(G, |xs|)
    ensures Within(G[1..], |xs|)
    ensures Pick(xs, G) == [xs[G[0].lo]] + Pick(xs, G[1..])
  {
    assert Within(G[1..], |xs|) by {
      forall j | 0 <= j < |G[1..]|
        ensures G[1..][j].lo < G[1..][j].hi <= |xs|
      {
        assert G[1..][j] == G[j + 1];
      }
    }
  }
}
