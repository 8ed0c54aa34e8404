/**
 * What the layers are: a bucket is an equal slice of the score range, and when no two
 * scores share one, the bins are the fractional means of the returns sorted by score.
 */
module LayerLaws {
  import opened Common
  import opened Binning
  import opened Layers

  // ---- slices ----

  lemma InSlices(x: real, d: real)
    requires x >= 0.0 && d > 0.0
    ensures var h := Layers.Scaled(x, d).Floor;
      h >= 0 && h as real * d <= x * N_BUCKETS as real < (h + 1) as real * d
  {
    var n := N_BUCKETS as real;
    var q, h := n / d, Layers.Scaled(x, d).Floor;
    DivBack(n, d);
    var y := x * q;
    assert h as real <= y < h as real + 1.0;
    assert y * d == x * (q * d);
    Widths(h, y, d);
  }

  lemma Widths(h: int, y: real, d: real)
    requires d > 0.0 && h as real <= y < h as real + 1.0
    ensures h as real * d <= y * d < (h + 1) as real * d
  {
    assert (y - h as real) * d >= 0.0;
    assert (h as real + 1.0 - y) * d > 0.0;
  }

  /** Bucket h is the slice from h to h + 1 of the range cut into N_BUCKETS; the last one holds its upper end, too. */
  lemma BucketSlice(x: real, mn: real, mx: real)
    requires mn <= x <= mx && mn < mx
    ensures var h := BucketOf(x, mn, mx);
      && h as real * (mx - mn) <= (x - mn) * N_BUCKETS as real
      && (h < N_BUCKETS - 1 ==> (x - mn) * N_BUCKETS as real < (h + 1) as real * (mx - mn))
  {
    InSlices(x - mn, mx - mn);
    var s := Layers.Scaled(x - mn, mx - mn).Floor;
    hide Layers.Scaled;
    if s > N_BUCKETS - 1 {
      LessSlices(N_BUCKETS - 1, s, mx - mn);
    }
  }

  lemma LessSlices(h: int, s: int, d: real)
    requires h <= s && d > 0.0
    ensures h as real * d <= s as real * d
  {
    assert (s - h) as real * d >= 0.0;
  }

  /** Scores more than a slice apart lie in different buckets, the lower one in the lower. */
  lemma SlicesApart(x: real, y: real, mn: real, mx: real)
    requires mn <= x <= mx && mn <= y <= mx && mn < mx && (y - x) * N_BUCKETS as real > mx - mn
    ensures BucketOf(x, mn, mx) < BucketOf(y, mn, mx)
  {
    var h, g := BucketOf(x, mn, mx), BucketOf(y, mn, mx);
    BucketSlice(x, mn, mx);
    BucketSlice(y, mn, mx);
    hide BucketOf;
    if h >= g {
      LessSlices(g, h, mx - mn);
      NotApart(x - mn, y - mn, mx - mn, g, h);
    }
  }

  lemma NotApart(x: real, y: real, d: real, g: int, h: int)
    requires d > 0.0 && y <= d && h < N_BUCKETS && h as real * d <= x * N_BUCKETS as real && g as real * d <= h as real * d
    requires g < N_BUCKETS - 1 ==> y * N_BUCKETS as real < (g + 1) as real * d
    requires g == N_BUCKETS - 1 ==> h == g
    ensures g <= N_BUCKETS - 1 ==> (y - x) * N_BUCKETS as real <= d
  {
    var n := N_BUCKETS as real;
    assert (y - x) * n == y * n - x * n;
    if g < N_BUCKETS - 1 {
      assert (g + 1) as real * d == g as real * d + d;
    } else if g == N_BUCKETS - 1 {
      assert y * n <= d * n;
      assert h as real * d == d * n - d;
    }
  }

  // ---- the returns sorted by score ----

  /** The sum of the lowest x returns, the one x falls into counted in proportion. */
  function FracSum(fs: seq<real>, x: real): real {
    FracRec(fs, x)
  }

  function FracRec(fs: seq<real>, x: real): real {
    if fs == [] then 0.0
    else
      var n := |fs| - 1;
      if x <= n as real then FracRec(fs[..n], x) else SumAll(fs[..n]) + MinReal(x - n as real, 1.0) * fs[n]
  }

  /** The members by ascending score, each once. */
  ghost predicate ByScore(acc: seq<real>, idx: seq<nat>) {
    && |idx| == |acc| && Distinct(idx) && (forall k :: 0 <= k < |idx| ==> idx[k] < |acc|)
    && forall j, k :: 0 <= j < k < |idx| ==> acc[idx[j]] <= acc[idx[k]]
  }

  ghost function Along(fr: seq<real>, idx: seq<nat>): (fs: seq<real>)
    requires forall k :: 0 <= k < |idx| ==> idx[k] < |fr|
    ensures |fs| == |idx|
  {
    seq(|idx|, k requires 0 <= k < |idx| => fr[idx[k]])
  }

  /** A bucket for each return. */
  ghost function Singles(fs: seq<real>): (bs: seq<Bucket>)
    ensures |bs| == |fs| && Positive(bs)
  {
    seq(|fs|, k requires 0 <= k < |fs| => Bucket(1, fs[k]))
  }

  lemma {:induction false} SinglesMass(fs: seq<real>)
    ensures Mass(Singles(fs)) == |fs| as real && Total(Singles(fs)) == SumAll(fs)
  {
    if fs != [] {
      var n := |fs| - 1;
      SinglesMass(fs[..n]);
      assert Singles(fs)[..n] == Singles(fs[..n]);
    }
  }

  lemma {:induction false} SinglesCurve(fs: seq<real>, x: real)
    ensures Curve(Singles(fs), x) == FracSum(fs, x)
  {
    if fs != [] {
      var n := |fs| - 1;
      SinglesCurve(fs[..n], x);
      SinglesMass(fs[..n]);
      assert Singles(fs)[..n] == Singles(fs[..n]);
      assert fs[n] / 1.0 == fs[n];
      hide Mass, Total, SumAll, Singles;
    }
  }

  lemma {:induction false} OnlyOne(hs: seq<nat>, fr: seq<real>, i: nat)
    requires |hs| == |fr| && Distinct(hs) && i < |hs|
    ensures CountIn(hs, hs[i]) == 1 && SumIn(fr, hs, hs[i]) == fr[i]
  {
    var n := |hs| - 1;
    if i < n {
      OnlyOne(hs[..n], fr[..n], i);
    } else {
      NoneAt(hs[..n], hs[n]);
      NoneIn(hs[..n], fr[..n], hs[n]);
    }
  }

  lemma {:induction false} NoneAt(hs: seq<nat>, h: nat)
    requires h !in hs
    ensures CountIn(hs, h) == 0
  {
    if hs != [] {
      NoneAt(hs[..|hs| - 1], h);
    }
  }

  /** Every member's place is listed. */
  lemma AllListed(idx: seq<nat>, n: nat, i: nat)
    requires |idx| == n && Distinct(idx) && (forall k :: 0 <= k < |idx| ==> idx[k] < n) && i < n
    ensures i in idx
  {
    assert forall x :: x in idx ==> x in Upto(n);
    DistinctBound(idx, Upto(n));
    assert i in Elems(idx);
  }

  /** Below bucket top stand the first k members by score, each alone in its bucket. */
  lemma {:induction false} SweptSingles(hs: seq<nat>, fr: seq<real>, idx: seq<nat>, top: nat, k: nat)
    requires |hs| == |fr| == |idx| && Distinct(hs) && Distinct(idx) && (forall j :: 0 <= j < |idx| ==> idx[j] < |hs|)
    requires forall i, j :: 0 <= i < j < |idx| ==> hs[idx[i]] < hs[idx[j]]
    requires k <= |idx| && (forall j :: 0 <= j < k ==> hs[idx[j]] < top) && (forall j :: k <= j < |idx| ==> hs[idx[j]] >= top)
    ensures Nonempty(hs, fr, top) == Singles(Along(fr, idx)[..k])
    decreases top
  {
    if top > 0 {
      NonemptyNext(hs, fr, top - 1);
      hide Nonempty, CountIn, SumIn, Singles, Along;
      if k > 0 && hs[idx[k - 1]] == top - 1 {
        SweptSingles(hs, fr, idx, top - 1, k - 1);
        OnlyOne(hs, fr, idx[k - 1]);
        SinglesNext(fr, idx, k);
      } else {
        SweptSingles(hs, fr, idx, top - 1, k);
        NotThere(hs, idx, top, k);
        NoneAt(hs, top - 1);
      }
    } else {
      assert k == 0;
    }
  }

  lemma SinglesNext(fr: seq<real>, idx: seq<nat>, k: nat)
    requires 0 < k <= |idx| && forall j :: 0 <= j < |idx| ==> idx[j] < |fr|
    ensures Singles(Along(fr, idx)[..k]) == Singles(Along(fr, idx)[..k - 1]) + [Bucket(1, fr[idx[k - 1]])]
  {
  }

  lemma NotThere(hs: seq<nat>, idx: seq<nat>, top: nat, k: nat)
    requires |hs| == |idx| && Distinct(idx) && (forall j :: 0 <= j < |idx| ==> idx[j] < |hs|)
    requires forall i, j :: 0 <= i < j < |idx| ==> hs[idx[i]] < hs[idx[j]]
    requires top > 0 && k <= |idx| && (forall j :: k <= j < |idx| ==> hs[idx[j]] >= top)
    requires k > 0 ==> hs[idx[k - 1]] != top - 1 && hs[idx[k - 1]] < top
    ensures top - 1 !in hs
  {
    forall i | 0 <= i < |hs|
      ensures hs[i] != top - 1
    {
      AllListed(idx, |hs|, i);
      var j :| 0 <= j < |idx| && idx[j] == i;
    }
  }

  /** No two scores share a bucket. */
  ghost predicate Spread(acc: seq<real>) {
    acc != [] && Distinct(BucketRow(acc))
  }

  lemma RowOrder(acc: seq<real>, idx: seq<nat>)
    requires Spread(acc) && ByScore(acc, idx)
    ensures var hs := BucketRow(acc); forall i, j :: 0 <= i < j < |idx| ==> hs[idx[i]] < hs[idx[j]]
  {
    var hs := BucketRow(acc);
    forall i, j | 0 <= i < j < |idx|
      ensures hs[idx[i]] < hs[idx[j]]
    {
      BucketMonotone(acc[idx[i]], acc[idx[j]], MinOf(acc), MaxOf(acc));
      assert idx[i] != idx[j];
      hide BucketOf, MinOf, MaxOf;
    }
  }

  /** Scores pairwise more than a slice apart share no bucket. */
  lemma SpreadWhen(acc: seq<real>)
    requires acc != [] && forall i, j :: 0 <= i < |acc| && 0 <= j < |acc| && i != j ==>
      (acc[j] - acc[i]) * N_BUCKETS as real > MaxOf(acc) - MinOf(acc) || (acc[i] - acc[j]) * N_BUCKETS as real > MaxOf(acc) - MinOf(acc)
    ensures Spread(acc)
  {
    var hs := BucketRow(acc);
    forall i, j | 0 <= i < j < |hs|
      ensures hs[i] != hs[j]
    {
      hide BucketOf, MinOf, MaxOf;
      if (acc[j] - acc[i]) * N_BUCKETS as real > MaxOf(acc) - MinOf(acc) {
        SlicesApart(acc[i], acc[j], MinOf(acc), MaxOf(acc));
      } else {
        SlicesApart(acc[j], acc[i], MinOf(acc), MaxOf(acc));
      }
    }
  }

  /**
   * Whenever no two scores share a bucket, each bin holds its equal share of the returns
   * sorted by score, the return at a boundary split in proportion.
   */
  lemma LayersSort(acc: seq<real>, fr: seq<real>, nb: nat, idx: seq<nat>, per: real, j: nat)
    requires |acc| == |fr| > 0 && j < nb && per == |acc| as real / nb as real && Spread(acc) && ByScore(acc, idx)
    ensures |Layered(acc, fr, nb, N_BUCKETS)| == nb
    ensures Layered(acc, fr, nb, N_BUCKETS)[j] * per ==
      FracSum(Along(fr, idx), (j + 1) as real * per) - FracSum(Along(fr, idx), j as real * per)
  {
    hide *;
    AlongRow(acc, idx);
    var hs, fs := BucketRow(acc), Along(fr, idx);
    RowBounds(acc);
    RowOrder(acc, idx);
    SpreadRow(acc);
    SweptSingles(hs, fr, idx, N_BUCKETS, |idx|);
    assert fs[..|idx|] == fs;
    SinglesCurve(fs, (j + 1) as real * per);
    SinglesCurve(fs, j as real * per);
    LayeredIs(acc, fr, nb, N_BUCKETS);
    MeanIs(Singles(fs), per, nb, j);
  }

  lemma LayeredIs(acc: seq<real>, fr: seq<real>, nb: nat, top: nat)
    requires |acc| == |fr| > 0 && nb > 0
    ensures var bs, per := Nonempty(BucketRow(acc), fr, top), |acc| as real / nb as real;
      Positive(bs) && per > 0.0 && Layered(acc, fr, nb, top) == ShareMeans(bs, per, nb)
  {
    RowBounds(acc);
    NonemptyMass(BucketRow(acc), fr, top);
    DivSign(|acc| as real, nb as real);
    hide BucketRow, Nonempty, ShareMeans;
  }

  lemma MeanIs(bs: seq<Bucket>, per: real, nb: nat, j: nat)
    requires Positive(bs) && per > 0.0 && j < nb
    ensures |ShareMeans(bs, per, nb)| == nb
    ensures ShareMeans(bs, per, nb)[j] * per == Curve(bs, (j + 1) as real * per) - Curve(bs, j as real * per)
  {
    hide Curve;
    DivBack(Share(bs, per, j), per);
  }

  lemma SpreadRow(acc: seq<real>)
    requires Spread(acc)
    ensures acc != [] && Distinct(BucketRow(acc))
  {
  }

  lemma AlongRow(acc: seq<real>, idx: seq<nat>)
    requires ByScore(acc, idx)
    ensures |idx| == |acc| && Distinct(idx) && forall k :: 0 <= k < |idx| ==> idx[k] < |acc|
  {
  }

  // ---- scores all alike ----

  lemma {:induction false} AllIn(hs: seq<nat>, fr: seq<real>, h: nat)
    requires |hs| == |fr| && forall j :: 0 <= j < |hs| ==> hs[j] == h
    ensures CountIn(hs, h) == |hs| && SumIn(fr, hs, h) == SumAll(fr)
  {
    if hs != [] {
      AllIn(hs[..|hs| - 1], fr[..|fr| - 1], h);
    }
  }

  /** One touched bucket. */
  lemma OneBucket(hs: seq<nat>, fr: seq<real>, h: nat, top: nat)
    requires |hs| == |fr| > 0 && h < top && forall j :: 0 <= j < |hs| ==> hs[j] == h
    ensures Nonempty(hs, fr, top) == [Bucket(|hs|, SumAll(fr))]
  {
    forall g | 0 <= g < top && g != h
      ensures CountIn(hs, g) == 0
    {
      NoneAt(hs, g);
    }
    AllIn(hs, fr, h);
    NonemptySkip(hs, fr, 0, h);
    NonemptyNext(hs, fr, h);
    NonemptySkip(hs, fr, h + 1, top);
    assert Nonempty(hs, fr, 0) == [];
    hide Nonempty, CountIn, SumIn, SumAll;
  }

  lemma OneCurve(n: nat, sum: real, x: real)
    requires n > 0 && 0.0 <= x <= n as real
    ensures Curve([Bucket(n, sum)], x) == x * (sum / n as real)
  {
    var bs: seq<Bucket> := [];
    CurveInside(bs, Bucket(n, sum), x);
    assert bs + [Bucket(n, sum)] == [Bucket(n, sum)];
    hide Curve;
  }

  lemma Evenly(r: real, per: real, mean: real, lo: real, hi: real, rise: real)
    requires per > 0.0 && hi == lo + per && rise == hi * mean - lo * mean && r * per == rise
    ensures r == mean
  {
    assert rise == per * mean;
    assert (r - mean) * per == 0.0;
  }

  lemma InRange(n: nat, nb: nat, per: real, j: nat)
    requires n > 0 && nb > 0 && j <= nb && per == n as real / nb as real
    ensures 0.0 <= Edge(j, per) <= n as real
  {
    DivSign(n as real, nb as real);
    DivBack(n as real, nb as real);
    assert (nb - j) as real * per >= 0.0;
  }

  lemma MeanEdges(bs: seq<Bucket>, per: real, nb: nat, j: nat)
    requires Positive(bs) && per > 0.0 && j < nb
    ensures |ShareMeans(bs, per, nb)| == nb && Edge(j + 1, per) == Edge(j, per) + per
    ensures ShareMeans(bs, per, nb)[j] * per == Curve(bs, Edge(j + 1, per)) - Curve(bs, Edge(j, per))
  {
    hide Curve;
    MeanIs(bs, per, nb, j);
  }

  lemma OneShare(n: nat, sum: real, per: real, nb: nat, j: nat)
    requires n > 0 && j < nb && per > 0.0
    requires 0.0 <= Edge(j, per) <= n as real && 0.0 <= Edge(j + 1, per) <= n as real
    ensures |ShareMeans([Bucket(n, sum)], per, nb)| == nb && ShareMeans([Bucket(n, sum)], per, nb)[j] == sum / n as real
  {
    hide Curve, Edge, ShareMeans;
    var bs := [Bucket(n, sum)];
    OneCurve(n, sum, Edge(j, per));
    OneCurve(n, sum, Edge(j + 1, per));
    MeanEdges(bs, per, nb, j);
    Evenly(ShareMeans(bs, per, nb)[j], per, sum / n as real, Edge(j, per), Edge(j + 1, per),
           Curve(bs, Edge(j + 1, per)) - Curve(bs, Edge(j, per)));
  }

  lemma AlikeRow(acc: seq<real>)
    requires acc != [] && forall i :: 0 <= i < |acc| ==> acc[i] == acc[0]
    ensures forall i :: 0 <= i < |acc| ==> BucketRow(acc)[i] == BucketRow(acc)[0]
  {
    hide BucketOf, MinOf, MaxOf;
  }

  /** When all scores are alike every bin holds the mean of all returns: ties are shared out. */
  lemma AlikeLayers(acc: seq<real>, fr: seq<real>, nb: nat, j: nat)
    requires |acc| == |fr| > 0 && j < nb && forall i :: 0 <= i < |acc| ==> acc[i] == acc[0]
    ensures |Layered(acc, fr, nb, N_BUCKETS)| == nb
    ensures Layered(acc, fr, nb, N_BUCKETS)[j] == SumAll(fr) / |fr| as real
  {
    hide *;
    RowBounds(acc);
    AlikeRow(acc);
    OneBucket(BucketRow(acc), fr, BucketRow(acc)[0], N_BUCKETS);
    LayeredIs(acc, fr, nb, N_BUCKETS);
    var per := |acc| as real / nb as real;
    InRange(|acc|, nb, per, j);
    InRange(|acc|, nb, per, j + 1);
    OneShare(|fr|, SumAll(fr), per, nb, j);
  }
}
