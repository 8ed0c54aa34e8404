/**
 * Equal-mass binning from a histogram: buckets are swept in ascending order, a
 * bucket that crosses a boundary is split in proportion, and no sort is needed.
 * Tolerances for floating-point tails are taken as zero.
 */
module Binning {
  import opened Common

  const N_BUCKETS: nat := 1024
  const WORD: nat := 64

  /** A touched bucket: how many members, and the sum of their returns. */
  datatype Bucket = Bucket(cnt: nat, sum: real)

  ghost predicate Positive(bs: seq<Bucket>) {
    forall k :: 0 <= k < |bs| ==> bs[k].cnt > 0
  }

  function Mass(bs: seq<Bucket>): real {
    if bs == [] then 0.0 else Mass(bs[..|bs| - 1]) + bs[|bs| - 1].cnt as real
  }

  function Total(bs: seq<Bucket>): real {
    if bs == [] then 0.0 else Total(bs[..|bs| - 1]) + bs[|bs| - 1].sum
  }

  /** The return of the lowest x members, bucket by bucket. */
  function CurveRec(bs: seq<Bucket>, x: real): real
    requires Positive(bs)
  {
    if bs == [] then 0.0
    else
      var n := |bs| - 1;
      var low := Mass(bs[..n]);
      if x <= low then CurveRec(bs[..n], x)
      else Total(bs[..n]) + (if x - low <= bs[n].cnt as real then x - low else bs[n].cnt as real) * (bs[n].sum / bs[n].cnt as real)
  }

  /**
   * The cumulative return curve: the return carried by the lowest x members, a
   * bucket's members all alike.
   */
  function Curve(bs: seq<Bucket>, x: real): real
    requires Positive(bs)
  {
    CurveRec(bs, x)
  }

  lemma {:induction false} MassNonNegative(bs: seq<Bucket>)
    ensures Mass(bs) >= 0.0
  {
    if bs != [] { MassNonNegative(bs[..|bs| - 1]); }
  }

  /** At the end of a bucket the curve has taken in exactly what the buckets hold. */
  lemma CurveAtEnd(bs: seq<Bucket>)
    requires Positive(bs)
    ensures Curve(bs, Mass(bs)) == Total(bs)
  {
    if bs != [] {
      var n := |bs| - 1;
      var c := bs[n].cnt as real;
      assert c * (bs[n].sum / c) == bs[n].sum;
    }
  }

  /** A further bucket leaves the curve below it as it was. */
  lemma CurveBelow(bs: seq<Bucket>, b: Bucket, x: real)
    requires Positive(bs) && b.cnt > 0 && x <= Mass(bs)
    ensures Positive(bs + [b]) && Curve(bs + [b], x) == Curve(bs, x)
  {
    assert (bs + [b])[..|bs|] == bs;
  }

  /** Inside its last bucket the curve rises at that bucket's mean. */
  lemma CurveInside(bs: seq<Bucket>, b: Bucket, t: real)
    requires Positive(bs) && b.cnt > 0 && 0.0 <= t <= b.cnt as real
    ensures Positive(bs + [b])
    ensures Curve(bs + [b], Mass(bs) + t) == Total(bs) + t * (b.sum / b.cnt as real)
  {
    assert (bs + [b])[..|bs|] == bs;
    CurveAtEnd(bs);
    var mean := b.sum / b.cnt as real;
    assert 0.0 * mean == 0.0;
  }

  lemma MassSnoc(bs: seq<Bucket>, b: Bucket)
    ensures Mass(bs + [b]) == Mass(bs) + b.cnt as real
    ensures Total(bs + [b]) == Total(bs) + b.sum
  {
    assert (bs + [b])[..|bs|] == bs;
  }

  /** Where bin j begins. */
  function Edge(j: int, per: real): real {
    j as real * per
  }

  /** What bin j holds: the curve's rise over its share of the mass. */
  function Share(bs: seq<Bucket>, per: real, j: int): real
    requires Positive(bs)
  {
    Curve(bs, Edge(j + 1, per)) - Curve(bs, Edge(j, per))
  }

  /** The sweep's state between buckets. */
  ghost predicate Swept(fed: seq<Bucket>, nb: nat, per: real, bin: nat, need: real, accr: real, ret: seq<real>) {
    && Positive(fed) && per > 0.0 && bin < nb == |ret|
    && accr == Total(fed) - Curve(fed, Edge(bin, per))
    && Edge(bin, per) <= Mass(fed)
    && (bin < nb - 1 ==> 0.0 < need <= per && Mass(fed) == Edge(bin + 1, per) - need)
    && forall j :: 0 <= j < bin ==> ret[j] * per == Share(fed, per, j)
  }

  /** The state inside a bucket being split: `rem` of it is still to come. */
  ghost predicate Splitting(fed: seq<Bucket>, b: Bucket, nb: nat, per: real, bin: nat, need: real, rem: real, accr: real, ret: seq<real>) {
    && Positive(fed) && b.cnt > 0 && per > 0.0 && bin < nb == |ret|
    && 0.0 <= rem <= b.cnt as real
    && Edge(bin, per) <= Mass(fed + [b]) - rem
    && accr == Total(fed) + (b.cnt as real - rem) * (b.sum / b.cnt as real) - Curve(fed + [b], Edge(bin, per))
    && (bin < nb - 1 ==> 0.0 < need <= per && Mass(fed + [b]) - rem == Edge(bin + 1, per) - need)
    && forall j :: 0 <= j < bin ==> ret[j] * per == Share(fed + [b], per, j)
  }

  lemma StartSweep(nb: nat, per: real, ret: seq<real>)
    requires 0 < nb == |ret| && per > 0.0
    ensures Swept([], nb, per, 0, per, 0.0, ret)
  {
    assert 0.0 * per == 0.0 && 1.0 * per == per;
  }

  lemma StartSplit(fed: seq<Bucket>, b: Bucket, nb: nat, per: real, bin: nat, need: real, accr: real, ret: seq<real>)
    requires Swept(fed, nb, per, bin, need, accr, ret) && b.cnt > 0
    ensures Splitting(fed, b, nb, per, bin, need, b.cnt as real, accr, ret)
  {
    MassSnoc(fed, b);
    var mean := b.sum / b.cnt as real;
    assert 0.0 * mean == 0.0;
    CurveBelow(fed, b, Edge(bin, per));
    forall j | 0 <= j < bin
      ensures Share(fed + [b], per, j) == Share(fed, per, j)
    {
      ShareBelow(fed, b, per, bin, j);
    }
  }

  lemma ShareBelow(fed: seq<Bucket>, b: Bucket, per: real, bin: int, j: int)
    requires Positive(fed) && b.cnt > 0 && per > 0.0 && 0 <= j < bin
    requires Edge(bin, per) <= Mass(fed)
    ensures Positive(fed + [b]) && Share(fed + [b], per, j) == Share(fed, per, j)
  {
    hide Curve;
    Monotone(j + 1, bin, per);
    Monotone(j, bin, per);
    CurveBelow(fed, b, Edge(j + 1, per));
    CurveBelow(fed, b, Edge(j, per));
  }

  lemma Monotone(i: int, j: int, per: real)
    requires i <= j && per > 0.0
    ensures Edge(i, per) <= Edge(j, per)
  {
    var d := (j - i) as real;
    assert d * per >= 0.0;
    assert j as real * per == i as real * per + d * per;
  }

  /** Taking `take` of the bucket into the current bin. */
  lemma Take(fed: seq<Bucket>, b: Bucket, nb: nat, per: real, bin: nat, need: real, rem: real, accr: real, ret: seq<real>, take: real, gain: real)
    requires Splitting(fed, b, nb, per, bin, need, rem, accr, ret) && bin < nb - 1
    requires 0.0 <= take <= rem && take < need && gain == take * (b.sum / b.cnt as real)
    ensures Splitting(fed, b, nb, per, bin, need - take, rem - take, accr + gain, ret)
  {
    var mean, c := b.sum / b.cnt as real, b.cnt as real;
    assert (c - (rem - take)) * mean == (c - rem) * mean + take * mean;
  }

  /** Filling the current bin to the brim and opening the next. */
  lemma Close(fed: seq<Bucket>, b: Bucket, nb: nat, per: real, bin: nat, need: real, rem: real, accr: real, ret: seq<real>, gain: real)
    requires Splitting(fed, b, nb, per, bin, need, rem, accr, ret) && bin < nb - 1 && need <= rem
    requires gain == need * (b.sum / b.cnt as real)
    ensures Splitting(fed, b, nb, per, bin + 1, per, rem - need, 0.0, ret[bin := (accr + gain) / per])
  {
    hide Curve, Total, Mass;
    var mean, c := b.sum / b.cnt as real, b.cnt as real;
    MassSnoc(fed, b);
    var t := c - (rem - need);
    NextEdge(bin, per);
    assert t * mean == (c - rem) * mean + need * mean;
    CurveInside(fed, b, t);
    assert Curve(fed + [b], Edge(bin + 1, per)) == Total(fed) + t * mean;
    var x := (accr + need * mean) / per;
    assert x * per == accr + need * mean;
    assert x * per == Share(fed + [b], per, bin);
  }

  lemma NextEdge(bin: int, per: real)
    ensures Edge(bin + 2, per) == Edge(bin + 1, per) + per
    ensures Edge(bin + 1, per) == Edge(bin, per) + per
  {
  }

  /** Once a bucket is used up, the sweep stands between buckets again. */
  lemma EndSplit(fed: seq<Bucket>, b: Bucket, nb: nat, per: real, bin: nat, need: real, accr: real, ret: seq<real>)
    requires Splitting(fed, b, nb, per, bin, need, 0.0, accr, ret)
    ensures Swept(fed + [b], nb, per, bin, need, accr, ret)
  {
    MassSnoc(fed, b);
    var c := b.cnt as real;
    assert (c - 0.0) * (b.sum / c) == b.sum;
    assert forall k :: 0 <= k < |fed + [b]| ==> (fed + [b])[k].cnt > 0;
  }

  /** The last bin takes whatever is left. */
  lemma Absorb(fed: seq<Bucket>, b: Bucket, nb: nat, per: real, need: real, rem: real, accr: real, ret: seq<real>, gain: real)
    requires 0 < nb && Splitting(fed, b, nb, per, nb - 1, need, rem, accr, ret)
    requires gain == rem * (b.sum / b.cnt as real)
    ensures Swept(fed + [b], nb, per, nb - 1, need, accr + gain, ret)
  {
    var mean, c := b.sum / b.cnt as real, b.cnt as real;
    assert (c - rem) * mean + rem * mean == c * mean;
    assert c * mean == b.sum;
    MassSnoc(fed, b);
  }
}
