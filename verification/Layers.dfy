/**
 * One day's layering: scores into a histogram with a touch bitmap, the bitmap
 * swept in ascending order, the buckets fed to the binning. The bit words are sets
 * of bit positions.
 */
module Layers {
  import opened Common
  import opened Binning

  class Binner {
    const nb: nat
    const per: real
    var bin: nat
    var need: real
    var accr: real
    const ret: array<real>
    ghost var fed: seq<Bucket>

    ghost predicate Valid()
      reads this, ret
    {
      ret.Length == nb && Swept(fed, nb, per, bin, need, accr, ret[..])
    }

    constructor (nb: nat, cnt: nat, ret: array<real>)
      requires 0 < nb == ret.Length && cnt > 0
      ensures Valid() && this.nb == nb && this.ret == ret && fed == []
      ensures per == cnt as real / nb as real
    {
      this.nb, this.ret := nb, ret;
      per := cnt as real / nb as real;
      bin, need, accr, fed := 0, cnt as real / nb as real, 0.0, [];
      new;
      StartSweep(nb, per, ret[..]);
    }

    /** Closes the current bin. */
    method CloseBin()
      requires bin < ret.Length && per != 0.0
      modifies this`bin, this`need, this`accr, ret
      ensures bin == old(bin) + 1 && need == per && accr == 0.0
      ensures ret[..] == old(ret[..])[old(bin) := old(accr) / per]
    {
      ret[bin] := accr / per;
      bin := bin + 1;
      need := per;
      accr := 0.0;
    }

    /** One bucket in ascending order. */
    method Feed(b: Bucket)
      requires Valid() && b.cnt > 0
      modifies this`bin, this`need, this`accr, this`fed, ret
      ensures Valid() && fed == old(fed) + [b]
    {
      hide Swept, Splitting;
      var cd := b.cnt as real;
      var mean := b.sum / cd;
      assert cd * mean == b.sum;
      SweptFacts(fed, nb, per, bin, need, accr, ret[..]);
      StartSplit(fed, b, nb, per, bin, need, accr, ret[..]);
      if bin == nb - 1 {
        assert Splitting(fed, b, nb, per, nb - 1, need, cd, accr, ret[..]);
        Absorb(fed, b, nb, per, need, cd, accr, ret[..], b.sum);
        accr := accr + b.sum;
      } else if cd <= need {
        if need <= cd {
          Close(fed, b, nb, per, bin, need, cd, accr, ret[..], b.sum);
          accr := accr + b.sum;
          CloseBin();
        } else {
          Take(fed, b, nb, per, bin, need, cd, accr, ret[..], cd, b.sum);
          accr := accr + b.sum;
          need := need - cd;
        }
        EndSplit(fed, b, nb, per, bin, need, accr, ret[..]);
      } else {
        SplitBucket(b, mean);
      }
      fed := fed + [b];
    }

    /** The split of a bucket that crosses a boundary. */
    method SplitBucket(b: Bucket, mean: real)
      requires ret.Length == nb && b.cnt > 0 && mean == b.sum / b.cnt as real
      requires Splitting(fed, b, nb, per, bin, need, b.cnt as real, accr, ret[..])
      modifies this`bin, this`need, this`accr, ret
      ensures Swept(fed + [b], nb, per, bin, need, accr, ret[..])
    {
      hide Swept, Splitting;
      var rem := b.cnt as real;
      while rem > 0.0
        invariant 0.0 <= rem
        invariant Splitting(fed, b, nb, per, bin, need, rem, accr, ret[..])
        decreases nb - bin, if rem > 0.0 then 1 else 0
      {
        SplittingFacts(fed, b, nb, per, bin, need, rem, accr, ret[..]);
        if bin == nb - 1 {
          var tail := rem * mean;
          assert Splitting(fed, b, nb, per, nb - 1, need, rem, accr, ret[..]);
          Absorb(fed, b, nb, per, need, rem, accr, ret[..], tail);
          accr := accr + tail;
          assert Swept(fed + [b], nb, per, nb - 1, need, accr, ret[..]);
          return;
        }
        var take := MinReal(rem, need);
        var gain := take * mean;
        if need <= rem {
          Close(fed, b, nb, per, bin, need, rem, accr, ret[..], gain);
        } else {
          Take(fed, b, nb, per, bin, need, rem, accr, ret[..], take, gain);
        }
        accr := accr + gain;
        rem := rem - take;
        need := need - take;
        if need <= 0.0 {
          CloseBin();
        }
      }
      EndSplit(fed, b, nb, per, bin, need, accr, ret[..]);
    }

    /** All mass fed: the sweep ends in the last bin, and every bin holds its share. */
    method Finish()
      requires Valid() && Mass(fed) == Edge(nb, per)
      modifies ret
      ensures Positive(fed) && forall j :: 0 <= j < nb ==> ret[j] * per == Share(fed, per, j)
    {
      hide Swept, Share;
      SweptFacts(fed, nb, per, bin, need, accr, ret[..]);
      LastBin(fed, nb, per, bin, need, accr, ret[..]);
      assert bin == nb - 1;
      Filled(fed, nb, per, need, accr, ret[..]);
      ret[bin] := accr / per;
      assert ret[..] == old(ret[..])[nb - 1 := accr / per];
    }
  }

  /** The last bin, given what is left, holds its share. */
  lemma Filled(fed: seq<Bucket>, nb: nat, per: real, need: real, accr: real, ret: seq<real>)
    requires 0 < nb && Swept(fed, nb, per, nb - 1, need, accr, ret) && Mass(fed) == Edge(nb, per)
    ensures Positive(fed)
    ensures var r := ret[nb - 1 := accr / per]; forall j :: 0 <= j < nb ==> r[j] * per == Share(fed, per, j)
  {
    hide Curve, Share, Edge, Mass, Total;
    var r := ret[nb - 1 := accr / per];
    CurveAtEnd(fed);
    DivBack(accr, per);
    ShareIs(fed, per, nb - 1, Edge(nb - 1, per), Edge(nb, per));
  }

  lemma SweptFacts(fed: seq<Bucket>, nb: nat, per: real, bin: nat, need: real, accr: real, ret: seq<real>)
    requires Swept(fed, nb, per, bin, need, accr, ret)
    ensures Positive(fed) && per > 0.0 && bin < nb == |ret|
  {
  }

  lemma SplittingFacts(fed: seq<Bucket>, b: Bucket, nb: nat, per: real, bin: nat, need: real, rem: real, accr: real, ret: seq<real>)
    requires Splitting(fed, b, nb, per, bin, need, rem, accr, ret)
    ensures Positive(fed) && per > 0.0 && bin < nb == |ret| && (bin < nb - 1 ==> need > 0.0)
  {
  }

  lemma LastBin(fed: seq<Bucket>, nb: nat, per: real, bin: nat, need: real, accr: real, ret: seq<real>)
    requires Swept(fed, nb, per, bin, need, accr, ret) && Mass(fed) == Edge(nb, per)
    ensures bin == nb - 1
  {
    if bin < nb - 1 {
      Monotone(bin + 1, nb, per);
    }
  }

  // ---- the bins against the whole ----

  lemma ShareIs(bs: seq<Bucket>, per: real, j: int, lo: real, hi: real)
    requires Positive(bs) && lo == Edge(j, per) && hi == Edge(j + 1, per)
    ensures Share(bs, per, j) == Curve(bs, hi) - Curve(bs, lo)
  {
  }

  function BinSum(ret: seq<real>, per: real, j: nat): real
    requires j <= |ret|
  {
    if j == 0 then 0.0 else BinSum(ret, per, j - 1) + ret[j - 1] * per
  }

  lemma {:induction false} BinSumCurve(bs: seq<Bucket>, ret: seq<real>, per: real, j: nat)
    requires Positive(bs) && j <= |ret| && forall i :: 0 <= i < |ret| ==> ret[i] * per == Share(bs, per, i)
    ensures BinSum(ret, per, j) == Curve(bs, Edge(j, per)) - Curve(bs, 0.0)
  {
    hide Curve, Share, Edge;
    if j > 0 {
      BinSumCurve(bs, ret, per, j - 1);
      assert ret[j - 1] * per == Share(bs, per, j - 1);
      BinSumNext(bs, ret, per, j, Edge(j - 1, per), Edge(j, per));
    } else {
      FirstEdge(per);
    }
  }

  lemma FirstEdge(per: real)
    ensures Edge(0, per) == 0.0
  {
  }

  lemma BinSumNext(bs: seq<Bucket>, ret: seq<real>, per: real, j: nat, lo: real, hi: real)
    requires Positive(bs) && 0 < j <= |ret| && ret[j - 1] * per == Share(bs, per, j - 1)
    requires lo == Edge(j - 1, per) && hi == Edge(j, per)
    requires BinSum(ret, per, j - 1) == Curve(bs, lo) - Curve(bs, 0.0)
    ensures BinSum(ret, per, j) == Curve(bs, hi) - Curve(bs, 0.0)
  {
    hide Curve;
    ShareIs(bs, per, j - 1, lo, hi);
  }

  lemma {:induction false} CurveAtZero(bs: seq<Bucket>)
    requires Positive(bs)
    ensures Curve(bs, 0.0) == 0.0
  {
    if bs != [] {
      CurveAtZero(bs[..|bs| - 1]);
      MassNonNegative(bs[..|bs| - 1]);
    }
  }

  // ---- the histogram ----

  /** The nonempty buckets below `top`, ascending: what a full sweep would see. */
  function Nonempty(hs: seq<nat>, fr: seq<real>, top: nat): seq<Bucket>
    requires |hs| == |fr|
  {
    if top == 0 then []
    else
      var c := CountIn(hs, top - 1);
      Nonempty(hs, fr, top - 1) + if c > 0 then [Bucket(c, SumIn(fr, hs, top - 1))] else []
  }

  lemma {:induction false} NonemptySkip(hs: seq<nat>, fr: seq<real>, lo: nat, hi: nat)
    requires |hs| == |fr| && lo <= hi
    requires forall h :: lo <= h < hi ==> CountIn(hs, h) == 0
    ensures Nonempty(hs, fr, hi) == Nonempty(hs, fr, lo)
  {
    if lo < hi {
      NonemptySkip(hs, fr, lo, hi - 1);
    }
  }

  function CountUnder(hs: seq<nat>, top: nat): nat {
    if hs == [] then 0 else CountUnder(hs[..|hs| - 1], top) + if hs[|hs| - 1] < top then 1 else 0
  }

  function SumUnder(hs: seq<nat>, fr: seq<real>, top: nat): real
    requires |hs| == |fr|
  {
    if hs == [] then 0.0
    else SumUnder(hs[..|hs| - 1], fr[..|fr| - 1], top) + if hs[|hs| - 1] < top then fr[|fr| - 1] else 0.0
  }

  lemma {:induction false} UnderNext(hs: seq<nat>, fr: seq<real>, top: nat)
    requires |hs| == |fr|
    ensures CountUnder(hs, top + 1) == CountUnder(hs, top) + CountIn(hs, top)
    ensures SumUnder(hs, fr, top + 1) == SumUnder(hs, fr, top) + SumIn(fr, hs, top)
  {
    if hs != [] { UnderNext(hs[..|hs| - 1], fr[..|fr| - 1], top); }
  }

  lemma {:induction false} UnderZero(hs: seq<nat>, fr: seq<real>)
    requires |hs| == |fr|
    ensures CountUnder(hs, 0) == 0 && SumUnder(hs, fr, 0) == 0.0
  {
    if hs != [] { UnderZero(hs[..|hs| - 1], fr[..|fr| - 1]); }
  }

  lemma {:induction false} NoneIn(hs: seq<nat>, fr: seq<real>, h: nat)
    requires |hs| == |fr| && CountIn(hs, h) == 0
    ensures SumIn(fr, hs, h) == 0.0
  {
    if hs != [] { NoneIn(hs[..|hs| - 1], fr[..|fr| - 1], h); }
  }

  lemma NonemptyNext(hs: seq<nat>, fr: seq<real>, h: nat)
    requires |hs| == |fr|
    ensures Nonempty(hs, fr, h + 1) ==
      if CountIn(hs, h) > 0 then Nonempty(hs, fr, h) + [Bucket(CountIn(hs, h), SumIn(fr, hs, h))] else Nonempty(hs, fr, h)
  {
    assert Nonempty(hs, fr, h) + [] == Nonempty(hs, fr, h);
  }

  lemma PositiveSnoc(bs: seq<Bucket>, b: Bucket)
    requires Positive(bs) && b.cnt > 0
    ensures Positive(bs + [b])
  {
  }

  lemma {:induction false} NonemptyMass(hs: seq<nat>, fr: seq<real>, top: nat)
    requires |hs| == |fr|
    ensures Positive(Nonempty(hs, fr, top))
    ensures Mass(Nonempty(hs, fr, top)) == CountUnder(hs, top) as real
    ensures Total(Nonempty(hs, fr, top)) == SumUnder(hs, fr, top)
  {
    if top == 0 {
      UnderZero(hs, fr);
    } else {
      var h := top - 1;
      NonemptyMass(hs, fr, h);
      UnderNext(hs, fr, h);
      NonemptyNext(hs, fr, h);
      hide CountUnder, SumUnder, CountIn, SumIn, Mass, Total, Nonempty, Positive;
      if CountIn(hs, h) > 0 {
        MassSnoc(Nonempty(hs, fr, h), Bucket(CountIn(hs, h), SumIn(fr, hs, h)));
        PositiveSnoc(Nonempty(hs, fr, h), Bucket(CountIn(hs, h), SumIn(fr, hs, h)));
      } else {
        NoneIn(hs, fr, h);
      }
    }
  }

  function SumAll(fr: seq<real>): real {
    if fr == [] then 0.0 else SumAll(fr[..|fr| - 1]) + fr[|fr| - 1]
  }

  lemma {:induction false} UnderAll(hs: seq<nat>, fr: seq<real>, top: nat)
    requires |hs| == |fr| && forall j :: 0 <= j < |hs| ==> hs[j] < top
    ensures CountUnder(hs, top) == |hs| && SumUnder(hs, fr, top) == SumAll(fr)
  {
    if hs != [] { UnderAll(hs[..|hs| - 1], fr[..|fr| - 1], top); }
  }

  // ---- bucket numbers ----

  /** x in units of a bucket, when the whole range is d. */
  function Scaled(x: real, d: real): (r: real)
    requires x >= 0.0 && d > 0.0
    ensures r >= 0.0
  {
    DivSign(N_BUCKETS as real, d);
    x * (N_BUCKETS as real / d)
  }

  function BucketOf(x: real, mn: real, mx: real): (h: nat)
    requires mn <= x <= mx
    ensures h < N_BUCKETS
  {
    if mx > mn then
      MinInt(Scaled(x - mn, mx - mn).Floor, N_BUCKETS - 1)
    else 0
  }

  lemma ScaledOrder(x: real, y: real, d: real)
    requires 0.0 <= x <= y && d > 0.0
    ensures Scaled(x, d) <= Scaled(y, d)
  {
    var q := N_BUCKETS as real / d;
    DivSign(N_BUCKETS as real, d);
    assert (y - x) * q >= 0.0;
    assert y * q == x * q + (y - x) * q;
  }

  /** Bucket numbers follow the order of the scores. */
  lemma BucketMonotone(x: real, y: real, mn: real, mx: real)
    requires mn <= x <= y <= mx
    ensures BucketOf(x, mn, mx) <= BucketOf(y, mn, mx)
  {
    if mx > mn {
      ScaledOrder(x - mn, y - mn, mx - mn);
      hide Scaled;
    }
  }

  /** A positive affine map of all the scores changes no bucket number. */
  lemma BucketAffine(x: real, mn: real, mx: real, a: real, b: real)
    requires mn <= x <= mx && a > 0.0
    ensures a * mn + b <= a * x + b <= a * mx + b
    ensures BucketOf(a * x + b, a * mn + b, a * mx + b) == BucketOf(x, mn, mx)
  {
    var d, e := x - mn, mx - mn;
    assert a * d >= 0.0 && a * (mx - x) >= 0.0;
    assert a * x - a * mn == a * d && a * mx - a * mn == a * e && a * mx - a * x == a * (mx - x);
    if mx > mn {
      assert a * e > 0.0;
      ScaledSame(d, e, a, a * x + b - (a * mn + b), a * mx + b - (a * mn + b));
      hide Scaled;
    }
  }

  lemma ScaledSame(d: real, e: real, a: real, d': real, e': real)
    requires a > 0.0 && d >= 0.0 && e > 0.0 && d' == a * d && e' == a * e
    ensures d' >= 0.0 && e' > 0.0 && Scaled(d', e') == Scaled(d, e)
  {
    AffineRatio(d, e, a, N_BUCKETS as real);
  }

  lemma AffineRatio(d: real, e: real, a: real, n: real)
    requires a > 0.0 && e > 0.0
    ensures a * e > 0.0 && (a * d) * (n / (a * e)) == d * (n / e)
  {
    var q := n / e;
    DivBack(n, e);
    var p := n / (a * e);
    assert a * e > 0.0;
    DivBack(n, a * e);
    assert (p * a) * e == n;
    DivIs(n, e, p * a);
    assert (a * d) * p == d * (p * a);
  }

  // ---- scatter and bitmap sweep ----

  /** One histogram cell. */
  datatype Cell = Cell(cnt: nat, sum: real)

  const CLEAR := Cell(0, 0.0)

  /** The table after the members of hs were scattered; the bitmap marks the touched cells. */
  ghost predicate Scattered(hs: seq<nat>, fr: seq<real>, hist: seq<Cell>, mask: seq<set<nat>>)
    requires |hs| == |fr|
  {
    && |hist| == N_BUCKETS && |mask| == N_BUCKETS / WORD
    && (forall h :: 0 <= h < N_BUCKETS ==> hist[h] == Cell(CountIn(hs, h), SumIn(fr, hs, h)))
    && (forall w, b :: 0 <= w < N_BUCKETS / WORD && b in mask[w] ==> b < WORD)
    && (forall w, b :: 0 <= w < N_BUCKETS / WORD && 0 <= b < WORD ==>
          (b in mask[w] <==> CountIn(hs, w * WORD + b) > 0))
  }

  ghost predicate AllClear(hist: seq<Cell>, mask: seq<set<nat>>) {
    && |hist| == N_BUCKETS && |mask| == N_BUCKETS / WORD
    && (forall h :: 0 <= h < N_BUCKETS ==> hist[h] == CLEAR)
    && (forall w :: 0 <= w < N_BUCKETS / WORD ==> mask[w] == {})
  }

  lemma ScatterNext(hs: seq<nat>, fr: seq<real>, j: nat, h: nat)
    requires |hs| == |fr| && j < |hs|
    ensures CountIn(hs[..j + 1], h) == CountIn(hs[..j], h) + if hs[j] == h then 1 else 0
    ensures SumIn(fr[..j + 1], hs[..j + 1], h) == SumIn(fr[..j], hs[..j], h) + if hs[j] == h then fr[j] else 0.0
  {
    assert hs[..j + 1][..j] == hs[..j] && fr[..j + 1][..j] == fr[..j];
  }

  lemma ScatterStep(hs: seq<nat>, fr: seq<real>, j: nat, hist: seq<Cell>, mask: seq<set<nat>>)
    requires |hs| == |fr| && j < |hs| && hs[j] < N_BUCKETS && Scattered(hs[..j], fr[..j], hist, mask)
    ensures var h, w := hs[j], hs[j] / WORD;
      Scattered(hs[..j + 1], fr[..j + 1], hist[h := Cell(hist[h].cnt + 1, hist[h].sum + fr[j])],
                mask[w := mask[w] + {h % WORD}])
  {
    forall h ensures
      && CountIn(hs[..j + 1], h) == CountIn(hs[..j], h) + (if hs[j] == h then 1 else 0)
      && SumIn(fr[..j + 1], hs[..j + 1], h) == SumIn(fr[..j], hs[..j], h) + (if hs[j] == h then fr[j] else 0.0)
    {
      ScatterNext(hs, fr, j, h);
    }
    hide CountIn, SumIn;
    var h0, w0 := hs[j], hs[j] / WORD;
    var mask1 := mask[w0 := mask[w0] + {h0 % WORD}];
    forall w, b | 0 <= w < N_BUCKETS / WORD && 0 <= b < WORD
      ensures b in mask1[w] <==> CountIn(hs[..j + 1], w * WORD + b) > 0
    {
      assert w * WORD + b == h0 <==> w == w0 && b == h0 % WORD;
    }
  }

  method Scatter(hs: seq<nat>, fr: seq<real>, hist: array<Cell>, mask: array<set<nat>>)
    requires |hs| == |fr| && forall j :: 0 <= j < |hs| ==> hs[j] < N_BUCKETS
    requires AllClear(hist[..], mask[..])
    modifies hist, mask
    ensures Scattered(hs, fr, hist[..], mask[..])
  {
    var j := 0;
    while j < |hs|
      invariant 0 <= j <= |hs|
      invariant Scattered(hs[..j], fr[..j], hist[..], mask[..])
    {
      var h := hs[j];
      ScatterStep(hs, fr, j, hist[..], mask[..]);
      ghost var h1 := hist[..][h := Cell(hist[h].cnt + 1, hist[h].sum + fr[j])];
      ghost var m1 := mask[..][h / WORD := mask[h / WORD] + {h % WORD}];
      hist[h] := Cell(hist[h].cnt + 1, hist[h].sum + fr[j]);
      mask[h / WORD] := mask[h / WORD] + {h % WORD};
      assert hist[..] == h1 && mask[..] == m1;
      j := j + 1;
    }
    assert hs[..j] == hs && fr[..j] == fr;
  }

  /** The lowest bit of a word, from `lo` upwards. */
  method LowestBit(word: set<nat>, lo: nat) returns (b: nat)
    requires word != {} && forall x :: x in word ==> lo <= x < WORD
    ensures b in word && forall x :: x in word ==> b <= x
  {
    ghost var any :| any in word;
    b := lo;
    while b !in word
      invariant lo <= b && forall x :: x in word ==> b <= x
      decreases WORD - b
    {
      b := b + 1;
    }
  }

  /** What the sweep has left when everything below `top` was visited and cleared. */
  ghost predicate Sweeping(hs: seq<nat>, fr: seq<real>, hist: seq<Cell>, top: nat)
    requires |hs| == |fr|
  {
    && |hist| == N_BUCKETS
    && (forall h :: 0 <= h < top && h < N_BUCKETS ==> hist[h] == CLEAR)
    && (forall h :: top <= h < N_BUCKETS ==> hist[h] == Cell(CountIn(hs, h), SumIn(fr, hs, h)))
  }

  lemma SweepSkip(hs: seq<nat>, fr: seq<real>, hist: seq<Cell>, lo: nat, hi: nat)
    requires |hs| == |fr| && lo <= hi <= N_BUCKETS && Sweeping(hs, fr, hist, lo)
    requires forall h :: lo <= h < hi ==> CountIn(hs, h) == 0
    ensures Sweeping(hs, fr, hist, hi) && Nonempty(hs, fr, hi) == Nonempty(hs, fr, lo)
  {
    NonemptySkip(hs, fr, lo, hi);
    forall h | lo <= h < hi
      ensures hist[h] == CLEAR
    {
      NoneIn(hs, fr, h);
    }
  }

  /** One touched cell, with none touched between lo and it: cleared and fed. */
  method SweepCell(ghost hs: seq<nat>, ghost fr: seq<real>, hist: array<Cell>, ghost lo: nat, h: nat, bn: Binner)
    requires |hs| == |fr| && lo <= h < N_BUCKETS && bn.Valid() && CountIn(hs, h) > 0
    requires Sweeping(hs, fr, hist[..], lo) && bn.fed == Nonempty(hs, fr, lo)
    requires forall x :: lo <= x < h ==> CountIn(hs, x) == 0
    modifies hist, bn`bin, bn`need, bn`accr, bn`fed, bn.ret
    ensures bn.Valid() && Sweeping(hs, fr, hist[..], h + 1) && bn.fed == Nonempty(hs, fr, h + 1)
  {
    hide CountIn, SumIn, Swept;
    SweepSkip(hs, fr, hist[..], lo, h);
    NonemptyNext(hs, fr, h);
    hide Nonempty;
    var cell := hist[h];
    ghost var before := hist[..];
    hist[h] := CLEAR;
    assert hist[..] == before[h := CLEAR];
    bn.Feed(Bucket(cell.cnt, cell.sum));
  }

  /** One word of the bitmap, lowest bit first. */
  method SweepWord(hs: seq<nat>, fr: seq<real>, hist: array<Cell>, w: nat, word0: set<nat>, bn: Binner)
    requires |hs| == |fr| && w < N_BUCKETS / WORD && bn.Valid()
    requires forall b :: b in word0 ==> b < WORD
    requires forall b :: 0 <= b < WORD ==> (b in word0 <==> CountIn(hs, w * WORD + b) > 0)
    requires Sweeping(hs, fr, hist[..], w * WORD) && bn.fed == Nonempty(hs, fr, w * WORD)
    modifies hist, bn`bin, bn`need, bn`accr, bn`fed, bn.ret
    ensures bn.Valid() && Sweeping(hs, fr, hist[..], (w + 1) * WORD) && bn.fed == Nonempty(hs, fr, (w + 1) * WORD)
  {
    hide CountIn, SumIn, Swept;
    var word := word0;
    var lo := 0;
    while word != {}
      invariant 0 <= lo <= WORD
      invariant forall b :: b in word <==> b in word0 && b >= lo
      invariant bn.Valid()
      invariant Sweeping(hs, fr, hist[..], w * WORD + lo) && bn.fed == Nonempty(hs, fr, w * WORD + lo)
      decreases WORD - lo
    {
      var b := LowestBit(word, lo);
      word := word - {b};
      forall x | w * WORD + lo <= x < w * WORD + b
        ensures CountIn(hs, x) == 0
      {
        assert x - w * WORD !in word0;
        assert CountIn(hs, w * WORD + (x - w * WORD)) == 0;
      }
      assert b in word0;
      SweepCell(hs, fr, hist, w * WORD + lo, w * WORD + b, bn);
      lo := b + 1;
    }
    forall x | w * WORD + lo <= x < (w + 1) * WORD
      ensures CountIn(hs, x) == 0
    {
      assert x - w * WORD !in word0;
      assert CountIn(hs, w * WORD + (x - w * WORD)) == 0;
    }
    SweepSkip(hs, fr, hist[..], w * WORD + lo, (w + 1) * WORD);
  }

  /** The bitmap before word w is clear, and from there on marks exactly the touched cells. */
  ghost predicate Marked(hs: seq<nat>, mask: seq<set<nat>>, w: nat) {
    && |mask| == N_BUCKETS / WORD
    && (forall v :: 0 <= v < w && v < |mask| ==> mask[v] == {})
    && (forall v, b :: w <= v < |mask| && b in mask[v] ==> b < WORD)
    && (forall v, b :: w <= v < |mask| && 0 <= b < WORD ==> (b in mask[v] <==> CountIn(hs, v * WORD + b) > 0))
  }

  lemma MarkedStart(hs: seq<nat>, fr: seq<real>, hist: seq<Cell>, mask: seq<set<nat>>)
    requires |hs| == |fr| && Scattered(hs, fr, hist, mask)
    ensures Marked(hs, mask, 0) && Sweeping(hs, fr, hist, 0)
  {
    hide CountIn, SumIn;
  }

  lemma MarkedWord(hs: seq<nat>, mask: seq<set<nat>>, w: nat)
    requires Marked(hs, mask, w) && w < |mask|
    ensures forall b :: b in mask[w] ==> b < WORD
    ensures forall b :: 0 <= b < WORD ==> (b in mask[w] <==> CountIn(hs, w * WORD + b) > 0)
    ensures Marked(hs, mask[w := {}], w + 1)
  {
    hide CountIn;
  }

  /** The whole sweep: every word in turn, read and cleared. */
  method SweepTable(hs: seq<nat>, fr: seq<real>, hist: array<Cell>, mask: array<set<nat>>, bn: Binner)
    requires |hs| == |fr| && Scattered(hs, fr, hist[..], mask[..]) && bn.Valid() && bn.fed == []
    modifies hist, mask, bn`bin, bn`need, bn`accr, bn`fed, bn.ret
    ensures AllClear(hist[..], mask[..]) && bn.Valid() && bn.fed == Nonempty(hs, fr, N_BUCKETS)
  {
    MarkedStart(hs, fr, hist[..], mask[..]);
    hide CountIn, SumIn, Swept, Marked, Scattered;
    var w := 0;
    while w < N_BUCKETS / WORD
      invariant 0 <= w <= N_BUCKETS / WORD == mask.Length && bn.Valid()
      invariant Sweeping(hs, fr, hist[..], w * WORD) && bn.fed == Nonempty(hs, fr, w * WORD)
      invariant Marked(hs, mask[..], w)
    {
      MarkedWord(hs, mask[..], w);
      var word := mask[w];
      ghost var cleared := mask[..][w := {}];
      if word != {} {
        mask[w] := {};
      }
      assert mask[..] == cleared;
      SweepWord(hs, fr, hist, w, word, bn);
      w := w + 1;
    }
    MarkedEnd(hs, fr, hist[..], mask[..]);
  }

  lemma MarkedEnd(hs: seq<nat>, fr: seq<real>, hist: seq<Cell>, mask: seq<set<nat>>)
    requires |hs| == |fr| && Marked(hs, mask, N_BUCKETS / WORD) && Sweeping(hs, fr, hist, N_BUCKETS)
    ensures AllClear(hist, mask)
  {
  }

  /**
   * A day's layering: every bin ends with its equal share of the cumulative return
   * curve, the bins together hold all the returns, and the table and the bitmap
   * are left clear for the next weighting.
   */
  method LayerDay(hs: seq<nat>, fr: seq<real>, hist: array<Cell>, mask: array<set<nat>>, ret: array<real>)
    requires |hs| == |fr| > 0 && forall j :: 0 <= j < |hs| ==> hs[j] < N_BUCKETS
    requires AllClear(hist[..], mask[..]) && ret.Length > 0
    modifies hist, mask, ret
    ensures AllClear(hist[..], mask[..])
    ensures var bs, per := Nonempty(hs, fr, N_BUCKETS), |hs| as real / ret.Length as real;
      && Positive(bs)
      && (forall j :: 0 <= j < ret.Length ==> ret[j] * per == Share(bs, per, j))
      && BinSum(ret[..], per, ret.Length) == SumAll(fr)
  {
    hide CountIn, SumIn, Swept, Share, BinSum, Scattered, AllClear, Nonempty;
    Scatter(hs, fr, hist, mask);
    var bn := new Binner(ret.Length, |hs|, ret);
    SweepTable(hs, fr, hist, mask, bn);
    MassFed(hs, fr, N_BUCKETS, bn.nb, bn.per);
    bn.Finish();
    BinsHoldAll(hs, fr, N_BUCKETS, ret[..], bn.per);
  }

  lemma MassFed(hs: seq<nat>, fr: seq<real>, top: nat, nb: nat, per: real)
    requires |hs| == |fr| && nb > 0 && per == |hs| as real / nb as real
    requires forall j :: 0 <= j < |hs| ==> hs[j] < top
    ensures Mass(Nonempty(hs, fr, top)) == nb as real * per
  {
    hide *;
    NonemptyMass(hs, fr, top);
    UnderAll(hs, fr, top);
    DivBack(|hs| as real, nb as real);
  }

  lemma EdgeIs(j: nat, per: real, m: real)
    requires m == j as real * per
    ensures Edge(j, per) == m
  {
  }

  lemma BinsHoldAll(hs: seq<nat>, fr: seq<real>, top: nat, ret: seq<real>, per: real)
    requires |hs| == |fr| && |ret| > 0 && per == |hs| as real / |ret| as real
    requires forall j :: 0 <= j < |hs| ==> hs[j] < top
    requires Positive(Nonempty(hs, fr, top))
    requires forall j :: 0 <= j < |ret| ==> ret[j] * per == Share(Nonempty(hs, fr, top), per, j)
    ensures BinSum(ret, per, |ret|) == SumAll(fr)
  {
    hide *;
    var bs := Nonempty(hs, fr, top);
    MassFed(hs, fr, top, |ret|, per);
    BinSumCurve(bs, ret, per, |ret|);
    CurveAtZero(bs);
    CurveAtEnd(bs);
    NonemptyMass(hs, fr, top);
    UnderAll(hs, fr, top);
    EdgeIs(|ret|, per, Mass(bs));
    assert BinSum(ret, per, |ret|) == Curve(bs, Mass(bs)) - Curve(bs, 0.0);
    assert Curve(bs, Mass(bs)) == Total(bs);
    assert Total(bs) == SumUnder(hs, fr, top);
  }

  // ---- scores to buckets ----

  function MinOf(s: seq<real>): (r: real)
    requires s != []
    ensures forall j :: 0 <= j < |s| ==> r <= s[j]
    ensures r in s
  {
    if |s| == 1 then s[0]
    else
      var m := MinOf(s[..|s| - 1]);
      MinReal(m, s[|s| - 1])
  }

  function MaxOf(s: seq<real>): (r: real)
    requires s != []
    ensures forall j :: 0 <= j < |s| ==> s[j] <= r
    ensures r in s
  {
    if |s| == 1 then s[0]
    else
      var m := MaxOf(s[..|s| - 1]);
      MaxReal(m, s[|s| - 1])
  }

  function BucketRow(acc: seq<real>): (r: seq<nat>)
    requires acc != []
  {
    seq(|acc|, j requires 0 <= j < |acc| => BucketOf(acc[j], MinOf(acc), MaxOf(acc)))
  }

  function AffineAt(x: real, a: real, b: real): real {
    a * x + b
  }

  function Affine(acc: seq<real>, a: real, b: real): (r: seq<real>) {
    seq(|acc|, j requires 0 <= j < |acc| => AffineAt(acc[j], a, b))
  }

  lemma AffineOrder(x: real, y: real, a: real, b: real)
    requires x <= y && a > 0.0
    ensures AffineAt(x, a, b) <= AffineAt(y, a, b)
  {
    assert a * (y - x) >= 0.0;
    assert a * (y - x) == a * y - a * x;
  }

  lemma AffineMin(acc: seq<real>, a: real, b: real)
    requires acc != [] && a > 0.0
    ensures MinOf(Affine(acc, a, b)) == AffineAt(MinOf(acc), a, b)
  {
    hide MinOf, AffineAt;
    var s := Affine(acc, a, b);
    var i :| 0 <= i < |acc| && acc[i] == MinOf(acc);
    var j :| 0 <= j < |s| && s[j] == MinOf(s);
    AffineOrder(MinOf(acc), acc[j], a, b);
    assert MinOf(s) <= s[i];
  }

  lemma AffineMax(acc: seq<real>, a: real, b: real)
    requires acc != [] && a > 0.0
    ensures MaxOf(Affine(acc, a, b)) == AffineAt(MaxOf(acc), a, b)
  {
    hide MaxOf, AffineAt;
    var s := Affine(acc, a, b);
    var i :| 0 <= i < |acc| && acc[i] == MaxOf(acc);
    var j :| 0 <= j < |s| && s[j] == MaxOf(s);
    AffineOrder(acc[j], MaxOf(acc), a, b);
    assert s[i] <= MaxOf(s);
  }

  /** Scores that differ by a positive affine map fall into the same buckets. */
  lemma BucketRowAffine(acc: seq<real>, a: real, b: real)
    requires acc != [] && a > 0.0
    ensures BucketRow(Affine(acc, a, b)) == BucketRow(acc)
  {
    hide BucketOf, MinOf, MaxOf, AffineAt;
    AffineMin(acc, a, b);
    AffineMax(acc, a, b);
    forall j | 0 <= j < |acc|
      ensures BucketRow(Affine(acc, a, b))[j] == BucketRow(acc)[j]
    {
      SameBucket(acc[j], MinOf(acc), MaxOf(acc), a, b);
    }
  }

  lemma SameBucket(x: real, mn: real, mx: real, a: real, b: real)
    requires mn <= x <= mx && a > 0.0
    ensures AffineAt(mn, a, b) <= AffineAt(x, a, b) <= AffineAt(mx, a, b)
    ensures BucketOf(AffineAt(x, a, b), AffineAt(mn, a, b), AffineAt(mx, a, b)) == BucketOf(x, mn, mx)
  {
    AffineAts(x, a, b);
    AffineAts(mn, a, b);
    AffineAts(mx, a, b);
    hide BucketOf, AffineAt;
    BucketAffine(x, mn, mx, a, b);
  }

  lemma AffineAts(x: real, a: real, b: real)
    ensures AffineAt(x, a, b) == a * x + b
  {
  }

  method BucketNumbers(acc: array<real>) returns (hs: seq<nat>)
    requires acc.Length > 0
    ensures hs == BucketRow(acc[..])
  {
    var mn, mx := acc[0], acc[0];
    var j := 1;
    while j < acc.Length
      invariant 1 <= j <= acc.Length
      invariant mn == MinOf(acc[..j]) && mx == MaxOf(acc[..j])
    {
      assert acc[..j + 1][..j] == acc[..j];
      mn := MinReal(mn, acc[j]);
      mx := MaxReal(mx, acc[j]);
      j := j + 1;
    }
    assert acc[..j] == acc[..];
    hs := [];
    j := 0;
    while j < acc.Length
      invariant 0 <= j <= acc.Length == |BucketRow(acc[..])|
      invariant hs == BucketRow(acc[..])[..j]
    {
      hs := hs + [BucketOf(acc[j], mn, mx)];
      j := j + 1;
    }
  }

  // ---- one weighting, one day ----

  /** Every bin's share over its mass. */
  function ShareMeans(bs: seq<Bucket>, per: real, nb: nat): (ret: seq<real>)
    requires Positive(bs) && per > 0.0
  {
    seq(nb, j requires 0 <= j < nb => Share(bs, per, j) / per)
  }

  /** The equal-mass means of the returns fr under the scores acc, without any table or bitmap. */
  ghost function Layered(acc: seq<real>, fr: seq<real>, nb: nat, top: nat): (ret: seq<real>)
    requires |acc| == |fr| > 0 && nb > 0
  {
    var hs := BucketRow(acc);
    NonemptyMass(hs, fr, top);
    DivSign(|acc| as real, nb as real);
    ShareMeans(Nonempty(hs, fr, top), |acc| as real / nb as real, nb)
  }

  lemma LayeredAt(acc: seq<real>, fr: seq<real>, nb: nat, top: nat, per: real, ret: seq<real>)
    requires |acc| == |fr| > 0 && |ret| == nb > 0 && per == |acc| as real / nb as real
    requires Positive(Nonempty(BucketRow(acc), fr, top))
    requires forall j :: 0 <= j < nb ==> ret[j] * per == Share(Nonempty(BucketRow(acc), fr, top), per, j)
    ensures ret == Layered(acc, fr, nb, top)
  {
    hide BucketOf, MinOf, MaxOf, Nonempty, Share, Positive;
    assert per > 0.0;
    forall j | 0 <= j < nb
      ensures ret[j] == Layered(acc, fr, nb, top)[j]
    {
      DivIs(Share(Nonempty(BucketRow(acc), fr, top), per, j), per, ret[j]);
    }
  }

  /** The binning of one weighting on one day, from its scores. */
  method LayerScores(acc: array<real>, fr: seq<real>, hist: array<Cell>, mask: array<set<nat>>, ret: array<real>)
    requires acc.Length == |fr| > 0 && acc != ret
    requires AllClear(hist[..], mask[..]) && ret.Length > 0
    modifies hist, mask, ret
    ensures AllClear(hist[..], mask[..])
    ensures ret[..] == Layered(acc[..], fr, ret.Length, N_BUCKETS)
    ensures BinSum(ret[..], |fr| as real / ret.Length as real, ret.Length) == SumAll(fr)
  {
    hide *;
    ghost var scores := acc[..];
    var hs := BucketNumbers(acc);
    RowBounds(scores);
    LayerDay(hs, fr, hist, mask, ret);
    LayeredAt(scores, fr, ret.Length, N_BUCKETS, |fr| as real / ret.Length as real, ret[..]);
  }

  lemma RowBounds(acc: seq<real>)
    requires acc != []
    ensures |BucketRow(acc)| == |acc| && forall j :: 0 <= j < |acc| ==> BucketRow(acc)[j] < N_BUCKETS
  {
  }

  /** No positive affine map of the scores changes any bin, so the scores need no division. */
  lemma LayeredAffine(acc: seq<real>, fr: seq<real>, nb: nat, top: nat, a: real, b: real)
    requires |acc| == |fr| > 0 && nb > 0 && a > 0.0
    ensures Layered(Affine(acc, a, b), fr, nb, top) == Layered(acc, fr, nb, top)
  {
    hide BucketRow, Nonempty, Share, Positive, AffineAt;
    BucketRowAffine(acc, a, b);
  }
}
