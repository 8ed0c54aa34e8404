/** The neutralised column is the residual of the full least-squares fit. */
module NeutralLaws {
  import opened Common
  import opened Neutral

  // ---- sums ----

  function PerGroup(id: seq<nat>, c: nat -> real): (r: seq<real>) {
    seq(|id|, a requires 0 <= a < |id| => c(id[a]))
  }

  lemma {:induction false} DemeanedSum(xs: seq<real>, id: seq<nat>, ds: seq<real>, m: real, g: nat)
    requires |xs| == |id| == |ds|
    requires forall a :: 0 <= a < |xs| && id[a] == g ==> ds[a] == xs[a] - m
    ensures SumIn(ds, id, g) == SumIn(xs, id, g) - Times(CountIn(id, g) as real, m)
  {
    if xs != [] {
      var n := |xs| - 1;
      DemeanedSum(xs[..n], id[..n], ds[..n], m, g);
      OneMore(CountIn(id[..n], g), m);
    } else {
      assert Times(0.0, m) == 0.0;
    }
  }

  lemma OneMore(k: nat, m: real)
    ensures Times((k + 1) as real, m) == Times(k as real, m) + m
  {
  }

  lemma MeanTimesCount(xs: seq<real>, id: seq<nat>, g: nat)
    requires |xs| == |id|
    ensures Times(CountIn(id, g) as real, Mean(xs, id, g)) == SumIn(xs, id, g)
  {
    if CountIn(id, g) == 0 {
      NoneIn(xs, id, g);
    }
  }

  lemma {:induction false} NoneIn(xs: seq<real>, id: seq<nat>, g: nat)
    requires |xs| == |id| && CountIn(id, g) == 0
    ensures SumIn(xs, id, g) == 0.0
  {
    if xs != [] { NoneIn(xs[..|xs| - 1], id[..|id| - 1], g); }
  }

  /** Demeaning leaves nothing in any group. */
  lemma DemeanedZero(xs: seq<real>, id: seq<nat>, g: nat)
    requires |xs| == |id|
    ensures SumIn(Demeaned(xs, id), id, g) == 0.0
  {
    hide SumIn, CountIn, Mean;
    DemeanedSum(xs, id, Demeaned(xs, id), Mean(xs, id, g), g);
    MeanTimesCount(xs, id, g);
  }

  lemma {:induction false} LessSum(xs: seq<real>, b: real, zs: seq<real>, id: seq<nat>, g: nat)
    requires |xs| == |zs| == |id|
    ensures SumIn(Less(xs, b, zs), id, g) == SumIn(xs, id, g) - Times(b, SumIn(zs, id, g))
  {
    if xs != [] {
      var n := |xs| - 1;
      LessSum(xs[..n], b, zs[..n], id[..n], g);
      assert Less(xs, b, zs)[..n] == Less(xs[..n], b, zs[..n]);
      Spread(b, SumIn(zs[..n], id[..n], g), zs[n]);
    } else {
      assert Times(b, 0.0) == 0.0;
    }
  }

  lemma Spread(b: real, x: real, y: real)
    ensures Times(b, x + y) == Times(b, x) + Times(b, y)
    ensures Times(b, x - y) == Times(b, x) - Times(b, y)
    ensures Times(x + y, b) == Times(x, b) + Times(y, b)
    ensures Times(x - y, b) == Times(x, b) - Times(y, b)
  {
  }

  lemma {:induction false} LessDot(xs: seq<real>, b: real, zs: seq<real>, ws: seq<real>)
    requires |xs| == |zs| == |ws|
    ensures Dot(Less(xs, b, zs), ws) == Dot(xs, ws) - Times(b, Dot(zs, ws))
  {
    if xs != [] {
      var n := |xs| - 1;
      LessDot(xs[..n], b, zs[..n], ws[..n]);
      assert Less(xs, b, zs)[..n] == Less(xs[..n], b, zs[..n]);
      LessTerm(xs[n], b, zs[n], ws[n], Dot(zs[..n], ws[..n]));
    } else {
      assert Times(b, 0.0) == 0.0;
    }
  }

  lemma LessTerm(x: real, b: real, z: real, w: real, d: real)
    ensures Times(x - Times(b, z), w) == Times(x, w) - Times(b, Times(z, w))
    ensures Times(b, d + Times(z, w)) == Times(b, d) + Times(b, Times(z, w))
  {
    assert (b * z) * w == b * (z * w);
  }

  lemma {:induction false} SquaresZero(xs: seq<real>, ys: seq<real>)
    requires |xs| == |ys|
    ensures Dot(xs, xs) >= 0.0
    ensures Dot(xs, xs) == 0.0 ==> Dot(ys, xs) == 0.0
  {
    if xs != [] {
      var n := |xs| - 1;
      SquaresZero(xs[..n], ys[..n]);
      Square(xs[n], ys[n]);
    }
  }

  lemma Square(x: real, y: real)
    ensures Times(x, x) >= 0.0 && (Times(x, x) == 0.0 ==> Times(y, x) == 0.0)
  {
    if x != 0.0 {
      assert x * x > 0.0;
    }
  }

  // ---- the residuals ----

  /** Within every industry the residuals sum to zero. */
  lemma GroupSumsVanish(p: Panel, groups: nat, g: nat)
    requires p.Valid(groups)
    ensures |Residuals(p, groups)| == |p.id| && SumIn(Residuals(p, groups), p.id, g) == 0.0
  {
    hide SumIn, Slope;
    var ydm, ldm := Demeaned(p.y, p.id), Demeaned(p.l, p.id);
    LessSum(ydm, Slope(p, groups), ldm, p.id, g);
    hide Demeaned, Less;
    DemeanedZero(p.y, p.id, g);
    DemeanedZero(p.l, p.id, g);
    assert Times(Slope(p, groups), 0.0) == 0.0;
  }

  /** The residuals are orthogonal to the demeaned size, even when that does not vary at all. */
  lemma DemeanedOrthogonal(p: Panel, groups: nat)
    requires p.Valid(groups)
    ensures |Residuals(p, groups)| == |p.l| == |Demeaned(p.l, p.id)|
    ensures Dot(Residuals(p, groups), Demeaned(p.l, p.id)) == 0.0
  {
    hide Dot;
    var ydm, ldm := Demeaned(p.y, p.id), Demeaned(p.l, p.id);
    LessDot(ydm, Slope(p, groups), ldm, ldm);
    SquaresZero(ldm, ydm);
    RatioCancels(Dot(ydm, ldm), Dot(ldm, ldm));
  }

  lemma RatioCancels(num: real, den: real)
    requires den >= 0.0 && (den == 0.0 ==> num == 0.0)
    ensures num - Times(Ratio(num, den), den) == 0.0
  {
  }

  /** Whatever sums to zero in every group is orthogonal to any constants per group. */
  function GroupSums(xs: seq<real>, id: seq<nat>, c: nat -> real, k: nat): real
    requires |xs| == |id|
  {
    if k == 0 then 0.0 else GroupSums(xs, id, c, k - 1) + Times(c(k - 1), SumIn(xs, id, k - 1))
  }

  lemma {:induction false} GroupSumsNext(xs: seq<real>, id: seq<nat>, c: nat -> real, k: nat)
    requires |xs| == |id| > 0
    ensures var n := |xs| - 1;
      GroupSums(xs, id, c, k) == GroupSums(xs[..n], id[..n], c, k) + if id[n] < k then Times(xs[n], c(id[n])) else 0.0
  {
    if k > 0 {
      var n := |xs| - 1;
      GroupSumsNext(xs, id, c, k - 1);
      Spread(c(k - 1), SumIn(xs[..n], id[..n], k - 1), xs[n]);
      assert Times(xs[n], c(k - 1)) == Times(c(k - 1), xs[n]);
    }
  }

  lemma {:induction false} GroupSumsEmpty(id: seq<nat>, c: nat -> real, k: nat)
    requires id == []
    ensures GroupSums([], id, c, k) == 0.0
  {
    if k > 0 {
      GroupSumsEmpty(id, c, k - 1);
      assert Times(c(k - 1), 0.0) == 0.0;
    }
  }

  lemma {:induction false} DotPerGroup(xs: seq<real>, id: seq<nat>, c: nat -> real, k: nat)
    requires |xs| == |id| && forall a :: 0 <= a < |id| ==> id[a] < k
    ensures Dot(xs, PerGroup(id, c)) == GroupSums(xs, id, c, k)
  {
    if xs != [] {
      var n := |xs| - 1;
      DotPerGroup(xs[..n], id[..n], c, k);
      assert PerGroup(id, c)[..n] == PerGroup(id[..n], c);
      GroupSumsNext(xs, id, c, k);
    } else {
      GroupSumsEmpty(id, c, k);
    }
  }

  lemma {:induction false} GroupSumsZero(xs: seq<real>, id: seq<nat>, c: nat -> real, k: nat)
    requires |xs| == |id| && forall g: nat :: SumIn(xs, id, g) == 0.0
    ensures GroupSums(xs, id, c, k) == 0.0
  {
    if k > 0 {
      GroupSumsZero(xs, id, c, k - 1);
      assert Times(c(k - 1), 0.0) == 0.0;
    }
  }

  lemma PerGroupOrthogonal(xs: seq<real>, id: seq<nat>, c: nat -> real, k: nat)
    requires |xs| == |id| && (forall a :: 0 <= a < |id| ==> id[a] < k) && forall g: nat :: SumIn(xs, id, g) == 0.0
    ensures Dot(xs, PerGroup(id, c)) == 0.0
  {
    DotPerGroup(xs, id, c, k);
    GroupSumsZero(xs, id, c, k);
  }

  function Plus(xs: seq<real>, zs: seq<real>): (r: seq<real>)
    requires |xs| == |zs|
  {
    seq(|xs|, a requires 0 <= a < |xs| => xs[a] + zs[a])
  }

  lemma {:induction false} DotPlus(ws: seq<real>, xs: seq<real>, zs: seq<real>)
    requires |ws| == |xs| == |zs|
    ensures Dot(ws, Plus(xs, zs)) == Dot(ws, xs) + Dot(ws, zs)
  {
    if ws != [] {
      var n := |ws| - 1;
      DotPlus(ws[..n], xs[..n], zs[..n]);
      assert Plus(xs, zs)[..n] == Plus(xs[..n], zs[..n]);
      Spread(ws[n], xs[n], zs[n]);
    }
  }

  lemma DemeanedBack(xs: seq<real>, id: seq<nat>, c: nat -> real)
    requires |xs| == |id| && forall g: nat :: c(g) == Mean(xs, id, g)
    ensures Plus(Demeaned(xs, id), PerGroup(id, c)) == xs
  {
  }

  /** The residuals are orthogonal to size itself. */
  lemma SizeOrthogonal(p: Panel, groups: nat)
    requires p.Valid(groups)
    ensures |Residuals(p, groups)| == |p.l| && Dot(Residuals(p, groups), p.l) == 0.0
  {
    var c := (g: nat) => Mean(p.l, p.id, g);
    DemeanedBack(p.l, p.id, c);
    DemeanedOrthogonal(p, groups);
    forall g: nat
      ensures SumIn(Residuals(p, groups), p.id, g) == 0.0
    {
      GroupSumsVanish(p, groups, g);
    }
    hide Dot, SumIn, Mean, Demeaned, Residuals;
    PerGroupOrthogonal(Residuals(p, groups), p.id, c, groups);
    DotPlus(Residuals(p, groups), Demeaned(p.l, p.id), PerGroup(p.id, c));
  }

  // ---- least squares ----

  /** What is left of y under some intercepts per industry and some slope. */
  function Left(p: Panel, c: nat -> real, s: real): (r: seq<real>)
    requires |p.y| == |p.l| == |p.id|
  {
    seq(|p.y|, a requires 0 <= a < |p.y| => p.y[a] - c(p.id[a]) - Times(s, p.l[a]))
  }

  lemma {:induction false} SquareOfSum(xs: seq<real>, zs: seq<real>)
    requires |xs| == |zs|
    ensures Dot(Plus(xs, zs), Plus(xs, zs)) == Dot(xs, xs) + 2.0 * Dot(xs, zs) + Dot(zs, zs)
  {
    if xs != [] {
      var n := |xs| - 1;
      SquareOfSum(xs[..n], zs[..n]);
      assert Plus(xs, zs)[..n] == Plus(xs[..n], zs[..n]);
      SquareTerm(xs[n], zs[n]);
    }
  }

  lemma SquareTerm(x: real, z: real)
    ensures Times(x + z, x + z) == Times(x, x) + 2.0 * Times(x, z) + Times(z, z)
  {
  }

  function Scaled(t: real, xs: seq<real>): (r: seq<real>) {
    seq(|xs|, a requires 0 <= a < |xs| => Times(t, xs[a]))
  }

  lemma {:induction false} DotScaled(ws: seq<real>, t: real, xs: seq<real>)
    requires |ws| == |xs|
    ensures Dot(ws, Scaled(t, xs)) == Times(t, Dot(ws, xs))
  {
    if ws != [] {
      var n := |ws| - 1;
      DotScaled(ws[..n], t, xs[..n]);
      assert Scaled(t, xs)[..n] == Scaled(t, xs[..n]);
      ScaledTerm(ws[n], t, xs[n], Dot(ws[..n], xs[..n]));
    } else {
      assert Times(t, 0.0) == 0.0;
    }
  }

  lemma ScaledTerm(w: real, t: real, x: real, d: real)
    ensures Times(w, Times(t, x)) == Times(t, Times(w, x))
    ensures Times(t, d + Times(w, x)) == Times(t, d) + Times(t, Times(w, x))
  {
    assert w * (t * x) == t * (w * x);
  }

  /** Any other fit leaves the residuals plus constants per industry plus a multiple of size. */
  lemma LeftIs(p: Panel, groups: nat, c: nat -> real, s: real, d: nat -> real)
    requires p.Valid(groups)
    requires forall g: nat ::
      d(g) == Mean(p.y, p.id, g) - Times(Slope(p, groups), Mean(p.l, p.id, g)) - c(g)
    ensures Left(p, c, s) == Plus(Residuals(p, groups), Plus(PerGroup(p.id, d), Scaled(Slope(p, groups) - s, p.l)))
  {
    hide Mean, Slope;
    var b := Slope(p, groups);
    forall a | 0 <= a < |p.y|
      ensures Left(p, c, s)[a] == Plus(Residuals(p, groups), Plus(PerGroup(p.id, d), Scaled(b - s, p.l)))[a]
    {
      Spread(b, p.l[a], Mean(p.l, p.id, p.id[a]));
      Spread(p.l[a], b, s);
      Flip(p.l[a], b - s);
      Flip(p.l[a], b);
      Flip(p.l[a], s);
    }
  }

  lemma Flip(x: real, y: real)
    ensures Times(x, y) == Times(y, x)
  {
  }

  /** No intercepts per industry and no slope leave a smaller sum of squares. */
  lemma LeastSquares(p: Panel, groups: nat, c: nat -> real, s: real)
    requires p.Valid(groups)
    ensures |Residuals(p, groups)| == |p.y| == |Left(p, c, s)|
    ensures Dot(Residuals(p, groups), Residuals(p, groups)) <= Dot(Left(p, c, s), Left(p, c, s))
  {
    var b := Slope(p, groups);
    var d := (g: nat) => Mean(p.y, p.id, g) - Times(b, Mean(p.l, p.id, g)) - c(g);
    LeftIs(p, groups, c, s, d);
    SizeOrthogonal(p, groups);
    forall g: nat
      ensures SumIn(Residuals(p, groups), p.id, g) == 0.0
    {
      GroupSumsVanish(p, groups, g);
    }
    Lengths(p, groups);
    hide Dot, SumIn, Mean, Demeaned, Residuals, Slope;
    PerGroupOrthogonal(Residuals(p, groups), p.id, d, groups);
    Pythagoras(Residuals(p, groups), PerGroup(p.id, d), b - s, p.l);
  }

  lemma Lengths(p: Panel, groups: nat)
    requires p.Valid(groups)
    ensures |Residuals(p, groups)| == |p.y|
  {
  }

  lemma Pythagoras(r: seq<real>, g: seq<real>, t: real, l: seq<real>)
    requires |r| == |g| == |l| && Dot(r, g) == 0.0 && Dot(r, l) == 0.0
    ensures var e := Plus(r, Plus(g, Scaled(t, l))); Dot(r, r) <= Dot(e, e)
  {
    hide Dot;
    var q := Plus(g, Scaled(t, l));
    DotPlus(r, g, Scaled(t, l));
    DotScaled(r, t, l);
    assert Times(t, 0.0) == 0.0;
    SquareOfSum(r, q);
    SquaresZero(q, q);
  }

  // ---- twice ----

  lemma {:induction false} ZeroSumsMean(xs: seq<real>, id: seq<nat>)
    requires |xs| == |id| && forall g: nat :: SumIn(xs, id, g) == 0.0
    ensures Demeaned(xs, id) == xs
  {
    forall g: nat
      ensures Mean(xs, id, g) == 0.0
    {
      assert CountIn(id, g) > 0 ==> 0.0 / CountIn(id, g) as real == 0.0;
    }
  }

  /** Neutralising what is neutral already changes nothing. */
  lemma Idempotent(p: Panel, groups: nat)
    requires p.Valid(groups)
    ensures p.(y := Residuals(p, groups)).Valid(groups)
    ensures Residuals(p.(y := Residuals(p, groups)), groups) == Residuals(p, groups)
  {
    var r := Residuals(p, groups);
    forall g: nat
      ensures SumIn(r, p.id, g) == 0.0
    {
      GroupSumsVanish(p, groups, g);
    }
    Lengths(p, groups);
    DemeanedOrthogonal(p, groups);
    hide SumIn, Mean, Dot;
    ZeroSumsMean(r, p.id);
    NoSlope(p.(y := r), groups, r);
  }

  lemma NoSlope(p: Panel, groups: nat, r: seq<real>)
    requires p.Valid(groups) && Demeaned(p.y, p.id) == r == p.y && Dot(r, Demeaned(p.l, p.id)) == 0.0
    ensures Residuals(p, groups) == r
  {
    var den := Dot(Demeaned(p.l, p.id), Demeaned(p.l, p.id));
    assert den > 0.0 ==> 0.0 / den == 0.0;
    assert Slope(p, groups) == 0.0;
    assert forall x :: Times(0.0, x) == 0.0;
  }

  // ---- the row ----

  /** A neutralised row keeps the same samples, and they hold exactly the residuals. */
  lemma RowHoldsResiduals(y: seq<Option<real>>, l: seq<Option<real>>, id: seq<int>, groups: nat)
    requires |y| == |l| == |id|
    ensures var p := Kept(y, l, id, groups);
      Kept(Neutralized(y, l, id, groups), l, id, groups) == p.(y := Residuals(p, groups))
  {
    var p := Kept(y, l, id, groups);
    var r := Neutralized(y, l, id, groups);
    PrefixHolds(y, l, id, groups, p, r, |y|);
    assert y[..|y|] == y && l[..|y|] == l && id[..|y|] == id && r[..|y|] == r;
    assert Residuals(p, groups)[..|p.y|] == Residuals(p, groups);
  }

  lemma {:induction false} PrefixHolds(y: seq<Option<real>>, l: seq<Option<real>>, id: seq<int>, groups: nat,
                                       p: Panel, r: seq<Option<real>>, a: nat)
    requires |y| == |l| == |id| && a <= |y| && p == Kept(y, l, id, groups) && r == Neutralized(y, l, id, groups)
    ensures |r| == |y|
    ensures var q := Kept(y[..a], l[..a], id[..a], groups);
      |q.y| <= |p.y| == |Residuals(p, groups)|
      && Kept(r[..a], l[..a], id[..a], groups) == q.(y := Residuals(p, groups)[..|q.y|])
  {
    if a == 0 {
      Lengths(p, groups);
    } else {
      TakenAt(y, l, id, groups, a - 1);
      hide Residuals, Neutralized;
      PrefixHolds(y, l, id, groups, p, r, a - 1);
      KeptNext(y, l, id, groups, a - 1);
      KeptNext(r, l, id, groups, a - 1);
      KeptPrefix(y, l, id, groups, a);
      hide Kept;
      var q := Kept(y[..a - 1], l[..a - 1], id[..a - 1], groups);
      if Takes(y[a - 1], l[a - 1], id[a - 1], groups) {
        InFront(p, q, y[a - 1].value, l[a - 1].value, id[a - 1]);
        RowAt(y, l, id, groups, a - 1, |q.y|);
        PanelSnoc(q, Residuals(p, groups), y[a - 1].value, l[a - 1].value, id[a - 1]);
      }
    }
  }

  /** The sample kept next stands where the ones before it end. */
  lemma InFront(p: Panel, q: Panel, y: real, l: real, id: nat)
    requires q.y + [y] <= p.y && q.l + [l] <= p.l && q.id + [id] <= p.id && |q.y| == |q.l| == |q.id|
    ensures |q.y| < |p.y| && p.y[|q.y|] == y && p.l[|q.y|] == l && p.id[|q.y|] == id
  {
    assert p.y[|q.y|] == (q.y + [y])[|q.y|] && p.l[|q.l|] == (q.l + [l])[|q.l|] && p.id[|q.id|] == (q.id + [id])[|q.id|];
  }

  lemma PanelSnoc(q: Panel, r: seq<real>, y: real, l: real, id: nat)
    requires |q.y| < |r|
    ensures var q1 := Panel(q.y + [y], q.l + [l], q.id + [id]);
      Panel(r[..|q.y|] + [r[|q.y|]], q.l + [l], q.id + [id]) == q1.(y := r[..|q1.y|])
  {
  }

  lemma TakenAt(y: seq<Option<real>>, l: seq<Option<real>>, id: seq<int>, groups: nat, a: nat)
    requires |y| == |l| == |id| && a < |y|
    ensures var r := Neutralized(y, l, id, groups);
      |r| == |y| && (Takes(r[a], l[a], id[a], groups) <==> Takes(y[a], l[a], id[a], groups))
      && |Residuals(Kept(y, l, id, groups), groups)| == |Kept(y, l, id, groups).y|
  {
    hide Mean, Slope, Kept;
  }

  /** A sample's place in the row holds the residual of its place among those kept. */
  lemma RowAt(y: seq<Option<real>>, l: seq<Option<real>>, id: seq<int>, groups: nat, a: nat, k: nat)
    requires |y| == |l| == |id| && a < |y| && Takes(y[a], l[a], id[a], groups)
    requires var p := Kept(y, l, id, groups);
      k < |p.y| == |p.l| == |p.id| && p.y[k] == y[a].value && p.l[k] == l[a].value && p.id[k] == id[a]
    ensures |Residuals(Kept(y, l, id, groups), groups)| == |Kept(y, l, id, groups).y|
    ensures Neutralized(y, l, id, groups)[a] == Some(Residuals(Kept(y, l, id, groups), groups)[k])
  {
    hide Mean, Slope, Kept;
  }
}
