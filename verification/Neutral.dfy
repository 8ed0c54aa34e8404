/**
 * Industry and size neutralisation: within-industry demeaning, then one scalar
 * regression, in exact arithmetic.
 */
module Neutral {
  import opened Common

  /** The participating samples, column by column. */
  datatype Panel = Panel(y: seq<real>, l: seq<real>, id: seq<nat>) {
    predicate Valid(groups: nat) {
      |y| == |l| == |id| && forall a :: 0 <= a < |id| ==> id[a] < groups
    }
  }

  predicate Takes(y: Option<real>, l: Option<real>, id: int, groups: nat) {
    y.Some? && l.Some? && 0 <= id < groups
  }

  function Kept(y: seq<Option<real>>, l: seq<Option<real>>, id: seq<int>, groups: nat): (p: Panel)
    requires |y| == |l| == |id|
    ensures p.Valid(groups)
  {
    if y == [] then Panel([], [], [])
    else
      var n := |y| - 1;
      var p := Kept(y[..n], l[..n], id[..n], groups);
      if Takes(y[n], l[n], id[n], groups) then
        Panel(p.y + [y[n].value], p.l + [l[n].value], p.id + [id[n]])
      else p
  }

  function Mean(xs: seq<real>, id: seq<nat>, g: nat): real
    requires |xs| == |id|
  {
    if CountIn(id, g) > 0 then SumIn(xs, id, g) / CountIn(id, g) as real else 0.0
  }

  function Demeaned(xs: seq<real>, id: seq<nat>): (r: seq<real>)
    requires |xs| == |id|
  {
    seq(|xs|, a requires 0 <= a < |xs| => xs[a] - Mean(xs, id, id[a]))
  }

  function Times(x: real, y: real): real {
    x * y
  }

  function Dot(xs: seq<real>, zs: seq<real>): real
    requires |xs| == |zs|
  {
    if xs == [] then 0.0
    else
      var n := |xs| - 1;
      Dot(xs[..n], zs[..n]) + Times(xs[n], zs[n])
  }

  function Ratio(num: real, den: real): real {
    if den > 0.0 then num / den else 0.0
  }

  function Slope(p: Panel, groups: nat): real
    requires p.Valid(groups)
  {
    var ydm, ldm := Demeaned(p.y, p.id), Demeaned(p.l, p.id);
    Ratio(Dot(ydm, ldm), Dot(ldm, ldm))
  }

  /** xs less b times zs. */
  function Less(xs: seq<real>, b: real, zs: seq<real>): (r: seq<real>)
    requires |xs| == |zs|
  {
    seq(|xs|, a requires 0 <= a < |xs| => xs[a] - Times(b, zs[a]))
  }

  function Residuals(p: Panel, groups: nat): (r: seq<real>)
    requires p.Valid(groups)
  {
    Less(Demeaned(p.y, p.id), Slope(p, groups), Demeaned(p.l, p.id))
  }

  /** What one row becomes. */
  function ResidualAt(p: Panel, groups: nat, y: real, l: real, id: nat): real
    requires p.Valid(groups)
  {
    (y - Mean(p.y, p.id, id)) - Times(Slope(p, groups), l - Mean(p.l, p.id, id))
  }

  function Neutralized(y: seq<Option<real>>, l: seq<Option<real>>, id: seq<int>, groups: nat): (r: seq<Option<real>>)
    requires |y| == |l| == |id|
  {
    var p := Kept(y, l, id, groups);
    seq(|y|, a requires 0 <= a < |y| =>
      if Takes(y[a], l[a], id[a], groups) then Some(ResidualAt(p, groups, y[a].value, l[a].value, id[a])) else None)
  }

  // ---- the passes over the row ----

  lemma KeptNext(y: seq<Option<real>>, l: seq<Option<real>>, id: seq<int>, groups: nat, a: nat)
    requires |y| == |l| == |id| && a < |y|
    ensures var p, q := Kept(y[..a], l[..a], id[..a], groups), Kept(y[..a + 1], l[..a + 1], id[..a + 1], groups);
      q == if Takes(y[a], l[a], id[a], groups) then Panel(p.y + [y[a].value], p.l + [l[a].value], p.id + [id[a]]) else p
  {
    assert y[..a + 1][..a] == y[..a] && l[..a + 1][..a] == l[..a] && id[..a + 1][..a] == id[..a];
  }

  /** The samples kept so far stand in front of all that are kept. */
  lemma {:induction false} KeptPrefix(y: seq<Option<real>>, l: seq<Option<real>>, id: seq<int>, groups: nat, a: nat)
    requires |y| == |l| == |id| && a <= |y|
    ensures var p, q := Kept(y[..a], l[..a], id[..a], groups), Kept(y, l, id, groups);
      p.y <= q.y && p.l <= q.l && p.id <= q.id
    decreases |y| - a
  {
    if a < |y| {
      KeptPrefix(y, l, id, groups, a + 1);
      KeptNext(y, l, id, groups, a);
    } else {
      assert y[..a] == y && l[..a] == l && id[..a] == id;
    }
  }

  lemma SumSnoc(xs: seq<real>, id: seq<nat>, x: real, j: nat)
    requires |xs| == |id|
    ensures forall g :: SumIn(xs + [x], id + [j], g) == SumIn(xs, id, g) + if g == j then x else 0.0
    ensures forall g :: CountIn(id + [j], g) == CountIn(id, g) + if g == j then 1 else 0
  {
    assert (xs + [x])[..|xs|] == xs && (id + [j])[..|id|] == id;
  }

  /** The sums and the count of every group. */
  ghost predicate Summed(p: Panel, sy: seq<real>, sl: seq<real>, cnt: seq<nat>) {
    && |p.y| == |p.l| == |p.id| && |sy| == |sl| == |cnt|
    && forall g :: 0 <= g < |cnt| ==> sy[g] == SumIn(p.y, p.id, g) && sl[g] == SumIn(p.l, p.id, g) && cnt[g] == CountIn(p.id, g)
  }

  lemma SummedNext(p: Panel, sy: seq<real>, sl: seq<real>, cnt: seq<nat>, y: real, l: real, j: nat)
    requires Summed(p, sy, sl, cnt) && j < |cnt|
    ensures Summed(Panel(p.y + [y], p.l + [l], p.id + [j]), sy[j := sy[j] + y], sl[j := sl[j] + l], cnt[j := cnt[j] + 1])
  {
    SumSnoc(p.y, p.id, y, j);
    SumSnoc(p.l, p.id, l, j);
    hide SumIn, CountIn;
  }

  method AddTo(sy: array<real>, sl: array<real>, cnt: array<nat>, j: nat, y: real, l: real)
    requires j < sy.Length == sl.Length == cnt.Length && sy != sl
    modifies sy, sl, cnt
    ensures sy[..] == old(sy[..])[j := old(sy[j]) + y]
    ensures sl[..] == old(sl[..])[j := old(sl[j]) + l]
    ensures cnt[..] == old(cnt[..])[j := old(cnt[j]) + 1]
  {
    sy[j] := sy[j] + y;
    sl[j] := sl[j] + l;
    cnt[j] := cnt[j] + 1;
  }

  /** One sample of the first pass. */
  method AddSample(y: seq<Option<real>>, l: seq<Option<real>>, id: seq<int>, groups: nat, a: nat,
                   sy: array<real>, sl: array<real>, cnt: array<nat>)
    requires a < |y| == |l| == |id| && sy.Length == sl.Length == cnt.Length == groups && sy != sl
    requires Summed(Kept(y[..a], l[..a], id[..a], groups), sy[..], sl[..], cnt[..])
    modifies sy, sl, cnt
    ensures Summed(Kept(y[..a + 1], l[..a + 1], id[..a + 1], groups), sy[..], sl[..], cnt[..])
  {
    hide Summed, Kept;
    KeptNext(y, l, id, groups, a);
    if Takes(y[a], l[a], id[a], groups) {
      SummedNext(Kept(y[..a], l[..a], id[..a], groups), sy[..], sl[..], cnt[..], y[a].value, l[a].value, id[a]);
      AddTo(sy, sl, cnt, id[a], y[a].value, l[a].value);
    }
  }

  method GroupSumsOf(y: seq<Option<real>>, l: seq<Option<real>>, id: seq<int>, groups: nat)
    returns (sy: array<real>, sl: array<real>, cnt: array<nat>)
    requires |y| == |l| == |id|
    ensures sy.Length == sl.Length == cnt.Length == groups && Summed(Kept(y, l, id, groups), sy[..], sl[..], cnt[..])
  {
    sy, sl, cnt := new real[groups](_ => 0.0), new real[groups](_ => 0.0), new nat[groups](_ => 0);
    var a := 0;
    assert Summed(Kept(y[..a], l[..a], id[..a], groups), sy[..], sl[..], cnt[..]);
    hide Summed, Kept;
    while a < |y|
      invariant 0 <= a <= |y| && fresh(sy) && fresh(sl) && fresh(cnt) && sy != sl
      invariant sy.Length == sl.Length == cnt.Length == groups
      invariant Summed(Kept(y[..a], l[..a], id[..a], groups), sy[..], sl[..], cnt[..])
    {
      AddSample(y, l, id, groups, a, sy, sl, cnt);
      a := a + 1;
    }
    assert y[..a] == y && l[..a] == l && id[..a] == id;
  }

  method MeansOf(y: seq<Option<real>>, l: seq<Option<real>>, id: seq<int>, groups: nat)
    returns (my: array<real>, ml: array<real>)
    requires |y| == |l| == |id|
    ensures fresh(my) && fresh(ml) && my.Length == ml.Length == groups
    ensures var p := Kept(y, l, id, groups);
      forall g :: 0 <= g < groups ==> my[g] == Mean(p.y, p.id, g) && ml[g] == Mean(p.l, p.id, g)
  {
    hide Kept, SumIn, CountIn;
    ghost var p := Kept(y, l, id, groups);
    var sy, sl, cnt := GroupSumsOf(y, l, id, groups);
    my, ml := new real[groups](_ => 0.0), new real[groups](_ => 0.0);
    var g := 0;
    while g < groups
      invariant 0 <= g <= groups && Summed(p, sy[..], sl[..], cnt[..])
      invariant forall h :: 0 <= h < g ==> my[h] == Mean(p.y, p.id, h) && ml[h] == Mean(p.l, p.id, h)
      invariant forall h :: g <= h < groups ==> my[h] == 0.0 && ml[h] == 0.0
    {
      if cnt[g] > 0 {
        my[g] := sy[g] / cnt[g] as real;
        ml[g] := sl[g] / cnt[g] as real;
      }
      g := g + 1;
    }
  }

  lemma DotNext(xs: seq<real>, zs: seq<real>, k: nat)
    requires |xs| == |zs| && k < |xs|
    ensures Dot(xs[..k + 1], zs[..k + 1]) == Dot(xs[..k], zs[..k]) + Times(xs[k], zs[k])
  {
    assert xs[..k + 1][..k] == xs[..k] && zs[..k + 1][..k] == zs[..k];
  }

  /** The regression's slope, summed in a second pass. */
  method SlopeOf(y: seq<Option<real>>, l: seq<Option<real>>, id: seq<int>, groups: nat, my: array<real>, ml: array<real>)
    returns (b: real)
    requires |y| == |l| == |id| && my.Length == ml.Length == groups
    requires var p := Kept(y, l, id, groups);
      forall g :: 0 <= g < groups ==> my[g] == Mean(p.y, p.id, g) && ml[g] == Mean(p.l, p.id, g)
    ensures b == Slope(Kept(y, l, id, groups), groups)
  {
    hide Mean, Dot;
    ghost var p := Kept(y, l, id, groups);
    ghost var ydm, ldm := Demeaned(p.y, p.id), Demeaned(p.l, p.id);
    ghost var k := 0;
    var num, den := 0.0, 0.0;
    var a := 0;
    NoDot(ydm, ldm);
    NoDot(ldm, ldm);
    while a < |y|
      invariant 0 <= a <= |y| && k == |Kept(y[..a], l[..a], id[..a], groups).y| <= |p.y|
      invariant num == Dot(ydm[..k], ldm[..k]) && den == Dot(ldm[..k], ldm[..k])
    {
      KeptNext(y, l, id, groups, a);
      KeptPrefix(y, l, id, groups, a + 1);
      if Takes(y[a], l[a], id[a], groups) {
        ghost var q := Kept(y[..a + 1], l[..a + 1], id[..a + 1], groups);
        assert q.y[k] == p.y[k] && q.l[k] == p.l[k] && q.id[k] == p.id[k];
        var dy := y[a].value - my[id[a]];
        var dl := l[a].value - ml[id[a]];
        DotNext(ydm, ldm, k);
        DotNext(ldm, ldm, k);
        num := num + Times(dy, dl);
        den := den + Times(dl, dl);
        k := k + 1;
      }
      a := a + 1;
    }
    assert y[..a] == y && l[..a] == l && id[..a] == id;
    assert ydm[..k] == ydm && ldm[..k] == ldm;
    b := Ratio(num, den);
  }

  lemma NoDot(xs: seq<real>, zs: seq<real>)
    requires |xs| == |zs|
    ensures Dot(xs[..0], zs[..0]) == 0.0
  {
  }

  /** Neutralises a column in place. */
  method Neutralize(y: array<Option<real>>, l: seq<Option<real>>, id: seq<int>, groups: nat)
    requires y.Length == |l| == |id|
    modifies y
    ensures y[..] == Neutralized(old(y[..]), l, id, groups)
  {
    hide Kept, Mean, Slope;
    ghost var y0 := y[..];
    ghost var p := Kept(y0, l, id, groups);
    var my, ml := MeansOf(y[..], l, id, groups);
    var b := SlopeOf(y[..], l, id, groups, my, ml);
    var a := 0;
    while a < y.Length
      invariant 0 <= a <= y.Length
      invariant forall j :: 0 <= j < a ==> y[j] == Neutralized(y0, l, id, groups)[j]
      invariant forall j :: a <= j < y.Length ==> y[j] == y0[j]
      invariant forall g :: 0 <= g < groups ==> my[g] == Mean(p.y, p.id, g) && ml[g] == Mean(p.l, p.id, g)
    {
      if Takes(y[a], l[a], id[a], groups) {
        var ydm := y[a].value - my[id[a]];
        var ldm := l[a].value - ml[id[a]];
        y[a] := Some(ydm - Times(b, ldm));
      } else {
        y[a] := None;
      }
      a := a + 1;
    }
  }

  /** A row takes part, and keeps a value, exactly when it and its size are finite and its industry is one of the groups, the unknown one included. */
  lemma TakesPart(y: seq<Option<real>>, l: seq<Option<real>>, id: seq<int>, groups: nat, a: nat)
    requires |y| == |l| == |id| && a < |y|
    ensures Neutralized(y, l, id, groups)[a].Some? <==> y[a].Some? && l[a].Some? && 0 <= id[a] < groups
    ensures y[a].Some? && l[a].Some? && 0 <= id[a] < groups ==>
      var p := Kept(y, l, id, groups); exists k :: 0 <= k < |p.y| && p.y[k] == y[a].value && p.l[k] == l[a].value && p.id[k] == id[a]
  {
    if Takes(y[a], l[a], id[a], groups) {
      KeptNext(y, l, id, groups, a);
      KeptPrefix(y, l, id, groups, a + 1);
      var q, p := Kept(y[..a + 1], l[..a + 1], id[..a + 1], groups), Kept(y, l, id, groups);
      var k := |q.y| - 1;
      hide Kept;
      assert p.y[k] == y[a].value && p.l[k] == l[a].value && p.id[k] == id[a];
    }
  }
}
