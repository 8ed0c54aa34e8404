/**
 * Sliding windows over the layered series: month-end snapshots in a ring just long
 * enough that the snapshot a window opened with is still there when it closes.
 */
module Windows {
  import opened Common

  const WINDOW: nat := 252
  const STEP: nat := 21
  const MONTHS: nat := 12
  const RING: nat := 13

  /** The layers' values and the top layer's running sums. */
  datatype Snap = Snap(nav: seq<real>, sum: real, sq: real)

  ghost predicate Shaped(rets: seq<seq<real>>, nb: nat) {
    nb > 0 && forall t :: 0 <= t < |rets| ==> |rets[t]| == nb
  }

  function GrowOne(x: real, r: real): real { x * (1.0 + r) }

  function Grow(nav: seq<real>, ret: seq<real>): (r: seq<real>)
    requires |nav| == |ret|
    ensures |r| == |nav|
  {
    seq(|nav|, j requires 0 <= j < |nav| => GrowOne(nav[j], ret[j]))
  }

  /** The state after the first t days. */
  function SnapAt(rets: seq<seq<real>>, nb: nat, t: nat): (s: Snap)
    requires Shaped(rets, nb) && t <= |rets|
    ensures |s.nav| == nb
  {
    if t == 0 then Snap(seq(nb, _ => 1.0), 0.0, 0.0)
    else
      var s := SnapAt(rets, nb, t - 1);
      var top := rets[t - 1][nb - 1];
      Snap(Grow(s.nav, rets[t - 1]), s.sum + top, s.sq + top * top)
  }

  /** One closed window: its two ends. */
  datatype Closed = Closed(open: Snap, close: Snap)

  function WindowAt(rets: seq<seq<real>>, nb: nat, w: nat): Closed
    requires Shaped(rets, nb) && w * STEP + WINDOW <= |rets|
  {
    Closed(SnapAt(rets, nb, w * STEP), SnapAt(rets, nb, w * STEP + WINDOW))
  }

  /** How many windows fit. */
  function WindowCount(nRet: nat): (r: nat)
    requires nRet >= WINDOW
    ensures (r + MONTHS - 1) * STEP <= nRet < (r + MONTHS) * STEP
    ensures forall w: nat :: w < r <==> w * STEP + WINDOW <= nRet
  {
    nRet / STEP - WINDOW / STEP + 1
  }

  /** The ring after m months holds the last thirteen month-ends. */
  ghost predicate RingHolds(rets: seq<seq<real>>, nb: nat, ring: seq<Snap>, m: nat)
    requires Shaped(rets, nb)
  {
    && |ring| == RING && m * STEP <= |rets|
    && forall v: nat :: v <= m < v + RING ==> ring[v % RING] == SnapAt(rets, nb, v * STEP)
  }

  lemma SlotsApart(u: nat, v: nat)
    requires u % RING == v % RING && u < v
    ensures v >= u + RING
  {
  }

  lemma RingNext(rets: seq<seq<real>>, nb: nat, ring: seq<Snap>, m: nat)
    requires Shaped(rets, nb) && RingHolds(rets, nb, ring, m) && (m + 1) * STEP <= |rets|
    ensures RingHolds(rets, nb, ring[(m + 1) % RING := SnapAt(rets, nb, (m + 1) * STEP)], m + 1)
  {
    hide SnapAt;
    var next := ring[(m + 1) % RING := SnapAt(rets, nb, (m + 1) * STEP)];
    forall v: nat | v <= m + 1 < v + RING
      ensures next[v % RING] == SnapAt(rets, nb, v * STEP)
    {
      if v <= m && v % RING == (m + 1) % RING {
        SlotsApart(v, m + 1);
      }
    }
  }

  /**
   * The day loop: values compounded daily, a snapshot every month-end, and a
   * window closed whenever a snapshot twelve months old exists. Every window is
   * written exactly once, in order, between its own two ends.
   */
  method RunWindows(rets: seq<seq<real>>, nb: nat) returns (win: seq<Closed>)
    requires Shaped(rets, nb) && |rets| >= WINDOW
    ensures |win| == WindowCount(|rets|)
    ensures forall w: nat :: w < |win| ==> w * STEP + WINDOW <= |rets| && win[w] == WindowAt(rets, nb, w)
  {
    hide SnapAt;
    var cur := Start(rets, nb);
    var ring := new Snap[RING](_ => cur);
    win := [];
    var t, m := 0, 0;
    while t < |rets|
      invariant 0 <= t <= |rets| && m == t / STEP
      invariant cur == SnapAt(rets, nb, t)
      invariant RingHolds(rets, nb, ring[..], m)
      invariant ClosedBy(rets, nb, win, m)
    {
      cur := NextDay(rets, nb, t, cur);
      if (t + 1) % STEP == 0 {
        win := MonthEnd(rets, nb, m, cur, ring, win);
        m := (t + 1) / STEP;
      }
      t := t + 1;
    }
  }

  /** The windows closed by the end of month m. */
  ghost predicate ClosedBy(rets: seq<seq<real>>, nb: nat, win: seq<Closed>, m: nat)
    requires Shaped(rets, nb)
  {
    && |win| == (if m >= MONTHS then m - MONTHS + 1 else 0)
    && forall w: nat :: w < |win| ==> w * STEP + WINDOW <= |rets| && win[w] == WindowAt(rets, nb, w)
  }

  method MonthEnd(ghost rets: seq<seq<real>>, ghost nb: nat, m0: nat, cur: Snap, ring: array<Snap>, win0: seq<Closed>)
    returns (win: seq<Closed>)
    requires Shaped(rets, nb) && RingHolds(rets, nb, ring[..], m0) && (m0 + 1) * STEP <= |rets|
    requires cur == SnapAt(rets, nb, (m0 + 1) * STEP) && ClosedBy(rets, nb, win0, m0)
    modifies ring
    ensures RingHolds(rets, nb, ring[..], m0 + 1) && ClosedBy(rets, nb, win, m0 + 1)
  {
    hide SnapAt;
    RingNext(rets, nb, ring[..], m0);
    var m := m0 + 1;
    ghost var next := ring[..][m % RING := cur];
    ring[m % RING] := cur;
    assert ring[..] == next;
    win := win0;
    if m >= MONTHS {
      var w: nat := m - MONTHS;
      assert w <= m < w + RING;
      win := win + [Closed(ring[w % RING], cur)];
    }
  }

  method Start(ghost rets: seq<seq<real>>, nb: nat) returns (s: Snap)
    requires Shaped(rets, nb)
    ensures s == SnapAt(rets, nb, 0)
  {
    s := Snap(seq(nb, _ => 1.0), 0.0, 0.0);
  }

  method NextDay(rets: seq<seq<real>>, nb: nat, t: nat, cur: Snap) returns (s: Snap)
    requires Shaped(rets, nb) && t < |rets| && cur == SnapAt(rets, nb, t)
    ensures s == SnapAt(rets, nb, t + 1)
  {
    var nav := cur.nav;
    var j := 0;
    while j < nb
      invariant 0 <= j <= nb == |nav|
      invariant forall k :: 0 <= k < j ==> nav[k] == GrowOne(cur.nav[k], rets[t][k])
      invariant forall k :: j <= k < nb ==> nav[k] == cur.nav[k]
    {
      nav := nav[j := GrowOne(nav[j], rets[t][j])];
      j := j + 1;
    }
    assert nav == Grow(cur.nav, rets[t]);
    var top := rets[t][nb - 1];
    s := Snap(nav, cur.sum + top, cur.sq + top * top);
  }

  // ---- a window's sums ----

  function SumOver(rets: seq<seq<real>>, nb: nat, lo: nat, n: nat): real
    requires Shaped(rets, nb) && lo + n <= |rets|
  {
    if n == 0 then 0.0 else SumOver(rets, nb, lo, n - 1) + rets[lo + n - 1][nb - 1]
  }

  function SqOver(rets: seq<seq<real>>, nb: nat, lo: nat, n: nat): real
    requires Shaped(rets, nb) && lo + n <= |rets|
  {
    if n == 0 then 0.0
    else SqOver(rets, nb, lo, n - 1) + rets[lo + n - 1][nb - 1] * rets[lo + n - 1][nb - 1]
  }

  lemma {:induction false} SumsBetween(rets: seq<seq<real>>, nb: nat, lo: nat, n: nat)
    requires Shaped(rets, nb) && lo + n <= |rets|
    ensures SnapAt(rets, nb, lo + n).sum - SnapAt(rets, nb, lo).sum == SumOver(rets, nb, lo, n)
    ensures SnapAt(rets, nb, lo + n).sq - SnapAt(rets, nb, lo).sq == SqOver(rets, nb, lo, n)
  {
    if n > 0 {
      SumsBetween(rets, nb, lo, n - 1);
    }
  }

  lemma NoSums(rets: seq<seq<real>>, nb: nat)
    requires Shaped(rets, nb)
    ensures SnapAt(rets, nb, 0).sum == 0.0 && SnapAt(rets, nb, 0).sq == 0.0
  {
  }

  /** The differences the Sharpe ratio is taken from are the direct sums over exactly the window's own returns. */
  lemma WindowSums(rets: seq<seq<real>>, nb: nat, w: nat)
    requires Shaped(rets, nb) && w * STEP + WINDOW <= |rets|
    ensures var c := WindowAt(rets, nb, w);
      && c.close.sum - c.open.sum == SumOver(rets, nb, w * STEP, WINDOW)
      && c.close.sq - c.open.sq == SqOver(rets, nb, w * STEP, WINDOW)
      && c.open.sum == SumOver(rets, nb, 0, w * STEP) && c.open.sq == SqOver(rets, nb, 0, w * STEP)
  {
    SumsBetween(rets, nb, w * STEP, WINDOW);
    SumsBetween(rets, nb, 0, w * STEP);
    NoSums(rets, nb);
    hide SnapAt, SumOver, SqOver;
  }

  // ---- a window's layers ----

  /** One plus a layer's returns over n days, multiplied. */
  function Compound(rets: seq<seq<real>>, nb: nat, j: nat, lo: nat, n: nat): real
    requires Shaped(rets, nb) && j < nb && lo + n <= |rets|
  {
    if n == 0 then 1.0 else Compound(rets, nb, j, lo, n - 1) * (1.0 + rets[lo + n - 1][j])
  }

  function Times(x: real, y: real): real { x * y }

  lemma GrownBy(x: real, y: real, r: real, y': real)
    requires y' == y * (1.0 + r)
    ensures GrowOne(Times(x, y), r) == Times(x, y')
  {
  }

  lemma TimesOne(x: real)
    ensures Times(x, 1.0) == x
  {
  }

  /** A layer's value after t days. */
  function NavAt(rets: seq<seq<real>>, nb: nat, j: nat, t: nat): real
    requires Shaped(rets, nb) && j < nb && t <= |rets|
  {
    SnapAt(rets, nb, t).nav[j]
  }

  lemma {:induction false} LayerGrows(rets: seq<seq<real>>, nb: nat, j: nat, lo: nat, n: nat)
    requires Shaped(rets, nb) && j < nb && lo + n <= |rets|
    ensures NavAt(rets, nb, j, lo + n) == Times(NavAt(rets, nb, j, lo), Compound(rets, nb, j, lo, n))
  {
    hide Times, GrowOne, NavAt;
    TimesOne(NavAt(rets, nb, j, lo));
    if n > 0 {
      LayerGrows(rets, nb, j, lo, n - 1);
      NavNext(rets, nb, j, lo + n - 1);
      GrownBy(NavAt(rets, nb, j, lo), Compound(rets, nb, j, lo, n - 1), rets[lo + n - 1][j], Compound(rets, nb, j, lo, n));
    }
  }

  lemma NavNext(rets: seq<seq<real>>, nb: nat, j: nat, t: nat)
    requires Shaped(rets, nb) && j < nb && t < |rets|
    ensures NavAt(rets, nb, j, t + 1) == GrowOne(NavAt(rets, nb, j, t), rets[t][j])
  {
  }

  lemma NavStarts(rets: seq<seq<real>>, nb: nat, j: nat)
    requires Shaped(rets, nb) && j < nb
    ensures NavAt(rets, nb, j, 0) == 1.0
  {
  }

  /** Over a window every layer's value is multiplied by one plus each of its own returns in the window, from one at the start of the series. */
  lemma WindowLayers(rets: seq<seq<real>>, nb: nat, w: nat, j: nat)
    requires Shaped(rets, nb) && w * STEP + WINDOW <= |rets| && j < nb
    ensures var c := WindowAt(rets, nb, w);
      && c.close.nav[j] == c.open.nav[j] * Compound(rets, nb, j, w * STEP, WINDOW)
      && c.open.nav[j] == Compound(rets, nb, j, 0, w * STEP)
  {
    LayerGrows(rets, nb, j, w * STEP, WINDOW);
    LayerGrows(rets, nb, j, 0, w * STEP);
    NavStarts(rets, nb, j);
    hide SnapAt;
  }
}
