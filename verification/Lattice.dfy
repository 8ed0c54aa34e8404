/**
 * The signed lattice of weight vectors: every integer vector of length n whose
 * absolute values add up to m. Enumeration order, its rank function, and why the
 * two are inverse.
 */
module Lattice {
  import opened Common

  function Norm1(k: seq<int>): nat {
    if k == [] then 0 else Abs(k[0]) + Norm1(k[1..])
  }

  ghost predicate OnLattice(n: nat, m: int, k: seq<int>) {
    |k| == n && Norm1(k) == m
  }

  function Prefixed(v: int, rows: seq<seq<int>>): (r: seq<seq<int>>)
    ensures |r| == |rows|
    ensures forall p :: 0 <= p < |r| ==> r[p] == [v] + rows[p]
  {
    seq(|rows|, p requires 0 <= p < |rows| => [v] + rows[p])
  }

  /** All points, in the order they are generated. */
  function Points(n: nat, m: int): seq<seq<int>>
    requires 0 <= m
    requires n >= 1
    decreases n, 2 * m + 2
  {
    if n == 1 then (if m == 0 then [[0]] else [[m], [-m]])
    else PointsFrom(n, m, -m)
  }

  /** The points whose first coordinate is at least v. */
  function PointsFrom(n: nat, m: int, v: int): seq<seq<int>>
    requires 0 <= m
    requires n >= 2 && -m <= v <= m + 1
    decreases n, m + 1 - v
  {
    if v > m then []
    else Prefixed(v, Points(n - 1, m - Abs(v))) + PointsFrom(n, m, v + 1)
  }

  /** The counting table: how many ways n coordinates use up a budget of m. */
  function Ways(n: nat, m: int): (r: nat)
    requires 0 <= m
    requires n >= 1
    ensures r >= 1
    decreases n, m + 1
  {
    if n == 1 then (if m == 0 then 1 else 2)
    else Ways(n - 1, m) + 2 * WaysBelow(n - 1, m)
  }

  /** The ways of every smaller budget, together. */
  function WaysBelow(n: nat, m: int): nat
    requires 0 <= m
    requires n >= 1
    decreases n, m + 2
  {
    if m == 0 then 0 else WaysBelow(n, m - 1) + Ways(n, m - 1)
  }

  /** The points generated before first coordinate `hi`, starting from `lo`. */
  function Skipped(n: nat, m: int, lo: int, hi: int): nat
    requires 0 <= m
    requires n >= 2 && -m <= lo <= hi <= m + 1
    decreases hi - lo
  {
    if lo == hi then 0 else Ways(n - 1, m - Abs(lo)) + Skipped(n, m, lo + 1, hi)
  }

  /** The row number of a point. */
  function Rank(m: int, k: seq<int>): nat
    requires 0 <= m
    requires k != [] && Norm1(k) == m
    decreases |k|
  {
    if |k| == 1 then (if m > 0 && k[0] < 0 then 1 else 0)
    else Skipped(|k|, m, -m, k[0]) + Rank(m - Abs(k[0]), k[1..])
  }

  // ---- counting ----

  lemma {:induction false} SkippedSplit(n: nat, m: int, lo: int, mid: int, hi: int)
    requires 0 <= m
    requires n >= 2 && -m <= lo <= mid <= hi <= m + 1
    ensures Skipped(n, m, lo, hi) == Skipped(n, m, lo, mid) + Skipped(n, m, mid, hi)
    decreases mid - lo
  {
    if lo < mid {
      SkippedSplit(n, m, lo + 1, mid, hi);
    }
  }

  lemma {:induction false} SkippedUp(n: nat, m: int, j: int)
    requires 0 <= m
    requires n >= 2 && 0 <= j <= m
    ensures Skipped(n, m, m - j + 1, m + 1) == WaysBelow(n - 1, j)
  {
    if j > 0 {
      SkippedUp(n, m, j - 1);
    }
  }

  lemma {:induction false} SkippedDown(n: nat, m: int, j: int)
    requires 0 <= m
    requires n >= 2 && 0 <= j <= m
    ensures Skipped(n, m, -m, -m + j) == WaysBelow(n - 1, j)
  {
    if j > 0 {
      SkippedDown(n, m, j - 1);
      SkippedSplit(n, m, -m, -m + j - 1, -m + j);
    }
  }

  /** Summing over every value of the first coordinate is the table's own recurrence. */
  lemma SkippedAll(n: nat, m: int)
    requires 0 <= m
    requires n >= 2
    ensures Skipped(n, m, -m, m + 1) == Ways(n, m)
  {
    SkippedDown(n, m, m);
    SkippedUp(n, m, m);
    SkippedSplit(n, m, -m, 0, m + 1);
    SkippedSplit(n, m, 0, 1, m + 1);
  }

  lemma {:induction false} PointsCount(n: nat, m: int)
    requires 0 <= m
    requires n >= 1
    ensures |Points(n, m)| == Ways(n, m)
    decreases n, 2 * m + 2
  {
    if n > 1 {
      PointsFromCount(n, m, -m);
      SkippedAll(n, m);
    }
  }

  lemma {:induction false} PointsFromCount(n: nat, m: int, v: int)
    requires 0 <= m
    requires n >= 2 && -m <= v <= m + 1
    ensures |PointsFrom(n, m, v)| == Skipped(n, m, v, m + 1)
    decreases n, m + 1 - v
  {
    if v <= m {
      PointsCount(n - 1, m - Abs(v));
      PointsFromCount(n, m, v + 1);
    }
  }

  // ---- rank and enumeration are inverse ----

  lemma {:induction false} RankBound(m: int, k: seq<int>)
    requires 0 <= m
    requires k != [] && Norm1(k) == m
    ensures Rank(m, k) < Ways(|k|, m)
    decreases |k|
  {
    if |k| > 1 {
      RankBound(m - Abs(k[0]), k[1..]);
      SkippedSplit(|k|, m, -m, k[0], m + 1);
      SkippedAll(|k|, m);
    }
  }

  /** The point of a given rank is the one found at that row. */
  lemma {:induction false} PointAtRank(m: int, k: seq<int>)
    requires 0 <= m
    requires k != [] && Norm1(k) == m
    ensures Rank(m, k) < |Points(|k|, m)| && Points(|k|, m)[Rank(m, k)] == k
    decreases |k|, 2 * m + 2
  {
    RankBound(m, k);
    PointsCount(|k|, m);
    if |k| == 1 {
      assert k == [k[0]];
    } else {
      PointFromRank(m, k, -m);
    }
  }

  lemma {:induction false} PointFromRank(m: int, k: seq<int>, v: int)
    requires 0 <= m
    requires |k| >= 2 && Norm1(k) == m && -m <= v <= k[0]
    ensures var p := Skipped(|k|, m, v, k[0]) + Rank(m - Abs(k[0]), k[1..]);
      p < |PointsFrom(|k|, m, v)| && PointsFrom(|k|, m, v)[p] == k
    decreases |k|, k[0] - v
  {
    hide *;
    var n := |k|;
    PointFacts(m, k, v);
    SkippedNext(n, m, v, k[0]);
    PointsCount(n - 1, m - Abs(v));
    if v == k[0] {
      PointAtRank(m - Abs(v), k[1..]);
      HitHere(n, m, v, k, Rank(m - Abs(v), k[1..]));
    } else {
      PointFromRank(m, k, v + 1);
      HitLater(n, m, v, k, Skipped(n, m, v + 1, k[0]) + Rank(m - Abs(k[0]), k[1..]));
    }
  }

  lemma PointFacts(m: int, k: seq<int>, v: int)
    requires 0 <= m && |k| >= 2 && Norm1(k) == m && -m <= v <= k[0]
    ensures 0 <= Norm1(k[1..]) == m - Abs(k[0]) && Abs(v) <= m && k[0] <= m
  {
  }

  lemma SkippedNext(n: nat, m: int, lo: int, hi: int)
    requires 0 <= m
    requires n >= 2 && -m <= lo <= hi <= m + 1
    ensures Skipped(n, m, lo, hi) == if lo == hi then 0 else Ways(n - 1, m - Abs(lo)) + Skipped(n, m, lo + 1, hi)
  {
  }

  lemma HitHere(n: nat, m: int, v: int, k: seq<int>, q: nat)
    requires 0 <= m
    requires n >= 2 && -m <= v <= m && k != [] && k[0] == v
    requires q < |Points(n - 1, m - Abs(v))| && Points(n - 1, m - Abs(v))[q] == k[1..]
    ensures q < |PointsFrom(n, m, v)| && PointsFrom(n, m, v)[q] == k
  {
    FromNext(n, m, v, q);
    hide PointsFrom, Points;
    assert k == [v] + k[1..];
  }

  lemma HitLater(n: nat, m: int, v: int, k: seq<int>, p: nat)
    requires 0 <= m
    requires n >= 2 && -m <= v <= m && p < |PointsFrom(n, m, v + 1)| && PointsFrom(n, m, v + 1)[p] == k
    ensures var q := |Points(n - 1, m - Abs(v))| + p; q < |PointsFrom(n, m, v)| && PointsFrom(n, m, v)[q] == k
  {
    FromNext(n, m, v, |Points(n - 1, m - Abs(v))| + p);
    hide PointsFrom, Points;
  }

  lemma FromIs(n: nat, m: int, v: int)
    requires 0 <= m
    requires n >= 2 && -m <= v <= m
    ensures PointsFrom(n, m, v) == Prefixed(v, Points(n - 1, m - Abs(v))) + PointsFrom(n, m, v + 1)
  {
  }

  lemma JoinAt<T>(a: seq<T>, b: seq<T>)
    ensures forall p :: 0 <= p < |a| ==> (a + b)[p] == a[p]
    ensures forall p :: |a| <= p < |a + b| ==> (a + b)[p] == b[p - |a|]
  {
  }

  /** The rows from a first coordinate on: its own, then those of the next. */
  lemma FromNext(n: nat, m: int, v: int, p: nat)
    requires 0 <= m
    requires n >= 2 && -m <= v <= m
    ensures var rows, from := Points(n - 1, m - Abs(v)), PointsFrom(n, m, v);
      && |from| == |rows| + |PointsFrom(n, m, v + 1)|
      && (p < |rows| ==> from[p] == [v] + rows[p])
      && (|rows| <= p < |from| ==> from[p] == PointsFrom(n, m, v + 1)[p - |rows|])
  {
    FromIs(n, m, v);
    hide PointsFrom, Points;
    JoinAt(Prefixed(v, Points(n - 1, m - Abs(v))), PointsFrom(n, m, v + 1));
  }

  /** Every row is a lattice point, and its rank is its row number. */
  lemma {:induction false} RankOfPoint(n: nat, m: int, p: nat)
    requires 0 <= m
    requires n >= 1 && p < |Points(n, m)|
    ensures OnLattice(n, m, Points(n, m)[p])
    ensures Rank(m, Points(n, m)[p]) == p
    decreases n, 2 * m + 2
  {
    if n > 1 {
      RankOfPointFrom(n, m, -m, p);
    }
  }

  /** A point of first coordinate at least v that stands p places behind the first such one. */
  ghost predicate StandsAt(n: nat, m: int, v: int, k: seq<int>, p: nat)
    requires 0 <= m && n >= 2 && -m <= v <= m + 1
  {
    && OnLattice(n, m, k) && v <= k[0] <= m && Norm1(k[1..]) == m - Abs(k[0])
    && Skipped(n, m, v, k[0]) + Rank(m - Abs(k[0]), k[1..]) == p
  }

  lemma {:induction false} RankOfPointFrom(n: nat, m: int, v: int, p: nat)
    requires 0 <= m
    requires n >= 2 && -m <= v <= m + 1 && p < |PointsFrom(n, m, v)|
    ensures StandsAt(n, m, v, PointsFrom(n, m, v)[p], p)
    decreases n, m + 1 - v
  {
    LastFrom(n, m, v);
    FromNext(n, m, v, p);
    PointsCount(n - 1, m - Abs(v));
    hide PointsFrom, Points, Ways, StandsAt;
    var rows := Points(n - 1, m - Abs(v));
    if p < |rows| {
      RankOfPoint(n - 1, m - Abs(v), p);
      StandsHere(n, m, v, rows[p], p);
    } else {
      RankOfPointFrom(n, m, v + 1, p - |rows|);
      StandsLater(n, m, v, PointsFrom(n, m, v)[p], p);
    }
  }

  lemma LastFrom(n: nat, m: int, v: int)
    requires 0 <= m && n >= 2 && -m <= v <= m + 1 && PointsFrom(n, m, v) != []
    ensures v <= m && 0 <= Abs(v) <= m
  {
  }

  lemma StandsHere(n: nat, m: int, v: int, k: seq<int>, p: nat)
    requires n >= 2 && -m <= v <= m && OnLattice(n - 1, m - Abs(v), k) && Rank(m - Abs(v), k) == p
    ensures StandsAt(n, m, v, [v] + k, p)
  {
    assert ([v] + k)[1..] == k;
  }

  lemma StandsLater(n: nat, m: int, v: int, k: seq<int>, p: nat)
    requires n >= 2 && -m <= v <= m && p >= Ways(n - 1, m - Abs(v)) && StandsAt(n, m, v + 1, k, p - Ways(n - 1, m - Abs(v)))
    ensures StandsAt(n, m, v, k, p)
  {
    SkippedNext(n, m, v, k[0]);
    hide Skipped, Rank, Ways, Norm1;
  }

  /**
   * The enumeration lists every lattice point exactly once, and the rank function
   * is a bijection onto [0, Ways(n, m)) inverse to it.
   */
  lemma Bijection(n: nat, m: int)
    requires 0 <= m
    requires n >= 1
    ensures |Points(n, m)| == Ways(n, m)
    ensures forall k :: OnLattice(n, m, k) <==> k in Points(n, m)
    ensures Distinct(Points(n, m))
    ensures forall p :: 0 <= p < Ways(n, m) ==> OnLattice(n, m, Points(n, m)[p]) && Rank(m, Points(n, m)[p]) == p
    ensures forall k :: OnLattice(n, m, k) ==> Rank(m, k) < Ways(n, m) && Points(n, m)[Rank(m, k)] == k
  {
    PointsCount(n, m);
    forall p | 0 <= p < Ways(n, m)
      ensures OnLattice(n, m, Points(n, m)[p]) && Rank(m, Points(n, m)[p]) == p
    {
      RankOfPoint(n, m, p);
    }
    forall k | OnLattice(n, m, k)
      ensures Rank(m, k) < Ways(n, m) && Points(n, m)[Rank(m, k)] == k
    {
      PointAtRank(m, k);
    }
  }

  // ---- the order of the rows ----

  /** a comes before b: smaller where they first differ, but in the last coordinate the positive first. */
  predicate Earlier(a: seq<int>, b: seq<int>) {
    if a == [] || b == [] then false
    else if a[0] == b[0] then Earlier(a[1..], b[1..])
    else if |a| == 1 then a[0] > b[0]
    else a[0] < b[0]
  }

  lemma FirstAtLeast(n: nat, m: int, v: int, p: nat)
    requires 0 <= m && n >= 2 && -m <= v <= m + 1 && p < |PointsFrom(n, m, v)|
    ensures |PointsFrom(n, m, v)[p]| == n && PointsFrom(n, m, v)[p][0] >= v
  {
    RankOfPointFrom(n, m, v, p);
  }

  lemma {:induction false} RowsFromOrdered(n: nat, m: int, v: int, i: nat, j: nat)
    requires 0 <= m && n >= 2 && -m <= v <= m + 1 && i < j < |PointsFrom(n, m, v)|
    ensures Earlier(PointsFrom(n, m, v)[i], PointsFrom(n, m, v)[j])
    decreases n, m + 1 - v
  {
    var rows, rs := Points(n - 1, m - Abs(v)), PointsFrom(n, m, v);
    FromNext(n, m, v, i);
    FromNext(n, m, v, j);
    FirstAtLeast(n, m, v, i);
    FirstAtLeast(n, m, v, j);
    hide PointsFrom, Points;
    if j < |rows| {
      RowsOrdered(n - 1, m - Abs(v), i, j);
      assert rs[i] == [v] + rows[i] && rs[j] == [v] + rows[j];
      assert rs[i][1..] == rows[i] && rs[j][1..] == rows[j];
    } else if i < |rows| {
      FirstAtLeast(n, m, v + 1, j - |rows|);
      assert rs[i][0] == v;
    } else {
      RowsFromOrdered(n, m, v + 1, i - |rows|, j - |rows|);
    }
  }

  /** The rows come in this order. */
  lemma {:induction false} RowsOrdered(n: nat, m: int, i: nat, j: nat)
    requires 0 <= m && n >= 1 && i < j < |Points(n, m)|
    ensures Earlier(Points(n, m)[i], Points(n, m)[j])
    decreases n, 2 * m + 3
  {
    if n > 1 {
      RowsFromOrdered(n, m, -m, i, j);
    }
  }
}
