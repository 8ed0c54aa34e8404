/** The one-hop neighbours of a lattice point: one unit moved between two coordinates. */
module Neighbors {
  import opened Common
  import opened Lattice
  import opened LatticeIndex

  function Sign(x: int): int { if x > 0 then 1 else -1 }

  /** From k to l one unit went from coordinate i, towards zero, to coordinate j, away from zero. */
  ghost predicate Moved(k: seq<int>, l: seq<int>, i: int, j: int) {
    && |l| == |k| && 0 <= i < |k| && 0 <= j < |k| && i != j
    && k[i] != 0 && l[i] == k[i] - Sign(k[i])
    && Abs(l[j]) == Abs(k[j]) + 1 && (k[j] == 0 || l[j] == k[j] + Sign(k[j]))
    && forall x :: 0 <= x < |k| && x != i && x != j ==> l[x] == k[x]
  }

  ghost predicate Adjacent(k: seq<int>, l: seq<int>) {
    exists i, j :: Moved(k, l, i, j)
  }

  lemma AdjacentSymmetric(k: seq<int>, l: seq<int>)
    ensures Adjacent(k, l) <==> Adjacent(l, k)
  {
    if i, j :| Moved(k, l, i, j) {
      assert Moved(l, k, j, i);
    }
    if i, j :| Moved(l, k, i, j) {
      assert Moved(k, l, j, i);
    }
  }

  lemma {:induction false} Norm1Update(k: seq<int>, i: nat, v: int)
    requires i < |k|
    ensures Norm1(k[i := v]) == Norm1(k) - Abs(k[i]) + Abs(v)
  {
    var l := k[i := v];
    if i > 0 {
      Norm1Update(k[1..], i - 1, v);
      assert l[1..] == k[1..][i - 1 := v];
    } else {
      assert l[1..] == k[1..];
    }
  }

  lemma MovedIsUpdate(k: seq<int>, l: seq<int>, i: nat, j: nat)
    requires i < |k| && j < |k| && i != j && k[i] != 0
    ensures Moved(k, l, i, j) <==>
      exists v :: l == k[i := k[i] - Sign(k[i])][j := v]
                  && Abs(v) == Abs(k[j]) + 1 && (k[j] == 0 || v == k[j] + Sign(k[j]))
  {
    var base := k[i := k[i] - Sign(k[i])];
    if Moved(k, l, i, j) {
      assert l == base[j := l[j]];
    }
  }

  /** A move stays on the lattice and never gives the point itself back. */
  lemma MovedOnLattice(k: seq<int>, l: seq<int>, i: int, j: int)
    requires Moved(k, l, i, j)
    ensures Norm1(l) == Norm1(k) && l != k
  {
    var v := k[i] - Sign(k[i]);
    Norm1Update(k, i, v);
    Norm1Update(k[i := v], j, l[j]);
    assert l == k[i := v][j := l[j]];
  }

  lemma MovedUnique(k: seq<int>, l: seq<int>, i: int, j: int, p: int, q: int)
    requires Moved(k, l, i, j) && Moved(k, l, p, q)
    ensures i == p && j == q
  {
  }

  /** Reported so far: every move out of a coordinate before i, and those out of i into one before j. */
  ghost predicate Reported(k: seq<int>, vs: seq<seq<int>>, i: int, j: int) {
    && Distinct(vs)
    && (forall l :: l in vs ==> exists p, q :: Moved(k, l, p, q) && (p < i || (p == i && q < j)))
    && (forall l, p, q :: Moved(k, l, p, q) && (p < i || (p == i && q < j)) ==> l in vs)
  }

  lemma ReportedSkip(k: seq<int>, vs: seq<seq<int>>, i: int)
    requires Reported(k, vs, i, 0) && 0 <= i < |k| && k[i] == 0
    ensures Reported(k, vs, i + 1, 0)
  {
  }

  lemma ReportedRow(k: seq<int>, vs: seq<seq<int>>, i: int)
    requires Reported(k, vs, i, |k|)
    ensures Reported(k, vs, i + 1, 0)
  {
  }

  lemma ReportedSelf(k: seq<int>, vs: seq<seq<int>>, i: int)
    requires Reported(k, vs, i, i)
    ensures Reported(k, vs, i, i + 1)
  {
  }

  /** Adding every move from i to j, each once. */
  lemma ReportedAdd(k: seq<int>, vs: seq<seq<int>>, i: int, j: int, new_: seq<seq<int>>)
    requires Reported(k, vs, i, j) && Distinct(new_)
    requires forall l :: l in new_ <==> Moved(k, l, i, j)
    ensures Reported(k, vs + new_, i, j + 1)
  {
    var ws := vs + new_;
    forall l | l in new_
      ensures l !in vs
    {
      if l in vs {
        var p, q :| Moved(k, l, p, q) && (p < i || (p == i && q < j));
        MovedUnique(k, l, i, j, p, q);
      }
    }
    forall a, b | 0 <= a < b < |ws|
      ensures ws[a] != ws[b]
    {
      if a < |vs| <= b {
        assert ws[a] in vs && ws[b] in new_;
      }
    }
  }

  /** The rows of reported points. */
  ghost predicate RowsOf(m: nat, n: nat, rows: seq<nat>, vs: seq<seq<int>>) {
    && n >= 1 && |rows| == |vs|
    && forall q :: 0 <= q < |vs| ==> OnLattice(n, m, vs[q]) && rows[q] == Rank(m, vs[q])
  }

  method Report(li: Index, nb: array<int>, rows: seq<nat>, ghost vs: seq<seq<int>>) returns (r: seq<nat>)
    requires li.Valid() && OnLattice(li.n, li.m, nb[..]) && RowsOf(li.m, li.n, rows, vs)
    ensures RowsOf(li.m, li.n, r, vs + [nb[..]])
  {
    var row := li.Lookup(nb);
    r := rows + [row];
  }

  /** All moves from coordinate i to coordinate j; the buffer is restored. */
  method MovesInto(li: Index, ghost k: seq<int>, nb: array<int>, i: nat, j: nat, kj: int, rows: seq<nat>, ghost vs: seq<seq<int>>)
    returns (r: seq<nat>, ghost us: seq<seq<int>>)
    requires li.Valid() && OnLattice(li.n, li.m, k) && i < |k| && j < |k| && i != j && k[i] != 0 && kj == k[j]
    requires nb[..] == k[i := k[i] - Sign(k[i])]
    requires RowsOf(li.m, li.n, rows, vs) && Reported(k, vs, i, j)
    modifies nb
    ensures nb[..] == old(nb[..])
    ensures RowsOf(li.m, li.n, r, us) && Reported(k, us, i, j + 1)
    ensures |us| > |vs|
  {
    hide Reported, RowsOf;
    ghost var base := nb[..];
    ghost var news;
    if kj == 0 {
      nb[j] := 1;
      ghost var l1 := nb[..];
      assert l1 == base[j := 1];
      MovedOnLattice(k, l1, i, j);
      r := Report(li, nb, rows, vs);
      nb[j] := -1;
      ghost var l2 := nb[..];
      assert l2 == base[j := -1];
      MovedOnLattice(k, l2, i, j);
      r := Report(li, nb, r, vs + [l1]);
      news := [l1, l2];
      assert vs + [l1] + [l2] == vs + news;
      assert l1[j] != l2[j];
    } else {
      nb[j] := kj + (if kj > 0 then 1 else -1);
      ghost var l1 := nb[..];
      assert l1 == base[j := kj + Sign(kj)];
      MovedOnLattice(k, l1, i, j);
      r := Report(li, nb, rows, vs);
      news := [l1];
    }
    MovesAre(k, base, i, j, news);
    ReportedAdd(k, vs, i, j, news);
    us := vs + news;
    nb[j] := kj;
    assert nb[..] == base;
  }

  lemma MovesAre(k: seq<int>, base: seq<int>, i: nat, j: nat, news: seq<seq<int>>)
    requires i < |k| && j < |k| && i != j && k[i] != 0 && base == k[i := k[i] - Sign(k[i])]
    requires news == if k[j] == 0 then [base[j := 1], base[j := -1]] else [base[j := k[j] + Sign(k[j])]]
    ensures forall l :: l in news <==> Moved(k, l, i, j)
    ensures Distinct(news)
  {
    forall l
      ensures l in news <==> Moved(k, l, i, j)
    {
      MovedIsUpdate(k, l, i, j);
      if Moved(k, l, i, j) {
        var v :| l == base[j := v] && Abs(v) == Abs(k[j]) + 1 && (k[j] == 0 || v == k[j] + Sign(k[j]));
        assert k[j] == 0 ==> v == 1 || v == -1;
      }
    }
    if k[j] == 0 {
      assert base[j := 1][j] != base[j := -1][j];
    }
  }

  /**
   * Every neighbour exactly once, by row number: the rows are in range, distinct,
   * never the point's own, and there is at least one when two coordinates share a
   * positive budget.
   */
  method ForEachNeighbor(li: Index, k: array<int>) returns (rows: seq<nat>, ghost vs: seq<seq<int>>)
    requires li.Valid() && OnLattice(li.n, li.m, k[..])
    ensures RowsOf(li.m, li.n, rows, vs)
    ensures forall l :: l in vs <==> Adjacent(k[..], l)
    ensures Distinct(rows)
    ensures forall q :: 0 <= q < |rows| ==> rows[q] < Ways(li.n, li.m) && rows[q] != Rank(li.m, k[..])
    ensures li.n >= 2 && li.m >= 1 ==> rows != []
  {
    hide Reported, RowsOf, Moved;
    var n := li.n;
    ghost var k0 := k[..];
    var nb := new int[n](i requires 0 <= i < k.Length reads k => k[i]);
    assert nb[..] == k0;
    rows, vs := [], [];
    var i := 0;
    NothingReported(k0);
    RowsEmpty(li.m, n);
    while i < n
      invariant 0 <= i <= n
      invariant nb[..] == k0
      invariant RowsOf(li.m, n, rows, vs) && Reported(k0, vs, i, 0)
      invariant n >= 2 && vs == [] ==> forall x :: 0 <= x < i ==> k0[x] == 0
    {
      if k[i] == 0 {
        ReportedSkip(k0, vs, i);
      } else {
        rows, vs := MovesOut(li, k, k0, nb, i, rows, vs);
      }
      i := i + 1;
    }
    AllReported(li.m, n, k0, rows, vs);
    if n >= 2 && vs == [] {
      ZeroNorm(k0);
    }
  }

  method MovesOut(li: Index, k: array<int>, ghost k0: seq<int>, nb: array<int>, i: nat, rows: seq<nat>, ghost vs: seq<seq<int>>)
    returns (r: seq<nat>, ghost us: seq<seq<int>>)
    requires li.Valid() && OnLattice(li.n, li.m, k0) && k[..] == k0 && nb[..] == k0 && i < |k0| && k0[i] != 0
    requires RowsOf(li.m, li.n, rows, vs) && Reported(k0, vs, i, 0)
    requires nb != k
    modifies nb
    ensures nb[..] == k0
    ensures RowsOf(li.m, li.n, r, us) && Reported(k0, us, i + 1, 0)
    ensures |k0| >= 2 ==> us != []
  {
    hide Reported, RowsOf, Moved;
    nb[i] := k[i] - Sign(k[i]);
    ghost var base := k0[i := k0[i] - Sign(k0[i])];
    assert nb[..] == base;
    r, us := rows, vs;
    var j := 0;
    while j < li.n
      invariant 0 <= j <= li.n && nb[..] == base
      invariant RowsOf(li.m, li.n, r, us) && Reported(k0, us, i, j)
      invariant us == [] ==> j == 0 || (j == 1 && i == 0)
    {
      if j == i {
        ReportedSelf(k0, us, i);
      } else {
        r, us := MovesInto(li, k0, nb, i, j, k[j], r, us);
      }
      j := j + 1;
    }
    ReportedRow(k0, us, i);
    nb[i] := k[i];
    assert nb[..] == k0;
  }

  lemma NothingReported(k: seq<int>)
    ensures Reported(k, [], 0, 0)
  {
  }

  lemma RowsEmpty(m: nat, n: nat)
    requires n >= 1
    ensures RowsOf(m, n, [], [])
  {
  }

  lemma {:induction false} ZeroNorm(k: seq<int>)
    requires forall x :: 0 <= x < |k| ==> k[x] == 0
    ensures Norm1(k) == 0
  {
    if k != [] { ZeroNorm(k[1..]); }
  }

  lemma AllReported(m: nat, n: nat, k: seq<int>, rows: seq<nat>, vs: seq<seq<int>>)
    requires OnLattice(n, m, k) && RowsOf(m, n, rows, vs) && Reported(k, vs, n, 0)
    ensures forall l :: l in vs <==> Adjacent(k, l)
    ensures Distinct(rows)
    ensures forall q :: 0 <= q < |rows| ==> rows[q] < Ways(n, m) && rows[q] != Rank(m, k)
    ensures |rows| == |vs|
  {
    Bijection(n, m);
    forall q | 0 <= q < |rows|
      ensures rows[q] < Ways(n, m) && rows[q] != Rank(m, k)
    {
      assert vs[q] in vs;
      var i, j :| Moved(k, vs[q], i, j);
      MovedOnLattice(k, vs[q], i, j);
    }
    forall p, q | 0 <= p < q < |rows|
      ensures rows[p] != rows[q]
    {
      assert vs[p] != vs[q];
      assert Points(n, m)[rows[p]] == vs[p] && Points(n, m)[rows[q]] == vs[q];
    }
  }
}
