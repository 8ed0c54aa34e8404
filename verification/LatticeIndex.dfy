/**
 * The enumeration as it is run, the counting table, the row lookup, and the
 * one-hop neighbours of a point.
 */
module LatticeIndex {
  import opened Common
  import opened Lattice

  function AllPrefixed(head: seq<int>, rows: seq<seq<int>>): (r: seq<seq<int>>)
    ensures |r| == |rows|
  {
    seq(|rows|, p requires 0 <= p < |rows| => head + rows[p])
  }

  lemma PrefixedTwice(head: seq<int>, v: int, rows: seq<seq<int>>, more: seq<seq<int>>)
    ensures AllPrefixed(head, Prefixed(v, rows) + more) == AllPrefixed(head + [v], rows) + AllPrefixed(head, more)
  {
    assert forall p :: 0 <= p < |rows| ==> head + ([v] + rows[p]) == (head + [v]) + rows[p];
  }

  /** One level of the recursion: coordinate i onwards, with `rem` left of the budget. */
  method Recurse(k: array<int>, i: nat, rem: int, out: seq<seq<int>>) returns (r: seq<seq<int>>)
    requires i < k.Length && rem >= 0
    modifies k
    ensures k[..i] == old(k[..i])
    ensures r == out + AllPrefixed(old(k[..i]), Points(k.Length - i, rem))
    decreases k.Length - i
  {
    r := out;
    ghost var head := k[..i];
    if i == k.Length - 1 {
      r := LastCoordinate(k, i, rem, out);
      return;
    }
    ghost var rest := PointsFrom(k.Length - i, rem, -rem);
    var v: int := -rem;
    while v <= rem
      invariant -rem <= v <= rem + 1
      invariant k[..i] == head
      invariant r + AllPrefixed(head, PointsFrom(k.Length - i, rem, v)) == out + AllPrefixed(head, rest)
      decreases rem - v + 1
    {
      k[i] := v;
      assert k[..i + 1] == head + [v];
      ghost var before := r;
      var left := rem - Abs(v);
      r := Recurse(k, i + 1, left, r);
      assert k[..i] == k[..i + 1][..i];
      PrefixedTwice(head, v, Points(k.Length - i - 1, left), PointsFrom(k.Length - i, rem, v + 1));
      v := v + 1;
    }
    k[i] := 0;
    assert AllPrefixed(head, []) == [];
  }

  /** The last coordinate takes all that is left, with either sign. */
  method LastCoordinate(k: array<int>, i: nat, rem: int, out: seq<seq<int>>) returns (r: seq<seq<int>>)
    requires i == k.Length - 1 && rem >= 0
    modifies k
    ensures k[..i] == old(k[..i])
    ensures r == out + AllPrefixed(old(k[..i]), Points(1, rem))
  {
    hide Points, AllPrefixed;
    r := out;
    ghost var head := k[..i];
    k[i] := rem;
    assert k[..] == head + [rem];
    r := r + [k[..]];
    if rem != 0 {
      k[i] := -rem;
      assert k[..] == head + [-rem];
      r := r + [k[..]];
    }
    k[i] := 0;
    LastPoints(head, rem);
  }

  lemma LastPoints(head: seq<int>, rem: int)
    requires rem >= 0
    ensures AllPrefixed(head, Points(1, rem)) == if rem == 0 then [head + [0]] else [head + [rem], head + [-rem]]
  {
  }

  method BuildLattice(n: nat, m: nat) returns (out: seq<seq<int>>)
    requires n >= 1
    ensures out == Points(n, m)
  {
    var k := new int[n](_ => 0);
    out := Recurse(k, 0, m, []);
    assert k[..0] == [];
    forall p | 0 <= p < |Points(n, m)|
      ensures AllPrefixed([], Points(n, m))[p] == Points(n, m)[p]
    {
      assert [] + Points(n, m)[p] == Points(n, m)[p];
    }
  }

  class Index {
    const n: nat
    const m: nat
    const nWays: array2<nat>

    ghost predicate Valid()
      reads nWays
    {
      && n >= 1
      && nWays.Length0 == n && nWays.Length1 == m + 1
      && forall i, r :: 0 <= i < n && 0 <= r <= m ==> nWays[i, r] == Ways(n - i, r)
    }

    constructor (n: nat, m: nat)
      requires n >= 1
      ensures Valid() && this.n == n && this.m == m && fresh(nWays)
    {
      this.n, this.m := n, m;
      nWays := new nat[n, m + 1]((i, r) => if r == 0 then 1 else 2);
      new;
      FillTable();
    }

    method FillTable()
      requires n >= 1 && nWays.Length0 == n && nWays.Length1 == m + 1
      requires forall r :: 0 <= r <= m ==> nWays[n - 1, r] == Ways(1, r)
      modifies nWays
      ensures Valid()
    {
      var i: int := n - 2;
      while i >= 0
        invariant -1 <= i <= n - 2
        invariant forall j, r :: i < j < n && 0 <= r <= m ==> nWays[j, r] == Ways(n - j, r)
      {
        var r := 0;
        while r <= m
          invariant 0 <= r <= m + 1
          invariant forall q :: 0 <= q < r ==> nWays[i, q] == Ways(n - i, q)
          invariant forall j, q :: i < j < n && 0 <= q <= m ==> nWays[j, q] == Ways(n - j, q)
        {
          var s := nWays[i + 1, r];
          var u := 1;
          ghost var base := s;
          while u <= r
            invariant 1 <= u <= r + 1
            invariant s + 2 * WaysBelow(n - i - 1, r - u + 1) == base + 2 * WaysBelow(n - i - 1, r)
          {
            s := s + 2 * nWays[i + 1, r - u];
            u := u + 1;
          }
          nWays[i, r] := s;
          r := r + 1;
        }
        i := i - 1;
      }
    }

    function Total(): (r: nat)
      requires Valid()
      reads nWays
      ensures r == |Points(n, m)|
    {
      PointsCount(n, m);
      nWays[0, m]
    }

    /** The row of a lattice point, by table lookups alone. */
    method Lookup(k: array<int>) returns (idx: nat)
      requires Valid() && OnLattice(n, m, k[..])
      ensures idx == Rank(m, k[..])
    {
      idx := 0;
      var rem: nat := m;
      var i := 0;
      assert k[0..] == k[..];
      while i < n - 1
        invariant 0 <= i <= n - 1 && rem <= m
        invariant Norm1(k[i..]) == rem
        invariant idx + Rank(rem, k[i..]) == Rank(m, k[..])
      {
        ghost var tail := k[i..];
        assert tail[0] == k[i] && tail[1..] == k[i + 1..];
        var v: int := -(rem as int);
        ghost var base := idx;
        while v < k[i]
          invariant -(rem as int) <= v <= k[i] <= rem
          invariant idx == base + Skipped(n - i, rem, -(rem as int), v)
        {
          SkippedSplit(n - i, rem, -(rem as int), v, v + 1);
          assert Skipped(n - i, rem, v + 1, v + 1) == 0;
          idx := idx + nWays[i + 1, rem - Abs(v)];
          v := v + 1;
        }
        rem := rem - Abs(k[i]);
        i := i + 1;
      }
      if rem > 0 && k[n - 1] < 0 {
        idx := idx + 1;
      }
    }
  }
}
