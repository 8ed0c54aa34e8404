/**
 * Percentile ranks over a cross-section: every finite entry is replaced by its
 * average rank among the finite entries, scaled to [0, 1]; NaN stays NaN.
 */
module CrossSection {
  import opened Common

  /** One value per asset; None is NaN. */
  type Row = seq<Option<real>>

  /** How many finite entries satisfy p. */
  function Count(x: Row, p: real -> bool): (r: nat)
    ensures r <= |x|
  {
    if x == [] then 0
    else Count(x[..|x| - 1], p) + if x[|x| - 1].Some? && p(x[|x| - 1].value) then 1 else 0
  }

  function Below(v: real): real -> bool { (u: real) => u < v }

  function Same(v: real): real -> bool { (u: real) => u == v }

  function Any(): real -> bool { (u: real) => true }

  /** Among m finite values of which `less` are smaller and `equal` are the same: the average rank, scaled. */
  function PctOf(less: nat, equal: nat, m: nat): real {
    if m > 1 then ((less + 1 + (less + equal)) as real * 0.5 - 1.0) / (m - 1) as real else 0.5
  }

  function Pct(x: Row, v: real): real {
    PctOf(Count(x, Below(v)), Count(x, Same(v)), Count(x, Any()))
  }

  function PctRow(x: Row): (r: Row)
    ensures |r| == |x|
  {
    seq(|x|, i requires 0 <= i < |x| => if x[i].Some? then Some(Pct(x, x[i].value)) else None)
  }

  // ---- the counts as positions ----

  ghost function Where(x: Row, p: real -> bool): set<nat> {
    set i: nat | i < |x| && x[i].Some? && p(x[i].value)
  }

  lemma {:induction false} CountIsPositions(x: Row, p: real -> bool)
    ensures Count(x, p) == |Where(x, p)|
  {
    if x != [] {
      var n := |x| - 1;
      CountIsPositions(x[..n], p);
      assert Where(x, p) == Where(x[..n], p) + if x[n].Some? && p(x[n].value) then {n} else {};
    }
  }

  // ---- the method ----

  /** `idx` lists the finite positions of x once each. */
  ghost predicate Lists(x: Row, idx: seq<nat>) {
    && Distinct(idx)
    && forall i: nat :: i in idx <==> i < |x| && x[i].Some?
  }

  ghost predicate Ascending(x: Row, idx: seq<nat>) {
    && (forall k :: 0 <= k < |idx| ==> idx[k] < |x| && x[idx[k]].Some?)
    && (forall j, k :: 0 <= j < k < |idx| ==> x[idx[j]].value <= x[idx[k]].value)
  }

  method FinitePositions(x: array<Option<real>>) returns (idx: seq<nat>)
    ensures Lists(x[..], idx)
  {
    idx := [];
    var i := 0;
    while i < x.Length
      invariant 0 <= i <= x.Length
      invariant Distinct(idx)
      invariant forall k: nat :: k in idx <==> k < i && x[k].Some?
    {
      if x[i].Some? {
        DistinctSnoc(idx, i);
        idx := idx + [i];
      }
      i := i + 1;
    }
  }

  lemma ListsPermuted(x: Row, s: seq<nat>, t: seq<nat>)
    requires Lists(x, s) && multiset(s) == multiset(t)
    ensures Lists(x, t)
  {
    DistinctPermutation(s, t);
    assert forall i :: i in t <==> i in multiset(t);
    assert forall i :: i in s <==> i in multiset(s);
  }

  lemma InsertAscending(x: Row, r: seq<nat>, p: nat, v: nat)
    requires Ascending(x, r) && v < |x| && x[v].Some? && p <= |r|
    requires p > 0 ==> x[r[p - 1]].value <= x[v].value
    requires forall k :: p <= k < |r| ==> x[r[k]].value >= x[v].value
    ensures Ascending(x, r[..p] + [v] + r[p..])
    ensures multiset(r[..p] + [v] + r[p..]) == multiset(r) + multiset{v}
  {
    var s := r[..p] + [v] + r[p..];
    Spliced(r, p, v);
    InsertValues(x, r, s, p, v);
    SplicedMultiset(r, p, v);
  }

  lemma InsertValues(x: Row, r: seq<nat>, s: seq<nat>, p: nat, v: nat)
    requires Ascending(x, r) && v < |x| && x[v].Some? && p <= |r|
    requires p > 0 ==> x[r[p - 1]].value <= x[v].value
    requires forall k :: p <= k < |r| ==> x[r[k]].value >= x[v].value
    requires |s| == |r| + 1 && s[p] == v
    requires forall k :: 0 <= k < p ==> s[k] == r[k]
    requires forall k :: p < k < |s| ==> s[k] == r[k - 1]
    ensures Ascending(x, s)
  {
    forall j, k | 0 <= j < k < |s|
      ensures x[s[j]].value <= x[s[k]].value
    {
      if k == p {
        assert x[r[j]].value <= x[r[p - 1]].value;
      } else if k > p && j != p {
        assert x[r[if j < p then j else j - 1]].value <= x[r[k - 1]].value;
      }
    }
  }

  method InsertByValue(x: array<Option<real>>, s: seq<nat>, v: nat) returns (r: seq<nat>)
    requires Ascending(x[..], s) && v < x.Length && x[v].Some?
    ensures Ascending(x[..], r) && multiset(r) == multiset(s) + multiset{v}
  {
    var p := |s|;
    while p > 0 && x[s[p - 1]].value > x[v].value
      invariant 0 <= p <= |s|
      invariant forall k :: p <= k < |s| ==> x[s[k]].value > x[v].value
    {
      p := p - 1;
    }
    InsertAscending(x[..], s, p, v);
    r := s[..p] + [v] + s[p..];
  }

  /** The library sort of the positions by value; how it breaks ties is left open to its caller. */
  method SortByValue(x: array<Option<real>>, idx: seq<nat>) returns (r: seq<nat>)
    requires Lists(x[..], idx)
    ensures Lists(x[..], r) && Ascending(x[..], r)
  {
    r := [];
    var i := 0;
    while i < |idx|
      invariant 0 <= i <= |idx|
      invariant Ascending(x[..], r) && multiset(r) == multiset(idx[..i])
    {
      assert idx[i] in idx;
      assert idx[..i + 1] == idx[..i] + [idx[i]];
      r := InsertByValue(x, r, idx[i]);
      i := i + 1;
    }
    assert idx[..i] == idx;
    ListsPermuted(x[..], idx, r);
  }

  /** In sorted order, the group [i, j) of one value: what the counts say about it. */
  ghost predicate Group(x: Row, idx: seq<nat>, i: nat, j: nat) {
    && i < j <= |idx|
    && (forall k :: 0 <= k < |idx| ==> idx[k] < |x|)
    && forall k :: i <= k < j ==> PctRow(x)[idx[k]] == Some(PctOf(i, j - i, |idx|))
  }

  lemma GroupCounts(x: Row, idx: seq<nat>, i: nat, j: nat)
    requires Lists(x, idx) && Ascending(x, idx)
    requires i < j <= |idx|
    requires forall k :: i <= k < j ==> x[idx[k]].value == x[idx[i]].value
    requires i > 0 ==> x[idx[i - 1]].value < x[idx[i]].value
    requires j < |idx| ==> x[idx[j]].value != x[idx[i]].value
    ensures Group(x, idx, i, j)
  {
    hide Lists;
    var v := x[idx[i]].value;
    assert i > 0 ==> forall k :: 0 <= k < i ==> x[idx[k]].value <= x[idx[i - 1]].value;
    assert j < |idx| ==> forall k :: j <= k < |idx| ==> x[idx[k]].value >= x[idx[j]].value > v;
    SlicePositions(x, idx, 0, i, Below(v));
    SlicePositions(x, idx, i, j, Same(v));
    SlicePositions(x, idx, 0, |idx|, Any());
    assert Pct(x, v) == PctOf(i, j - i, |idx|);
  }

  /** A predicate that holds of exactly one slice of the sorted positions counts that slice. */
  lemma SlicePositions(x: Row, idx: seq<nat>, lo: nat, hi: nat, p: real -> bool)
    requires Lists(x, idx) && Ascending(x, idx) && lo <= hi <= |idx|
    requires forall k :: 0 <= k < |idx| ==> (p(x[idx[k]].value) <==> lo <= k < hi)
    ensures Count(x, p) == hi - lo
  {
    var t := idx[lo..hi];
    CountIsPositions(x, p);
    forall i | i in Where(x, p)
      ensures i in t
    {
      assert i in idx;
      var k :| 0 <= k < |idx| && idx[k] == i;
      assert t[k - lo] == i;
    }
    forall i | i in t
      ensures i in Where(x, p)
    {
      var k :| 0 <= k < |t| && t[k] == i;
      assert idx[lo + k] == i;
    }
    assert Distinct(t);
    ElemsSize(t);
    assert Elems(t) == Where(x, p);
  }

  /** Where the group of equal values that starts at place i ends. */
  method GroupEnd(x: array<Option<real>>, ghost x0: Row, idx: seq<nat>, i: nat) returns (j: nat)
    requires |x0| == x.Length && i < |idx| && forall k :: 0 <= k < |idx| ==> idx[k] < x.Length && x0[idx[k]].Some?
    requires forall k :: i <= k < |idx| ==> x[idx[k]] == x0[idx[k]]
    ensures i < j <= |idx| && forall k :: i <= k < j ==> x0[idx[k]].value == x0[idx[i]].value
    ensures j < |idx| ==> x0[idx[j]].value != x0[idx[i]].value
  {
    j := i + 1;
    while j < |idx| && x[idx[j]] == x[idx[i]]
      invariant i < j <= |idx|
      invariant forall k :: i <= k < j ==> x0[idx[k]].value == x0[idx[i]].value
    {
      j := j + 1;
    }
  }

  method PctRank(x: array<Option<real>>)
    modifies x
    ensures x[..] == PctRow(old(x[..]))
  {
    hide Lists, PctRow, Distinct;
    ghost var x0 := x[..];
    var idx := FinitePositions(x);
    ListsFacts(x0, idx);
    if idx == [] { return; }
    idx := SortByValue(x, idx);
    ListsFacts(x0, idx);
    var m := |idx|;
    var i := 0;
    while i < m
      invariant 0 <= i <= m == |idx|
      invariant 0 < i < m ==> x0[idx[i - 1]].value < x0[idx[i]].value
      invariant forall k :: 0 <= k < i ==> x[idx[k]] == PctRow(x0)[idx[k]]
      invariant forall k :: i <= k < m ==> x[idx[k]] == x0[idx[k]]
      invariant forall p :: 0 <= p < x.Length && p !in idx ==> x[p] == x0[p]
    {
      var j := GroupEnd(x, x0, idx, i);
      GroupCounts(x0, idx, i, j);
      FillGroup(x, x0, idx, i, j);
      i := j;
    }
    Covered(x0, idx, x[..]);
  }

  lemma ListsFacts(x: Row, idx: seq<nat>)
    requires Lists(x, idx)
    ensures forall k :: 0 <= k < |idx| ==> idx[k] < |x| && x[idx[k]].Some?
    ensures idx == [] ==> x == PctRow(x)
  {
    forall k | 0 <= k < |idx|
      ensures idx[k] < |x| && x[idx[k]].Some?
    {
      assert idx[k] in idx;
    }
    if idx == [] {
      forall i: nat | i < |x|
        ensures x[i].None?
      {
        assert i !in idx;
      }
    }
  }

  lemma Covered(x0: Row, idx: seq<nat>, x: Row)
    requires Lists(x0, idx) && |x| == |x0|
    requires forall k :: 0 <= k < |idx| ==> idx[k] < |x| && x[idx[k]] == PctRow(x0)[idx[k]]
    requires forall p :: 0 <= p < |x| && p !in idx ==> x[p] == x0[p]
    ensures x == PctRow(x0)
  {
    forall p: nat | p < |x|
      ensures x[p] == PctRow(x0)[p]
    {
      if p in idx {
        var q :| 0 <= q < |idx| && idx[q] == p;
      }
    }
  }

  /** Writes one group's percentile. */
  method FillGroup(x: array<Option<real>>, ghost x0: Row, idx: seq<nat>, i: nat, j: nat)
    requires |x0| == x.Length && Lists(x0, idx) && Group(x0, idx, i, j)
    requires forall k :: 0 <= k < |idx| ==> idx[k] < x.Length
    modifies x
    ensures forall k :: i <= k < j ==> x[idx[k]] == PctRow(x0)[idx[k]]
    ensures forall k :: 0 <= k < |idx| && !(i <= k < j) ==> x[idx[k]] == old(x[idx[k]])
    ensures forall p :: 0 <= p < x.Length && p !in idx ==> x[p] == old(x[p])
  {
    var m := |idx|;
    var avgRank := (i + 1 + j) as real * 0.5;
    var pct := if m > 1 then (avgRank - 1.0) / (m - 1) as real else 0.5;
    assert pct == PctOf(i, j - i, m);
    var k := i;
    while k < j
      invariant i <= k <= j
      invariant forall q :: i <= q < k ==> x[idx[q]] == Some(pct)
      invariant forall q :: 0 <= q < m && !(i <= q < j) ==> x[idx[q]] == old(x[idx[q]])
      invariant forall p :: 0 <= p < x.Length && p !in idx ==> x[p] == old(x[p])
    {
      x[idx[k]] := Some(pct);
      k := k + 1;
    }
  }
}
