/** Small shared definitions. */
module Common {
  datatype Option<+T> = None | Some(value: T)

  function MinInt(x: int, y: int): int { if x <= y then x else y }

  function MaxInt(x: int, y: int): int { if x >= y then x else y }

  function MinReal(x: real, y: real): real { if x <= y then x else y }

  function MaxReal(x: real, y: real): real { if x >= y then x else y }

  function Abs(x: int): nat { if x < 0 then -x else x }

  // ---- division of reals ----

  lemma DivIs(x: real, d: real, q: real)
    requires d != 0.0 && q * d == x
    ensures x / d == q
  {
  }

  lemma DivBack(x: real, d: real)
    requires d != 0.0
    ensures x / d * d == x
  {
  }

  lemma DivSign(x: real, d: real)
    requires d > 0.0
    ensures x >= 0.0 ==> x / d >= 0.0
    ensures x > 0.0 ==> x / d > 0.0
  {
  }

  lemma DivSub(x: real, y: real, d: real)
    requires d != 0.0
    ensures (y - x) / d == y / d - x / d
  {
  }

  // ---- sums by group ----

  /** The sum of the values whose group is g. */
  function SumIn(xs: seq<real>, id: seq<nat>, g: nat): real
    requires |xs| == |id|
  {
    if xs == [] then 0.0
    else
      var n := |xs| - 1;
      SumIn(xs[..n], id[..n], g) + if id[n] == g then xs[n] else 0.0
  }

  function CountIn(id: seq<nat>, g: nat): nat {
    if id == [] then 0
    else
      var n := |id| - 1;
      CountIn(id[..n], g) + if id[n] == g then 1 else 0
  }

  /** No element occurs twice. */
  ghost predicate Distinct<T>(s: seq<T>) {
    forall i, j :: 0 <= i < j < |s| ==> s[i] != s[j]
  }

  lemma DistinctSlice<T>(s: seq<T>, lo: nat, hi: nat)
    requires lo <= hi <= |s| && Distinct(s)
    ensures Distinct(s[lo..hi])
  {
  }

  ghost function Elems<T>(s: seq<T>): set<T> {
    set x | x in s
  }

  /** A duplicate-free sequence drawn from a finite set is no longer than the set. */
  lemma {:induction false} DistinctBound<T>(s: seq<T>, u: set<T>)
    requires Distinct(s)
    requires forall x :: x in s ==> x in u
    ensures |s| <= |u|
    ensures |s| == |u| ==> Elems(s) == u
    decreases |s|
  {
    if s != [] {
      var n := |s| - 1;
      var last, init := s[n], s[..n];
      assert forall x :: x in init ==> x in u - {last};
      DistinctBound(init, u - {last});
      assert Elems(s) == Elems(init) + {last} by { assert s == init + [last]; }
    }
  }

  /** A list without repeats is as long as its set is large. */
  lemma {:induction false} ElemsSize<T>(s: seq<T>)
    requires Distinct(s)
    ensures |Elems(s)| == |s|
  {
    if s != [] {
      var n := |s| - 1;
      DistinctSnoc(s[..n], s[n]);
      assert s == s[..n] + [s[n]];
      ElemsSize(s[..n]);
      assert Elems(s) == Elems(s[..n]) + {s[n]};
    }
  }

  lemma {:induction false} DistinctMultiset<T>(s: seq<T>)
    ensures Distinct(s) <==> forall x :: multiset(s)[x] <= 1
  {
    if s != [] {
      var n := |s| - 1;
      var last, init := s[n], s[..n];
      DistinctMultiset(init);
      assert s == init + [last];
      assert multiset(s) == multiset(init) + multiset{last};
      if Distinct(s) {
        assert last !in init;
        assert multiset(init)[last] == 0;
      } else {
        var i, j :| 0 <= i < j < |s| && s[i] == s[j];
        if j < n {
          assert !Distinct(init) by { assert init[i] == init[j]; }
          var x :| multiset(init)[x] > 1;
          assert multiset(s)[x] > 1;
        } else {
          assert init[i] == last;
          assert last in multiset(init);
          assert multiset(s)[last] > 1;
        }
      }
    }
  }

  lemma DistinctPermutation<T>(s: seq<T>, t: seq<T>)
    requires Distinct(s) && multiset(s) == multiset(t)
    ensures Distinct(t)
  {
    DistinctMultiset(s);
    DistinctMultiset(t);
  }

  lemma DistinctSnoc<T>(init: seq<T>, x: T)
    ensures Distinct(init + [x]) <==> Distinct(init) && x !in init
  {
    var s := init + [x];
    if Distinct(s) {
      forall i, j | 0 <= i < j < |init|
        ensures init[i] != init[j]
      {
        assert s[i] != s[j];
      }
      forall i | 0 <= i < |init|
        ensures init[i] != x
      {
        assert s[i] != s[|init|];
      }
    }
  }

  /** Where everything lands when c is put in at place p. */
  lemma Spliced<T>(s: seq<T>, p: nat, c: T)
    requires p <= |s|
    ensures var t := s[..p] + [c] + s[p..];
      && |t| == |s| + 1 && t[p] == c
      && (forall k :: 0 <= k < p ==> t[k] == s[k])
      && (forall k :: p < k < |t| ==> t[k] == s[k - 1])
  {
  }

  lemma SplicedMultiset<T>(s: seq<T>, p: nat, c: T)
    requires p <= |s|
    ensures multiset(s[..p] + [c] + s[p..]) == multiset(s) + multiset{c}
  {
    assert s == s[..p] + s[p..];
  }

  lemma Removed<T>(s: seq<T>, i: nat)
    requires i < |s|
    ensures multiset(s[..i] + s[i + 1..]) == multiset(s) - multiset{s[i]}
    ensures multiset(s) == multiset(s[..i] + s[i + 1..]) + multiset{s[i]}
  {
    assert s == s[..i] + [s[i]] + s[i + 1..];
  }

  lemma Sizes<T>(s: seq<T>, t: seq<T>)
    requires multiset(s) == multiset(t)
    ensures |s| == |t|
    ensures forall x :: x in s <==> x in t
  {
    assert |multiset(s)| == |s| && |multiset(t)| == |t|;
    assert forall x :: x in s <==> x in multiset(s);
    assert forall x :: x in t <==> x in multiset(t);
  }

  /** The numbers below n. */
  ghost function Upto(n: nat): (r: set<nat>)
    ensures |r| == n
    ensures forall i: nat :: i in r <==> i < n
  {
    if n == 0 then {} else Upto(n - 1) + {n - 1}
  }
}
