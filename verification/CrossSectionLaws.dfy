/** What percentile ranks mean, and why they may be taken on the compacted pool. */
module CrossSectionLaws {
  import opened Common
  import opened CrossSection

  // ---- order and range ----

  lemma {:induction false} CountSplit(x: Row, v: real, w: real)
    requires v < w
    ensures Count(x, Below(v)) + Count(x, Same(v)) <= Count(x, Below(w))
    ensures Count(x, Below(v)) + Count(x, Same(v)) <= Count(x, Any())
  {
    if x != [] {
      CountSplit(x[..|x| - 1], v, w);
    }
  }

  lemma {:induction false} CountSelf(x: Row, i: nat)
    requires i < |x| && x[i].Some?
    ensures Count(x, Same(x[i].value)) >= 1
  {
    if i < |x| - 1 {
      CountSelf(x[..|x| - 1], i);
    }
  }

  lemma Ratio(a: int, b: int, d: int)
    requires d > 0 && a < b
    ensures a as real / d as real < b as real / d as real
  {
    var x, y, z := a as real, b as real, d as real;
    DivSign(y - x, z);
    DivSub(x, y, z);
  }

  lemma UnitRatio(a: int, d: int)
    requires 0 <= a <= d && d > 0
    ensures 0.0 <= a as real / d as real <= 1.0
  {
    var x, z := a as real, d as real;
    DivSign(x, z);
    DivSign(z - x, z);
    DivSub(x, z, z);
    DivIs(z, z, 1.0);
  }

  lemma PctTwice(less: nat, equal: nat, m: nat)
    requires m > 1
    ensures PctOf(less, equal, m) == (2 * less + equal - 1) as real / (2 * (m - 1)) as real
  {
    var n, d := (2 * less + equal - 1) as real, (m - 1) as real;
    assert ((less + 1 + (less + equal)) as real * 0.5 - 1.0) == n * 0.5;
    assert (2 * (m - 1)) as real == 2.0 * d;
    HalfDiv(n, d);
  }

  lemma HalfDiv(n: real, d: real)
    requires d > 0.0
    ensures n * 0.5 / d == n / (2.0 * d)
  {
    var q := n / (2.0 * d);
    DivBack(n, 2.0 * d);
    assert q * d == n * 0.5;
    DivIs(n * 0.5, d, q);
  }

  /** The percentile is (#smaller + (#equal - 1) / 2) / (m - 1), or one half when it is alone. */
  lemma PctMeaning(x: Row, v: real)
    ensures var m := Count(x, Any());
      Pct(x, v) == if m > 1
                   then (Count(x, Below(v)) as real + (Count(x, Same(v)) as real - 1.0) / 2.0) / (m - 1) as real
                   else 0.5
  {
  }

  /** Percentiles lie in [0, 1] and keep strict order; ties stay ties. */
  lemma PctOrder(x: Row, i: nat, j: nat)
    requires i < |x| && j < |x| && x[i].Some? && x[j].Some?
    ensures 0.0 <= Pct(x, x[i].value) <= 1.0
    ensures x[i].value < x[j].value <==> Pct(x, x[i].value) < Pct(x, x[j].value)
  {
    PctRange(x, i);
    if x[i].value < x[j].value {
      PctStrict(x, i, j);
    } else if x[i].value > x[j].value {
      PctStrict(x, j, i);
    }
  }

  lemma PctRange(x: Row, i: nat)
    requires i < |x| && x[i].Some?
    ensures 0.0 <= Pct(x, x[i].value) <= 1.0
  {
    var v, m := x[i].value, Count(x, Any());
    CountSplit(x, v, v + 1.0);
    CountSelf(x, i);
    if m > 1 {
      var less: int, equal: int := Count(x, Below(v)), Count(x, Same(v));
      PctTwice(less, equal, m);
      UnitRatio(2 * less + equal - 1, 2 * (m - 1));
    }
  }

  lemma PctStrict(x: Row, i: nat, j: nat)
    requires i < |x| && j < |x| && x[i].Some? && x[j].Some?
    requires x[i].value < x[j].value
    ensures Pct(x, x[i].value) < Pct(x, x[j].value)
  {
    var v, w, m := x[i].value, x[j].value, Count(x, Any());
    CountSplit(x, v, w);
    CountSplit(x, w, w + 1.0);
    CountSelf(x, i);
    CountSelf(x, j);
    PctTwice(Count(x, Below(v)), Count(x, Same(v)), m);
    PctTwice(Count(x, Below(w)), Count(x, Same(w)), m);
    Ratio(2 * Count(x, Below(v)) + Count(x, Same(v)) - 1, 2 * Count(x, Below(w)) + Count(x, Same(w)) - 1, 2 * (m - 1));
  }

  // ---- the total ----

  /** Sum over the finite y's of twice the x's below plus the x's equal. */
  function Wins(x: Row, y: Row): nat {
    if y == [] then 0
    else
      var last := y[|y| - 1];
      Wins(x, y[..|y| - 1]) +
      if last.Some? then 2 * Count(x, Below(last.value)) + Count(x, Same(last.value)) else 0
  }

  lemma {:induction false} WinsAppend(y: Row, last: Option<real>, x: Row)
    ensures Wins(y + [last], x) ==
      Wins(y, x) + if last.Some? then 2 * (Count(x, Any()) - Count(x, Below(last.value))) - Count(x, Same(last.value)) else 0
  {
    if x != [] {
      WinsAppend(y, last, x[..|x| - 1]);
      assert (y + [last])[..|y|] == y;
    }
  }

  lemma MulSucc(m: int, c: int)
    ensures m * (c + 1) == m * c + m
  {
  }

  lemma HalfSquare(m: int)
    requires m > 1
    ensures (m * m - m) as real / (2 * (m - 1)) as real == m as real / 2.0
  {
    var a, b := m as real, (m - 1) as real;
    assert m * m - m == m * (m - 1);
    assert (m * (m - 1)) as real == a * b;
    assert (2 * (m - 1)) as real == 2.0 * b;
    assert a * b / (2.0 * b) == a / 2.0;
  }

  /** Every pair of values is worth two between them. */
  lemma {:induction false} WinsSymmetric(x: Row, y: Row)
    ensures Wins(x, y) + Wins(y, x) == 2 * (Count(x, Any()) * Count(y, Any()))
  {
    if y == [] {
      WinsEmpty(x);
    } else {
      var init, last := y[..|y| - 1], y[|y| - 1];
      WinsSymmetric(x, init);
      assert y == init + [last];
      WinsAppend(init, last, x);
      if last.Some? {
        MulSucc(Count(x, Any()), Count(init, Any()));
      }
    }
  }

  lemma {:induction false} WinsEmpty(x: Row)
    ensures Wins([], x) == 0
  {
    if x != [] {
      WinsEmpty(x[..|x| - 1]);
    }
  }

  function SumPct(x: Row, y: Row): real {
    if y == [] then 0.0
    else SumPct(x, y[..|y| - 1]) + if y[|y| - 1].Some? then Pct(x, y[|y| - 1].value) else 0.0
  }

  lemma {:induction false} SumPctWins(x: Row, y: Row)
    requires Count(x, Any()) > 1
    ensures SumPct(x, y) == (Wins(x, y) - Count(y, Any())) as real / (2 * (Count(x, Any()) - 1)) as real
  {
    var d := 2 * (Count(x, Any()) - 1);
    if y == [] {
      assert 0.0 / d as real == 0.0;
    } else {
      var init, last := y[..|y| - 1], y[|y| - 1];
      SumPctWins(x, init);
      if last.Some? {
        var less: int, equal: int := Count(x, Below(last.value)), Count(x, Same(last.value));
        PctTwice(less, equal, Count(x, Any()));
        AddRatios(Wins(x, init) - Count(init, Any()), 2 * less + equal - 1, d);
      }
    }
  }

  lemma AddRatios(a: int, b: int, d: int)
    requires d > 0
    ensures a as real / d as real + b as real / d as real == (a + b) as real / d as real
  {
    var x, y, z := a as real, b as real, d as real;
    assert x / z + y / z == (x + y) / z;
  }

  /** Alone, every percentile is one half. */
  lemma {:induction false} SumPctAlone(x: Row, y: Row)
    requires Count(x, Any()) <= 1
    ensures SumPct(x, y) == Count(y, Any()) as real / 2.0
  {
    if y != [] {
      SumPctAlone(x, y[..|y| - 1]);
    }
  }

  /** The percentiles of a row add up to half its number of finite entries. */
  lemma SumIsHalf(x: Row)
    ensures SumPct(x, x) == Count(x, Any()) as real / 2.0
  {
    if Count(x, Any()) > 1 {
      SumPctWins(x, x);
      WinsSymmetric(x, x);
      HalfSquare(Count(x, Any()));
    } else {
      SumPctAlone(x, x);
    }
  }

  // ---- the pool: masked full row against compacted row ----

  /** The pool's members, ascending. */
  function Members(pool: seq<bool>): (r: seq<nat>)
    ensures forall k :: 0 <= k < |r| ==> r[k] < |pool| && pool[r[k]]
    ensures forall j, k :: 0 <= j < k < |r| ==> r[j] < r[k]
    ensures forall a :: 0 <= a < |pool| && pool[a] ==> a in r
  {
    if pool == [] then []
    else
      var n := |pool| - 1;
      Members(pool[..n]) + if pool[n] then [n] else []
  }

  function Masked(pool: seq<bool>, col: Row): (r: Row)
    requires |pool| == |col|
  {
    seq(|col|, a requires 0 <= a < |col| => if pool[a] then col[a] else None)
  }

  function Gathered(mem: seq<nat>, col: Row): (r: Row)
    requires forall k :: 0 <= k < |mem| ==> mem[k] < |col|
  {
    seq(|mem|, k requires 0 <= k < |mem| => col[mem[k]])
  }

  lemma {:induction false} CompactCount(pool: seq<bool>, col: Row, p: real -> bool)
    requires |pool| == |col|
    ensures Count(Masked(pool, col), p) == Count(Gathered(Members(pool), col), p)
  {
    if pool != [] {
      var n := |pool| - 1;
      CompactCount(pool[..n], col[..n], p);
      MaskedSnoc(pool, col);
      CountSnoc(Masked(pool[..n], col[..n]), if pool[n] then col[n] else None, p);
      GatheredSnoc(pool, col);
      CountSnoc(Gathered(Members(pool[..n]), col[..n]), col[n], p);
    }
  }

  lemma CountSnoc(x: Row, o: Option<real>, p: real -> bool)
    ensures Count(x + [o], p) == Count(x, p) + if o.Some? && p(o.value) then 1 else 0
  {
    assert (x + [o])[..|x|] == x;
  }

  lemma MaskedSnoc(pool: seq<bool>, col: Row)
    requires |pool| == |col| > 0
    ensures var n := |pool| - 1;
      Masked(pool, col) == Masked(pool[..n], col[..n]) + [if pool[n] then col[n] else None]
  {
  }

  lemma GatheredSnoc(pool: seq<bool>, col: Row)
    requires |pool| == |col| > 0
    ensures var n := |pool| - 1;
      Gathered(Members(pool), col) ==
      if pool[n] then Gathered(Members(pool[..n]), col[..n]) + [col[n]] else Gathered(Members(pool[..n]), col[..n])
  {
    var n := |pool| - 1;
    var mem := Members(pool[..n]);
    assert Members(pool) == mem + if pool[n] then [n] else [];
    hide Members;
    assert Gathered(mem, col) == Gathered(mem, col[..n]);
  }

  /** Ranking the pool inside the full row and ranking the compacted pool give every member the same percentile. */
  lemma CompactPct(pool: seq<bool>, col: Row, k: nat)
    requires |pool| == |col| && k < |Members(pool)| && col[Members(pool)[k]].Some?
    ensures PctRow(Masked(pool, col))[Members(pool)[k]] == PctRow(Gathered(Members(pool), col))[k]
  {
    var v := col[Members(pool)[k]].value;
    CompactCount(pool, col, Below(v));
    CompactCount(pool, col, Same(v));
    CompactCount(pool, col, Any());
  }
}
