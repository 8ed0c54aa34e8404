/** The closed form for the number of lattice points, and the exact division behind it. */
module LatticeSize {
  import opened Common
  import opened Lattice

  /** Binomial coefficients by Pascal's rule. */
  function Choose(a: nat, b: nat): nat {
    if b == 0 then 1 else if a == 0 then 0 else Choose(a - 1, b) + Choose(a - 1, b - 1)
  }

  function Pow2(j: nat): nat {
    if j == 0 then 1 else 2 * Pow2(j - 1)
  }

  lemma {:induction false} ChooseNone(a: nat, b: nat)
    requires b > a
    ensures Choose(a, b) == 0
  {
    if a > 0 {
      ChooseNone(a - 1, b);
      ChooseNone(a - 1, b - 1);
    }
  }

  /** Moving one place along a row: what makes the running division exact. */
  lemma {:induction false} ChooseNext(a: nat, i: nat)
    ensures Choose(a, i + 1) * (i + 1) == Choose(a, i) * (a - i)
  {
    if a == 0 {
      if i > 0 { ChooseNone(0, i); }
    } else {
      ChooseNext(a - 1, i);
      if i > 0 {
        ChooseNext(a - 1, i - 1);
        Absorb(Choose(a - 1, i), Choose(a - 1, i - 1), Choose(a - 1, i + 1), a, i);
      } else {
        assert Choose(a - 1, 1) == Choose(a - 1, 0) * (a - 1);
      }
    }
  }

  lemma Absorb(x: int, y: int, z: int, a: int, i: int)
    requires z * (i + 1) == x * (a - 1 - i)
    requires y * (a - i) == x * i
    ensures (z + x) * (i + 1) == (x + y) * (a - i)
  {
    assert (z + x) * (i + 1) == z * (i + 1) + x * (i + 1);
    assert (x + y) * (a - i) == x * (a - i) + y * (a - i);
    assert x * (a - 1 - i) + x * (i + 1) == x * a;
    assert x * (a - i) + x * i == x * a;
  }

  method Binom(a: nat, b: nat) returns (r: nat)
    ensures r == Choose(a, b)
  {
    if b > a {
      ChooseNone(a, b);
      return 0;
    }
    r := 1;
    var i := 0;
    while i < b
      invariant 0 <= i <= b
      invariant r == Choose(a, i)
    {
      ChooseNext(a, i);
      ExactDivision(r * (a - i), Choose(a, i + 1), i + 1);
      r := r * (a - i) / (i + 1);
      i := i + 1;
    }
  }

  lemma ExactDivision(x: int, q: int, d: int)
    requires d > 0 && x == q * d
    ensures x / d == q
  {
    SameQuotient(d, q, x / d, x % d);
  }

  lemma SameQuotient(d: int, q: int, r: int, e: int)
    requires d > 0 && 0 <= e < d && q * d == d * r + e
    ensures q == r
  {
    AtLeast(q - r, d);
    AtLeast(r - q, d);
    assert (q - r) * d == e;
    assert (r - q) * d == -e;
  }

  lemma AtLeast(a: int, d: int)
    requires d > 0
    ensures a >= 1 ==> a * d >= d
  {
    if a >= 1 { assert (a - 1) * d >= 0; }
  }

  // ---- the closed form ----

  /** The points with exactly j nonzero coordinates. */
  function Layer(n: nat, m: nat, j: nat): nat
    requires m >= 1 && j >= 1
  {
    Choose(n, j) * Choose(m - 1, j - 1) * Pow2(j)
  }

  function Layers(n: nat, m: nat, top: nat): nat
    requires m >= 1
  {
    if top == 0 then 0 else Layers(n, m, top - 1) + Layer(n, m, top)
  }

  function Below(n: nat, m: nat, top: nat): nat
    requires m >= 1
  {
    Choose(n, top) * Choose(m - 1, top) * Pow2(top) + if top == 0 then 0 else Below(n, m, top - 1)
  }

  lemma Spread(a: nat, b: nat, c: nat, p: nat)
    ensures (a + b) * c * p == a * c * p + b * c * p
    ensures c * (a + b) * p == c * a * p + c * b * p
  {
    var x, y := a * c, b * c;
    assert (a + b) * c == x + y;
    assert (x + y) * p == x * p + y * p;
  }

  lemma TwiceAs(x: nat, p: nat)
    ensures x * (2 * p) == 2 * (x * p)
  {
  }

  /** Adding a coordinate. */
  lemma {:induction false} LayersStep(n: nat, m: nat, top: nat)
    requires m >= 1
    ensures Layers(n + 1, m, top + 1) == Layers(n, m, top + 1) + 2 * Below(n, m, top)
  {
    var j := top + 1;
    var c := Choose(m - 1, top);
    Spread(Choose(n, j), Choose(n, top), c, Pow2(j));
    TwiceAs(Choose(n, top) * c, Pow2(top));
    assert Layer(n + 1, m, j) == Layer(n, m, j) + 2 * (Choose(n, top) * c * Pow2(top));
    if top == 0 {
      assert Layers(n + 1, m, 0) == 0 && Layers(n, m, 0) == 0;
    } else {
      LayersStep(n, m, top - 1);
    }
  }

  /** Enlarging the budget. */
  lemma {:induction false} BelowStep(n: nat, m: nat, top: nat)
    requires m >= 1
    ensures Below(n, m + 1, top) == Below(n, m, top) + Layers(n, m, top)
  {
    if top > 0 {
      BelowStep(n, m, top - 1);
      Spread(Choose(m - 1, top), Choose(m - 1, top - 1), Choose(n, top), Pow2(top));
      assert Choose(m, top) == Choose(m - 1, top) + Choose(m - 1, top - 1);
    }
  }

  lemma {:induction false} BelowOne(n: nat, top: nat)
    ensures Below(n, 1, top) == 1
  {
    if top > 0 {
      BelowOne(n, top - 1);
      ChooseNone(0, top);
    }
  }

  lemma {:induction false} OneCoordinate(m: nat, top: nat)
    requires m >= 1 && top >= 1
    ensures Layers(1, m, top) == 2
  {
    if top == 1 {
      assert Layers(1, m, 0) == 0;
      assert Choose(1, 1) == 1 && Pow2(1) == 2;
    } else {
      OneCoordinate(m, top - 1);
      ChooseNone(1, top);
    }
  }

  lemma {:induction false} WaysZero(n: nat)
    requires n >= 1
    ensures Ways(n, 0) == 1
  {
    if n > 1 {
      WaysZero(n - 1);
    }
  }

  lemma {:induction false} WaysAreLayers(n: nat, m: nat, top: nat)
    requires n >= 1 && m >= 1 && top >= n
    ensures Ways(n, m) == Layers(n, m, top)
    decreases n, m, 1
  {
    if n == 1 {
      OneCoordinate(m, top);
    } else {
      WaysAreLayers(n - 1, m, top);
      WaysBelowAre(n - 1, m, top - 1);
      LayersStep(n - 1, m, top - 1);
    }
  }

  lemma {:induction false} WaysBelowAre(n: nat, m: nat, top: nat)
    requires n >= 1 && m >= 1 && top >= n
    ensures WaysBelow(n, m) == Below(n, m, top)
    decreases n, m, 2
  {
    if m == 1 {
      WaysZero(n);
      BelowOne(n, top);
      assert WaysBelow(n, 0) == 0;
    } else {
      WaysBelowAre(n, m - 1, top);
      WaysAreLayers(n, m - 1, top);
      BelowStep(n, m - 1, top);
    }
  }

  lemma {:induction false} LayersStop(n: nat, m: nat, cut: nat, top: nat)
    requires m >= 1 && cut <= top && (cut >= n || cut >= m)
    ensures Layers(n, m, top) == Layers(n, m, cut)
    decreases top
  {
    if cut < top {
      LayersStop(n, m, cut, top - 1);
      if cut >= n { ChooseNone(n, top); } else { ChooseNone(m - 1, top - 1); }
    }
  }

  /** The table's total is the closed form sum over j of C(n, j) C(m-1, j-1) 2^j. */
  lemma ClosedForm(n: nat, m: nat)
    requires n >= 1 && m >= 1
    ensures Ways(n, m) == Layers(n, m, MinInt(n, m))
  {
    WaysAreLayers(n, m, n);
    LayersStop(n, m, MinInt(n, m), n);
  }

  /** The number of points, as computed before the enumeration starts. */
  method Size(n: nat, m: nat) returns (p: nat)
    requires n >= 1 && m >= 1
    ensures p == Ways(n, m) == |Points(n, m)|
  {
    var top := MinInt(n, m);
    p := 0;
    var j, power := 1, 2;
    while j <= top
      invariant 1 <= j <= top + 1
      invariant power == Pow2(j)
      invariant p == Layers(n, m, j - 1)
    {
      var x := Binom(n, j);
      var y := Binom(m - 1, j - 1);
      p := p + x * y * power;
      power := 2 * power;
      j := j + 1;
    }
    ClosedForm(n, m);
    PointsCount(n, m);
  }
}
