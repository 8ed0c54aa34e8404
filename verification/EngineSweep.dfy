/**
 * The cash sweep as a waterfall: deficits are paid in descending order, each in
 * full, until the cash is gone.
 */
module EngineSweep {
  import opened Common
  import opened EngineSpec
  import opened EngineLaws
  import opened EngineStructure

  /** The deficits before place i, together. */
  function Ahead(ds: seq<Deficit>, i: nat): real
    requires i <= |ds|
  {
    if i == 0 then 0.0 else ds[0].def + Ahead(ds[1..], i - 1)
  }

  /** What place i receives: its deficit, or what those ahead of it leave. */
  function Paid(cash: real, ds: seq<Deficit>, i: nat): real
    requires i < |ds|
  {
    MinReal(ds[i].def, MaxReal(0.0, cash - Ahead(ds, i)))
  }

  function ShareOf(hs: seq<Pos>, a: nat): real {
    var r := Find(hs, a);
    if r < 0 then 0.0 else hs[r].shares
  }

  ghost predicate Payable(hs: seq<Pos>, ds: seq<Deficit>) {
    && (forall i :: 0 <= i < |ds| ==> ds[i].c > 0.0 && ds[i].def > 0.0 && ds[i].a in Assets(hs))
    && (forall i, j :: 0 <= i < j < |ds| ==> ds[i].a != ds[j].a)
  }

  lemma FindUnique(hs: seq<Pos>, r: nat)
    requires Distinct(Assets(hs)) && r < |hs|
    ensures Find(hs, hs[r].a) == r
  {
    var q := Find(hs, hs[r].a);
    assert Assets(hs)[r] == hs[r].a;
    assert q >= 0 ==> Assets(hs)[q] == hs[r].a;
  }

  lemma AddSharesReads(hs: seq<Pos>, a: nat, add: real, x: nat)
    requires Distinct(Assets(hs)) && a in Assets(hs)
    ensures Assets(AddShares(hs, a, add)) == Assets(hs)
    ensures ShareOf(AddShares(hs, a, add), x) == ShareOf(hs, x) + if x == a then add else 0.0
  {
    var gs := AddShares(hs, a, add);
    var r := Find(hs, a);
    assert r >= 0 by {
      var i :| 0 <= i < |hs| && Assets(hs)[i] == a;
      assert hs[i].a == a;
    }
    assert Assets(gs) == Assets(hs);
    var q := Find(hs, x);
    if q >= 0 {
      assert gs[q].a == x;
      FindUnique(gs, q);
    } else {
      assert forall i :: 0 <= i < |hs| ==> gs[i].a == hs[i].a;
    }
  }

  lemma {:induction false} AheadNonNegative(ds: seq<Deficit>, i: nat)
    requires i <= |ds| && forall j :: 0 <= j < |ds| ==> ds[j].def > 0.0
    ensures Ahead(ds, i) >= 0.0
  {
    if i > 0 {
      AheadNonNegative(ds[1..], i - 1);
    }
  }

  /** With the cash gone nothing further is paid. */
  lemma NothingLeft(cash: real, ds: seq<Deficit>, i: nat)
    requires i < |ds| && cash <= 0.0 && forall j :: 0 <= j < |ds| ==> ds[j].def > 0.0
    ensures Paid(cash, ds, i) == 0.0
  {
    AheadNonNegative(ds, i);
  }

  lemma PaidShift(cash: real, ds: seq<Deficit>, i: nat)
    requires 0 < i < |ds| && cash > 0.0 && forall j :: 0 <= j < |ds| ==> ds[j].def > 0.0
    ensures Paid(cash, ds, i) == Paid(cash - MinReal(ds[0].def, cash), ds[1..], i - 1)
  {
    assert ds[1..][i - 1] == ds[i];
    AheadNonNegative(ds[1..], i - 1);
  }

  lemma NoCashPays(b: Book, ds: seq<Deficit>, x: nat)
    requires b.cash == 0.0 && Payable(b.holdings, ds)
    ensures 0.0 == MaxReal(0.0, b.cash - Ahead(ds, |ds|))
    ensures forall i :: 0 <= i < |ds| && ds[i].a == x ==> SharesFor(Paid(b.cash, ds, i), ds[i].c) == 0.0
  {
    AheadNonNegative(ds, |ds|);
    forall i | 0 <= i < |ds| && ds[i].a == x
      ensures SharesFor(Paid(b.cash, ds, i), ds[i].c) == 0.0
    {
      NothingLeft(b.cash, ds, i);
      assert 0.0 / ds[i].c == 0.0;
    }
  }

  lemma TopUpFirst(b: Book, d: Deficit, x: nat)
    requires b.cash > 0.0 && d.c > 0.0 && d.def > 0.0 && Distinct(Assets(b.holdings)) && d.a in Assets(b.holdings)
    ensures var c, money := TopUpOne(b, d), MinReal(d.def, b.cash);
      && c.cash == b.cash - money >= 0.0 && Assets(c.holdings) == Assets(b.holdings)
      && ShareOf(c.holdings, x) == ShareOf(b.holdings, x) + if x == d.a then SharesFor(money, d.c) else 0.0
  {
    var money := MinReal(d.def, b.cash);
    ShareMoney(money, d.c);
    AddSharesReads(b.holdings, d.a, SharesFor(money, d.c), x);
    hide ShareOf, SharesFor, AddShares, Assets;
  }

  /** The loop pays exactly the waterfall; holdings with no deficit are left alone. */
  lemma {:induction false} TopUpPays(b: Book, ds: seq<Deficit>, x: nat)
    requires b.cash >= 0.0 && Distinct(Assets(b.holdings)) && Payable(b.holdings, ds)
    ensures TopUp(b, ds).cash == MaxReal(0.0, b.cash - Ahead(ds, |ds|))
    ensures (forall i :: 0 <= i < |ds| ==> ds[i].a != x) ==>
      ShareOf(TopUp(b, ds).holdings, x) == ShareOf(b.holdings, x)
    ensures forall i :: 0 <= i < |ds| && ds[i].a == x ==>
      ShareOf(TopUp(b, ds).holdings, x) == ShareOf(b.holdings, x) + SharesFor(Paid(b.cash, ds, i), ds[i].c)
    decreases |ds|
  {
    if ds == [] {
    } else if b.cash <= 0.0 {
      NoCashPays(b, ds, x);
    } else {
      var d, rest, c := ds[0], ds[1..], TopUpOne(b, ds[0]);
      var money := MinReal(d.def, b.cash);
      TopUpFirst(b, d, x);
      AheadNonNegative(rest, |rest|);
      hide TopUpOne, ShareOf, SharesFor, AddShares, Assets;
      TopUpPays(c, rest, x);
      forall i | 0 < i < |ds| && ds[i].a == x
        ensures ShareOf(TopUp(b, ds).holdings, x) == ShareOf(b.holdings, x) + SharesFor(Paid(b.cash, ds, i), ds[i].c)
      {
        PaidShift(b.cash, ds, i);
        assert rest[i - 1] == ds[i];
      }
      if d.a == x {
        assert forall i :: 0 <= i < |rest| ==> rest[i].a == ds[i + 1].a;
        assert Paid(b.cash, ds, 0) == money;
      }
    }
  }

  lemma {:induction false} DeficitOf(day: Day, target: real, hs: seq<Pos>, d: Deficit)
    requires Distinct(Assets(hs))
    ensures d in Deficits(day, target, hs) <==>
      exists i :: 0 <= i < |hs| && hs[i].a == d.a && Sweepable(day, target, hs[i])
                  && d.c == Px(day, d.a) && d.def == target - Amount(day, hs[i])
  {
    hide Amount;
    if hs != [] {
      var n := |hs| - 1;
      assert Assets(hs) == Assets(hs[..n]) + [hs[n].a];
      DistinctSnoc(Assets(hs[..n]), hs[n].a);
      DeficitOf(day, target, hs[..n], d);
      var ds := Deficits(day, target, hs[..n]);
      assert forall i :: 0 <= i < n ==> hs[..n][i] == hs[i];
      if i :| 0 <= i < |hs| && hs[i].a == d.a && Sweepable(day, target, hs[i])
              && d.c == Px(day, d.a) && d.def == target - Amount(day, hs[i]) {
        if i < n { assert hs[..n][i].a == d.a; }
      }
    }
  }

  lemma {:induction false} DeficitsApart(day: Day, target: real, hs: seq<Pos>)
    requires Distinct(Assets(hs))
    ensures forall i, j :: 0 <= i < j < |Deficits(day, target, hs)| ==>
      Deficits(day, target, hs)[i].a != Deficits(day, target, hs)[j].a
  {
    hide Amount;
    if hs != [] {
      var n := |hs| - 1;
      assert Assets(hs) == Assets(hs[..n]) + [hs[n].a];
      DistinctSnoc(Assets(hs[..n]), hs[n].a);
      DeficitsApart(day, target, hs[..n]);
      DeficitsQuoted(day, target, hs[..n]);
      var ds := Deficits(day, target, hs[..n]);
      assert forall j :: 0 <= j < |ds| ==> ds[j] in ds;
    }
  }

  lemma OrderPayable(day: Day, ord: DefOrder, target: real, hs: seq<Pos>)
    requires IsDefOrder(ord) && Distinct(Assets(hs))
    ensures Payable(hs, ord(Deficits(day, target, hs)))
  {
    var ds := Deficits(day, target, hs);
    DeficitsPriced(day, target, hs);
    DeficitsQuoted(day, target, hs);
    DeficitsApart(day, target, hs);
    PermutedPayable(hs, ds, ord(ds));
  }

  lemma PermutedPayable(hs: seq<Pos>, ds: seq<Deficit>, os: seq<Deficit>)
    requires multiset(ds) == multiset(os)
    requires forall d :: d in ds ==> d.c > 0.0 && d.def > 0.0 && d.a in Assets(hs)
    requires forall i, j :: 0 <= i < j < |ds| ==> ds[i].a != ds[j].a
    ensures Payable(hs, os)
  {
    DistinctPermutation(ds, os);
    assert forall i :: 0 <= i < |os| ==> os[i] in multiset(os);
    assert forall d :: d in multiset(ds) ==> d in ds;
    forall i, j | 0 <= i < j < |os|
      ensures os[i].a != os[j].a
    {
      assert os[i] in ds && os[j] in ds && os[i] != os[j];
    }
  }

  /**
   * The sweep over a sound book with cash: the tradable holdings below target, in
   * descending order of deficit, are paid as a waterfall. So either the cash is
   * gone or every one of them was paid in full, and a place is paid anything only
   * when everything ahead of it was paid in full (at most one is paid in part).
   */
  lemma SweepWaterfall(day: Day, ord: DefOrder, target: real, b: Book)
    requires IsDefOrder(ord) && Sound(b) && b.cash > 0.0
    ensures var ds, r := ord(Deficits(day, target, b.holdings)), Sweep(day, ord, target, b);
      && Descending(ds) && Payable(b.holdings, ds)
      && r.cash == MaxReal(0.0, b.cash - Ahead(ds, |ds|))
      && (r.cash > 0.0 ==> forall i :: 0 <= i < |ds| ==> Paid(b.cash, ds, i) == ds[i].def)
      && (forall i, j :: 0 <= i < j < |ds| && Paid(b.cash, ds, j) > 0.0 ==> Paid(b.cash, ds, i) == ds[i].def)
      && (forall i :: 0 <= i < |ds| ==>
            ShareOf(r.holdings, ds[i].a) == ShareOf(b.holdings, ds[i].a) + SharesFor(Paid(b.cash, ds, i), ds[i].c))
      && (forall x :: x in Assets(b.holdings) && (forall i :: 0 <= i < |ds| ==> ds[i].a != x) ==>
            ShareOf(r.holdings, x) == ShareOf(b.holdings, x))
  {
    var ds := ord(Deficits(day, target, b.holdings));
    OrderPayable(day, ord, target, b.holdings);
    Waterfall(b.cash, ds);
    SweepIs(day, ord, target, b, ds);
    hide Ahead, Paid, TopUp, SharesFor, ShareOf, Sweep, Deficits;
    TopUpAll(b, ds);
  }

  lemma SweepIs(day: Day, ord: DefOrder, target: real, b: Book, ds: seq<Deficit>)
    requires IsDefOrder(ord) && b.cash > 0.0 && ds == ord(Deficits(day, target, b.holdings)) && Payable(b.holdings, ds)
    ensures Sweep(day, ord, target, b) == TopUp(b, ds)
  {
    if b.holdings == [] {
      assert |multiset(ds)| == |ds|;
      assert ds == [];
    }
  }

  lemma TopUpAll(b: Book, ds: seq<Deficit>)
    requires b.cash >= 0.0 && Distinct(Assets(b.holdings)) && Payable(b.holdings, ds)
    ensures var r := TopUp(b, ds);
      && r.cash == MaxReal(0.0, b.cash - Ahead(ds, |ds|))
      && (forall i :: 0 <= i < |ds| ==>
            ShareOf(r.holdings, ds[i].a) == ShareOf(b.holdings, ds[i].a) + SharesFor(Paid(b.cash, ds, i), ds[i].c))
      && (forall x :: x in Assets(b.holdings) && (forall i :: 0 <= i < |ds| ==> ds[i].a != x) ==>
            ShareOf(r.holdings, x) == ShareOf(b.holdings, x))
  {
    hide Ahead, Paid, TopUp, SharesFor, ShareOf;
    var r := TopUp(b, ds);
    TopUpPays(b, ds, 0);
    forall i | 0 <= i < |ds|
      ensures ShareOf(r.holdings, ds[i].a) == ShareOf(b.holdings, ds[i].a) + SharesFor(Paid(b.cash, ds, i), ds[i].c)
    {
      TopUpPays(b, ds, ds[i].a);
    }
    forall x | x in Assets(b.holdings) && (forall i :: 0 <= i < |ds| ==> ds[i].a != x)
      ensures ShareOf(r.holdings, x) == ShareOf(b.holdings, x)
    {
      TopUpPays(b, ds, x);
    }
  }

  /** Cash paid out from the front: what is left over means all were paid in full, as does payment further on. */
  lemma Waterfall(cash: real, ds: seq<Deficit>)
    requires cash > 0.0 && forall j :: 0 <= j < |ds| ==> ds[j].def > 0.0
    ensures cash - Ahead(ds, |ds|) > 0.0 ==> forall i :: 0 <= i < |ds| ==> Paid(cash, ds, i) == ds[i].def
    ensures forall i, j :: 0 <= i < j < |ds| && Paid(cash, ds, j) > 0.0 ==> Paid(cash, ds, i) == ds[i].def
  {
    forall i, j | 0 <= i < j <= |ds|
      ensures Ahead(ds, j) >= Ahead(ds, i) + ds[i].def
    {
      AheadGrows(ds, i, j);
    }
    hide Ahead;
  }

  lemma {:induction false} AheadGrows(ds: seq<Deficit>, i: nat, j: nat)
    requires i < j <= |ds| && forall k :: 0 <= k < |ds| ==> ds[k].def > 0.0
    ensures Ahead(ds, j) >= Ahead(ds, i) + ds[i].def
  {
    if i > 0 {
      AheadGrows(ds[1..], i - 1, j - 1);
    } else {
      AheadNonNegative(ds[1..], j - 1);
    }
  }

  // ---- there are such orders ----

  function PutDeficit(ds: seq<Deficit>, d: Deficit): seq<Deficit> {
    if ds == [] || ds[|ds| - 1].def >= d.def then ds + [d] else PutDeficit(ds[..|ds| - 1], d) + [ds[|ds| - 1]]
  }

  function ByDeficit(ds: seq<Deficit>): seq<Deficit> {
    if ds == [] then [] else PutDeficit(ByDeficit(ds[..|ds| - 1]), ds[|ds| - 1])
  }

  lemma {:induction false} PutSame(ds: seq<Deficit>, d: Deficit)
    ensures multiset(PutDeficit(ds, d)) == multiset(ds) + multiset{d}
  {
    if ds != [] && ds[|ds| - 1].def < d.def {
      var n := |ds| - 1;
      PutSame(ds[..n], d);
      hide PutDeficit;
      assert ds == ds[..n] + [ds[n]];
    }
  }

  lemma {:induction false} PutDescending(ds: seq<Deficit>, d: Deficit)
    requires Descending(ds)
    ensures Descending(PutDeficit(ds, d)) && forall b: real :: d.def >= b && LastAtLeast(ds, b) ==> LastAtLeast(PutDeficit(ds, d), b)
  {
    if ds != [] && ds[|ds| - 1].def < d.def {
      var n := |ds| - 1;
      var r := PutDeficit(ds[..n], d);
      PutDescending(ds[..n], d);
      assert LastAtLeast(ds[..n], ds[n].def);
      hide PutDeficit;
      DescendingSnoc(r, ds[n]);
    } else {
      DescendingSnoc(ds, d);
    }
  }

  ghost predicate LastAtLeast(ds: seq<Deficit>, b: real) {
    ds != [] ==> ds[|ds| - 1].def >= b
  }

  lemma DescendingSnoc(ds: seq<Deficit>, d: Deficit)
    requires Descending(ds) && LastAtLeast(ds, d.def)
    ensures Descending(ds + [d])
  {
  }

  lemma {:induction false} ByDeficitSorts(ds: seq<Deficit>)
    ensures Descending(ByDeficit(ds)) && multiset(ByDeficit(ds)) == multiset(ds)
  {
    if ds != [] {
      var n := |ds| - 1;
      assert ds == ds[..n] + [ds[n]];
      ByDeficitSorts(ds[..n]);
      hide PutDeficit, Descending;
      PutSame(ByDeficit(ds[..n]), ds[n]);
      PutDescending(ByDeficit(ds[..n]), ds[n]);
    }
  }

  lemma OrderExists()
    ensures IsDefOrder(ByDeficit)
  {
    forall ds
      ensures Descending(ByDeficit(ds)) && multiset(ByDeficit(ds)) == multiset(ds)
    {
      ByDeficitSorts(ds);
    }
  }
}
